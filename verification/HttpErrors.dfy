/** The parser's tables, and each of its errors: in which state and at which byte it occurs. */
module HttpErrors {
  import opened Bytes
  import opened HttpMachine
  import opened HttpGrammar

  // ---- the tables ----

  predicate Letter(c: byte) { 65 <= c <= 90 || 97 <= c <= 122 }

  predicate Decimal(c: byte) { 48 <= c <= 57 }

  /** tchar of section 5.6.2 of RFC 9110: letters, digits and ! # $ % & ' * + - . ^ _ ` | ~ */
  predicate Tchar(c: byte)
  {
    Letter(c) || Decimal(c) ||
    c in {33, 35, 36, 37, 38, 39} || c in {42, 43, 45, 46} || c in {94, 95, 96} || c in {124, 126}
  }

  lemma CharTables(c: byte)
    ensures IsToken(c) <==> Tchar(c)
    ensures IsHex(c) <==> Decimal(c) || 65 <= c <= 70 || 97 <= c <= 102
    ensures IsAlpha(c) <==> Letter(c)
    ensures IsNum(c) <==> Decimal(c)
  {
  }

  const OPTIONS: Str := [79, 80, 84, 73, 79, 78, 83]
  const GET: Str := [71, 69, 84]
  const HEAD: Str := [72, 69, 65, 68]
  const POST: Str := [80, 79, 83, 84]
  const PUT: Str := [80, 85, 84]
  const DELETE: Str := [68, 69, 76, 69, 84, 69]
  const TRACE: Str := [84, 82, 65, 67, 69]
  const CONNECT: Str := [67, 79, 78, 78, 69, 67, 84]
  const PATCH: Str := [80, 65, 84, 67, 72]
  const PRI: Str := [80, 82, 73]

  /** The methods that the parser knows. */
  predicate Known(verb: Str)
  {
    verb == OPTIONS || verb == GET || verb == HEAD || verb == POST || verb == PUT || verb == DELETE ||
    verb == TRACE || verb == CONNECT || verb == PATCH || verb == PRI
  }

  lemma MethodTable(verb: Str)
    ensures verb in VALID_METHODS <==> Known(verb)
  {
  }

  /** A word where a method is expected: read as a method if and only if it starts with a letter that some
      method has and it is, in upper case, one of the methods. */
  lemma MethodExact(env: Env, core: Core, out: Out, verb: Str)
    requires core.state.MethodBefore? && !out.upgraded && verb != [] && forall i :: 0 <= i < |verb| ==> Letter(verb[i])
    ensures
      FeedAll(env, Live(core, [], out), verb + [SP]) ==
      if IsMethodChar(verb[0]) && Known(ToUpper(env, ToUpper(env, verb))) then
        Live(core.(state := PathBefore), [], Record(out, OnMethod(ToUpper(env, verb))))
      else Dead(InvalidMethod, out)
  {
    MethodTable(ToUpper(env, ToUpper(env, verb)));
    hide Known, Feed, FeedAll;
    if !IsMethodChar(verb[0]) {
      FeedFail(env, core, [], out, verb + [SP], InvalidMethod);
    } else {
      var core1 := core.(state := Method);
      forall i | 1 <= i < |verb| ensures Stays(env, core1, out, verb[i]) { CharTables(verb[i]); }
      hide IsMethodChar, HeaderStep, StatusLineStep, ChunkStep, TrailerStep;
      FeedToken(env, core, [], out, core1, verb, SP);
    }
  }

  /** Upper case of a letter. */
  function Upper(c: byte): (r: byte) { if 97 <= c <= 122 then c - 32 else c }

  /** The letters that a method may start with are those that occur in a method, in either case. */
  lemma MethodChars(c: byte)
    ensures IsMethodChar(c) <==> exists verb :: Known(verb) && Upper(c) in verb
  {
    if IsMethodChar(c) {
      var verb := if Upper(c) in OPTIONS then OPTIONS else if Upper(c) in CONNECT then CONNECT
                  else if Upper(c) in DELETE then DELETE else if Upper(c) in HEAD then HEAD
                  else if Upper(c) in TRACE then TRACE else if Upper(c) in GET then GET else PUT;
      assert Known(verb) && Upper(c) in verb;
    }
  }

  // ---- the errors of one byte ----

  lemma RequestLineErrors(env: Env, core: Core, out: Out, w: Str, c: byte)
    requires InRequestLine(core.state)
    ensures
      var s, o := core.state, Step(env, core, out, w, c);
      && (o == Fail(InvalidMethod, out) <==>
            || (s.MethodBefore? && !IsMethodChar(c))
            || (s.Method? && if c == 32 then !Known(ToUpper(env, ToUpper(env, w))) else !Letter(c)))
      && (o == Fail(InvalidRequestURI, out) <==> s.PathBefore? && c != 47 && c != 42 && c != 32)
      && (o == Fail(LFExpected, out) <==> s.ProtoLF? && c != 10)
      && (o.Fail? ==>
            (o.out == out && o.error in {InvalidMethod, InvalidRequestURI, LFExpected}) || o.error.Rejected?)
  {
    MethodTable(ToUpper(env, ToUpper(env, w)));
    CharTables(c);
    hide Known, IsMethodChar, IsAlpha, Letter;
  }

  /** A status code is a number below two to the 63rd. */
  lemma StatusLineErrors(env: Env, core: Core, out: Out, w: Str, c: byte)
    requires InStatusLine(core.state)
    ensures
      var s, o := core.state, Step(env, core, out, w, c);
      && (o == Fail(InvalidMethod, out) <==> s.ClientProtoBefore? && c != 72)
      && (o == Fail(InvalidStatusCode, out) <==>
            (s.StatusCodeBefore? && c == 32) || (s.StatusCode? && c != 32 && !Decimal(c)))
      && (o == Fail(BadStatusCode, out) <==> s.StatusCode? && c == 32 && ParseInt(w, 10, TWO_63) == None)
      && (o == Fail(InvalidStatus, out) <==> s.StatusBefore? && c == 32)
      && (o == Fail(LFExpected, out) <==> s.StatusLF? && c != 10)
      && (o.Fail? ==>
            || (o.out == out && o.error in {InvalidMethod, InvalidStatusCode, BadStatusCode, InvalidStatus, LFExpected})
            || o.error.Rejected?)
  {
    CharTables(c);
    hide IsAlpha, Letter, ParseInt, IsNum, Decimal;
  }

  /** Where the header is not over; its end is in FramingExact. */
  lemma HeaderErrors(env: Env, core: Core, out: Out, w: Str, c: byte)
    requires InHeader(core.state) && !(core.state.HeaderKeyBefore? && c == 13)
    ensures
      var s, o := core.state, Step(env, core, out, w, c);
      && (o == Fail(InvalidCharInHeader, out) <==>
            || (s.HeaderKeyBefore? && !Tchar(c) && !(c == 32 && core.headerExists))
            || (s.HeaderKey? && !Tchar(c) && c != 32 && c != 58)
            || ((s.HeaderValueBefore? || s.HeaderValue?) && c == 10))
      && (o == Fail(LFExpected, out) <==> (s.HeaderValueLF? || s.HeaderOverLF?) && c != 10)
      && (o.Fail? ==> o.out == out && o.error in {InvalidCharInHeader, LFExpected})
  {
    CharTables(c);
    CharTables(32);
    CharTables(58);
    assert !Tchar(32) && !Tchar(58) && !Tchar(13);
    hide IsToken, Tchar, IsFraming, Add;
  }

  lemma ChunkErrors(env: Env, core: Core, out: Out, w: Str, c: byte)
    requires InChunk(core.state)
    ensures
      var s, o := core.state, Step(env, core, out, w, c);
      var hex := Decimal(c) || 65 <= c <= 70 || 97 <= c <= 102;
      && (o == Fail(InvalidChunkSize, out) <==> s.ChunkSizeBefore? && !hex)
      && (o == Fail(ChunkSizeParse, out) <==> s.ChunkSize? && !hex && core.chunkSize < 0 && ParseChunkSize(w).Bad?)
      && (o == Fail(LFExpected, out) <==> (s.ChunkSizeLF? || s.ChunkDataLF? || s.TailLF?) && c != 10)
      && (o == Fail(CRExpected, out) <==> (s.ChunkDataCR? || s.TailCR?) && c != 13)
      && (o.Fail? ==> o.out == out && o.error in {InvalidChunkSize, ChunkSizeParse, LFExpected, CRExpected})
  {
    CharTables(c);
    hide IsHex, Decimal, ParseInt;
  }

  lemma TrailerErrors(env: Env, core: Core, out: Out, w: Str, c: byte)
    requires InTrailer(core.state)
    ensures
      var s, o := core.state, Step(env, core, out, w, c);
      && (o == Fail(TrailerExpected, out) <==> s.TrailerKeyBefore? && c == 13 && core.trailer != {})
      && (o == Fail(InvalidTrailer, out) <==> s.TrailerValue? && c == 13 && core.trailer == {})
      && (o == Fail(InvalidCharInHeader, out) <==> s.TrailerKey? && !Tchar(c) && c != 32 && c != 58)
      && (o == Fail(LFExpected, out) <==> s.TrailerValueLF? && c != 10)
      && (o.Fail? ==> o.out == out && o.error in {TrailerExpected, InvalidTrailer, InvalidCharInHeader, LFExpected})
  {
    CharTables(c);
    assert !Tchar(32) && !Tchar(58) && !Tchar(13);
    hide IsToken, Tchar;
  }

  // ---- the end of the header ----

  /** Space, tab, line feed and carriage return. */
  predicate White(c: byte) { c == 32 || c == 9 || c == 10 || c == 13 }

  /** Trimming takes off the white space at both ends, and only that. */
  lemma {:induction false} TrimExact(s: Str) returns (i: nat, j: nat)
    ensures i <= j <= |s| && Trim(s) == s[i..j]
    ensures forall k :: 0 <= k < i || j <= k < |s| ==> White(s[k])
    ensures i < j ==> !White(s[i]) && !White(s[j - 1])
    decreases |s|
  {
    if s != [] && IsSpace(s[0]) {
      var a, b := TrimExact(s[1..]);
      i, j := a + 1, b + 1;
      assert s[1..][a..b] == s[i..j];
      assert forall k :: 0 < k < |s| ==> s[k] == s[1..][k - 1];
    } else if s != [] && IsSpace(s[|s| - 1]) {
      var a, b := TrimExact(s[..|s| - 1]);
      i, j := a, b;
      assert s[..|s| - 1][a..b] == s[i..j];
      assert forall k :: 0 <= k < |s| - 1 ==> s[k] == s[..|s| - 1][k];
    } else {
      i, j := 0, |s|;
      assert s[0..|s|] == s;
    }
  }

  /** A name in a Trailer field that may not be there. */
  predicate Forbidden(env: Env, name: Str) { Trim(name) != [] && IsFraming(Canonical(env, Trim(name))) }

  predicate AnyForbidden(env: Env, names: seq<Str>) { exists name :: name in names && Forbidden(env, name) }

  /** The names that are not blank. */
  function Named(env: Env, names: seq<Str>): (r: set<Str>)
  {
    set name | name in names && Trim(name) != [] :: Canonical(env, Trim(name))
  }

  lemma NamedSnoc(env: Env, names: seq<Str>, name: Str)
    ensures Named(env, names + [name]) ==
            Named(env, names) + if Trim(name) == [] then {} else {Canonical(env, Trim(name))}
    ensures AnyForbidden(env, names + [name]) <==> AnyForbidden(env, names) || Forbidden(env, name)
  {
    hide Trim, IsFraming;
    assert name in names + [name];
    assert forall x :: x in names + [name] <==> x in names || x == name;
    if AnyForbidden(env, names) {
      var x :| x in names && Forbidden(env, x);
      assert x in names + [name];
    }
  }

  /** The names of one value: one of them is forbidden, or they are the set of all that are not blank. */
  lemma {:induction false} NamesExact(env: Env, names: seq<Str>)
    ensures TrailerNames(env, names) == if AnyForbidden(env, names) then Bad(BadTrailerKey) else Good(Named(env, names))
  {
    if names == [] {
      assert Named(env, names) == {};
    } else {
      var n := |names| - 1;
      NamesExact(env, names[..n]);
      NamedSnoc(env, names[..n], names[n]);
      assert names == names[..n] + [names[n]];
      hide Trim, IsFraming, AnyForbidden, Named;
      assert Named(env, names[..n]) + {} == Named(env, names[..n]);
    }
  }

  /** The names of every value. */
  function AllNames(values: seq<Str>): (r: seq<Str>)
  {
    if values == [] then [] else AllNames(values[..|values| - 1]) + Split(Trim(values[|values| - 1]))
  }

  lemma NamedAppend(env: Env, a: seq<Str>, b: seq<Str>)
    ensures Named(env, a + b) == Named(env, a) + Named(env, b)
    ensures AnyForbidden(env, a + b) <==> AnyForbidden(env, a) || AnyForbidden(env, b)
  {
    hide Trim, IsFraming, Forbidden;
    assert forall x :: x in a + b <==> x in a || x in b;
    if AnyForbidden(env, a) || AnyForbidden(env, b) {
      var x :| (x in a || x in b) && Forbidden(env, x);
      assert x in a + b;
    }
  }

  lemma {:induction false} SetExact(env: Env, values: seq<Str>)
    ensures TrailerSet(env, values) ==
            if AnyForbidden(env, AllNames(values)) then Bad(BadTrailerKey) else Good(Named(env, AllNames(values)))
  {
    if values == [] {
      assert Named(env, []) == {};
    } else {
      var n := |values| - 1;
      SetExact(env, values[..n]);
      NamesExact(env, Split(Trim(values[n])));
      NamedAppend(env, AllNames(values[..n]), Split(Trim(values[n])));
      hide Trim, Split, AnyForbidden, Named;
    }
  }

  /** The blank line after the header. With Transfer-Encoding the message is chunked, whatever Content-Length
      says, or it is an error: more than one value, or a value that is not "chunked" in some case. Without
      it, the first value of Content-Length is the length. */
  lemma FramingExact(env: Env, core: Core, out: Out)
    requires !core.chunked
    ensures
      var o := EndOfHeader(env, core, out);
      if TRANSFER_ENCODING in core.header then
        var values := core.header[TRANSFER_ENCODING];
        && (|values| != 1 ==> o == Fail(TooManyTransferEncodings, out))
        && (|values| == 1 && ToLower(env, Trim(values[0])) != CHUNKED ==> o == Fail(UnsupportedTransferEncoding, out))
        && (|values| == 1 && ToLower(env, Trim(values[0])) == CHUNKED ==>
              && o.out == Record(out, OnContentLength(-1))
              && (o.Ok? ==> o.core.chunked && o.core.contentLength == -1 && o.core.state.HeaderOverLF?)
              && (TRAILER !in core.header ==> o.Ok? && o.core.trailer == core.trailer)
              && (TRAILER in core.header ==>
                    var names := AllNames(core.header[TRAILER]);
                    && (AnyForbidden(env, names) ==> o.Fail? && o.error == BadTrailerKey)
                    && (!AnyForbidden(env, names) ==>
                          && o.Ok?
                          && o.core.trailer == if Named(env, names) == {} then core.trailer else Named(env, names))))
      else
        var length := WithContentLength(core);
        && (length.Bad? ==> o == Fail(length.error, out))
        && (length.Good? ==>
              o == Ok(length.value.(state := HeaderOverLF),
                      Record(out, OnContentLength(length.value.contentLength)), Next))
  {
    if TRAILER in core.header { SetExact(env, core.header[TRAILER]); }
    hide Trim, TrailerSet, ParseInt, TrimLength, AllNames, AnyForbidden, Named;
  }
}
