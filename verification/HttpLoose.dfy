/** Forms that no writer here lays out and the parser reads all the same: numbers with signs, leading zeros,
    upper-case digits and trailing spaces, chunk extensions, and spaces around the name of a field. */
module HttpLoose {
  import opened Bytes
  import opened HttpMachine
  import opened FormatInt
  import opened HttpGrammar
  import opened HttpChunked

  // ---- numbers ----

  predicate IsDigit(c: byte, base: nat) { Digit(c).Some? && Digit(c).value < base }

  /** A string has a value if and only if all of it is digits of the base. */
  lemma {:induction false} MagnitudeExact(s: Str, base: nat)
    ensures Magnitude(s, base).Some? <==> forall i :: 0 <= i < |s| ==> IsDigit(s[i], base)
  {
    if s != [] { MagnitudeExact(s[..|s| - 1], base); }
    hide Digit;
  }

  function UpperHex(c: byte): (r: byte) { if 97 <= c <= 102 then c - 32 else c }

  function UpperAll(s: Str): (r: Str) { seq(|s|, i requires 0 <= i < |s| => UpperHex(s[i])) }

  lemma UpperDigit(c: byte)
    ensures Digit(UpperHex(c)) == Digit(c) && IsHex(UpperHex(c)) == IsHex(c)
  {
  }

  /** The case of a digit does not matter. */
  lemma {:induction false} UpperSame(s: Str, base: nat)
    ensures Magnitude(UpperAll(s), base) == Magnitude(s, base)
  {
    if s != [] {
      var n := |s| - 1;
      assert UpperAll(s)[..n] == UpperAll(s[..n]);
      UpperSame(s[..n], base);
      UpperDigit(s[n]);
    }
    hide Digit, UpperHex;
  }

  /** Neither do zeros in front. */
  lemma {:induction false} LeadingZero(s: Str, base: nat)
    requires base > 0
    ensures Magnitude([0x30] + s, base) == Magnitude(s, base)
  {
    var z := [0x30] + s;
    if s == [] {
      assert z[..0] == [];
      assert Magnitude(z, base) == Some(0);
    } else {
      var n := |s| - 1;
      assert z[..|z| - 1] == [0x30] + s[..n] && z[|z| - 1] == s[n];
      LeadingZero(s[..n], base);
      hide Digit;
    }
  }

  // ---- chunk sizes ----

  /** A size line: hexadecimal digits in either case, with any zeros in front, and perhaps an extension that
      does not start with such a digit. The size is their value if that is below two to the 62nd;
      otherwise it is an error. */
  lemma AnySize(env: Env, core: Core, w: Str, out: Out, s: Str, ext: Str)
    requires core.state.ChunkSizeBefore? && !out.upgraded && s != [] && forall i :: 0 <= i < |s| ==> IsHex(s[i])
    requires ext != [] ==> !IsHex(ext[0]) && NoneOf(ext, {CR})
    ensures
      Magnitude(s, 16).Some? &&
      var n := Magnitude(s, 16).value;
      FeedAll(env, Live(core, w, out), s + ext + CRLF) ==
      if n >= 4_611_686_018_427_387_904 then Dead(ChunkSizeParse, out)
      else Live(core.(chunkSize := n, state := if n > 0 then ChunkData
                                               else if core.trailer != {} then TrailerKeyBefore else TailCR), [], out)
  {
    HexValue(s);
    hide Step, Feed, FeedAll, Magnitude, ParseChunkSize, IsHex, AfterSize;
    var m, n := Live(core, w, out), Magnitude(s, 16).value;
    SizeCR(env, core, w, out, s, ext);
    assert s + ext + CRLF == (s + ext + [CR]) + [LF];
    FeedAllAppend(env, m, s + ext + [CR], [LF]);
    if n >= TWO_62 {
      DeadStays(env, Dead(ChunkSizeParse, out), [LF]);
    } else {
      FeedSizeLF(env, core.(chunkSize := n, state := ChunkSizeLF), out);
    }
  }

  /** Up to the carriage return. */
  lemma SizeCR(env: Env, core: Core, w: Str, out: Out, s: Str, ext: Str)
    requires core.state.ChunkSizeBefore? && !out.upgraded && s != [] && forall i :: 0 <= i < |s| ==> IsHex(s[i])
    requires ext != [] ==> !IsHex(ext[0]) && NoneOf(ext, {CR})
    ensures
      FeedAll(env, Live(core, w, out), s + ext + [CR]) ==
      match ParseChunkSize(s)
      case Bad(e) => Dead(e, out)
      case Good(n) => Live(core.(chunkSize := n, state := ChunkSizeLF), [], out)
  {
    assert !IsHex(CR);
    hide Step, Feed, FeedAll, ParseChunkSize, IsHex;
    var m := Live(core, w, out);
    if ext == [] {
      SizeRead(env, core, w, out, s, CR);
      assert s + ext + [CR] == s + [CR];
    } else {
      SizeRead(env, core, w, out, s, ext[0]);
      assert s + ext + [CR] == (s + [ext[0]]) + (ext[1..] + [CR]);
      FeedAllAppend(env, m, s + [ext[0]], ext[1..] + [CR]);
      match ParseChunkSize(s)
      case Bad(e) => DeadStays(env, Dead(e, out), ext[1..] + [CR]);
      case Good(n) =>
        FeedExtension(env, core.(chunkSize := n, state := ChunkSize), s + [ext[0]], out, ext[1..]);
    }
  }

  lemma FeedSizeLF(env: Env, core: Core, out: Out)
    requires core.state.ChunkSizeLF? && 0 <= core.chunkSize && !out.upgraded
    ensures FeedAll(env, Live(core, [], out), [LF]) ==
            Live(core.(state := if core.chunkSize > 0 then ChunkData
                                else if core.trailer != {} then TrailerKeyBefore else TailCR), [], out)
  {
    SizeLF(env, core, out, []);
    hide Step, Feed, FeedAll;
    FeedByte(env, core, [], out, LF);
  }

  /** The digits and the byte after them. */
  lemma SizeRead(env: Env, core: Core, w: Str, out: Out, s: Str, c: byte)
    requires core.state.ChunkSizeBefore? && !out.upgraded && s != [] && forall i :: 0 <= i < |s| ==> IsHex(s[i])
    requires !IsHex(c)
    ensures
      FeedAll(env, Live(core, w, out), s + [c]) ==
      match ParseChunkSize(s)
      case Bad(e) => Dead(e, out)
      case Good(n) => if c == CR then Live(core.(chunkSize := n, state := ChunkSizeLF), [], out)
                      else Live(core.(chunkSize := n, state := ChunkSize), s + [c], out)
  {
    var core1 := core.(chunkSize := -1, state := ChunkSize);
    SizeStart(env, core, w, out, s[0]);
    SizeEnds(env, core1, out, s, c);
    hide Step, Feed, FeedAll, ParseChunkSize;
    forall i | 1 <= i < |s| ensures Stays(env, core1, out, s[i]) { SizeByte(env, core1, out, s[i]); }
    hide IsHex;
    FeedToken(env, core, w, out, core1, s, c);
  }

  lemma HexValue(s: Str)
    requires s != [] && forall i :: 0 <= i < |s| ==> IsHex(s[i])
    ensures Magnitude(s, 16).Some?
    ensures ParseChunkSize(s) ==
            if Magnitude(s, 16).value < TWO_62 then Good(Magnitude(s, 16).value) else Bad(ChunkSizeParse)
  {
    MagnitudeExact(s, 16);
    assert IsHex(s[0]);
    hide Magnitude;
    forall i | 0 <= i < |s| ensures IsDigit(s[i], 16) { assert IsHex(s[i]); }
  }

  lemma SizeEnds(env: Env, core: Core, out: Out, s: Str, c: byte)
    requires core.state.ChunkSize? && core.chunkSize < 0 && !IsHex(c) && s != []
    ensures
      Step(env, core, out, s, c) ==
      match ParseChunkSize(s)
      case Bad(e) => Fail(e, out)
      case Good(n) => if c == CR then Ok(core.(chunkSize := n, state := ChunkSizeLF), out, Next)
                      else Ok(core.(chunkSize := n), out, Keep)
  {
    hide ParseInt, IsHex;
  }

  lemma {:induction false} FeedExtension(env: Env, core: Core, w: Str, out: Out, ext: Str)
    requires core.state.ChunkSize? && core.chunkSize >= 0 && !out.upgraded && NoneOf(ext, {CR})
    ensures FeedAll(env, Live(core, w, out), ext + [CR]) == Live(core.(state := ChunkSizeLF), [], out)
  {
    forall i | 0 <= i < |ext| ensures Stays(env, core, out, ext[i]) { ExtensionByte(env, core, out, ext[i]); }
    hide Step, Feed, FeedAll;
    KeepRun(env, core, w, out, ext);
    ExtensionEnd(env, core, out, w + ext);
    FeedByte(env, core, w + ext, out, CR);
    FeedAllAppend(env, Live(core, w, out), ext, [CR]);
  }

  lemma ExtensionByte(env: Env, core: Core, out: Out, c: byte)
    requires core.state.ChunkSize? && core.chunkSize >= 0 && c != CR
    ensures Stays(env, core, out, c)
  {
    hide ParseInt, IsHex;
  }

  lemma ExtensionEnd(env: Env, core: Core, out: Out, w: Str)
    requires core.state.ChunkSize? && core.chunkSize >= 0
    ensures Step(env, core, out, w, CR) == Ok(core.(state := ChunkSizeLF), out, Next)
  {
    hide ParseInt;
  }

  lemma UpperForm(n: nat)
    ensures
      var s := [0x30] + UpperAll(Digits(n, 16));
      (forall i :: 0 <= i < |s| ==> IsHex(s[i])) && Magnitude(s, 16) == Some(n)
  {
    var d := Digits(n, 16);
    var s := [0x30] + UpperAll(d);
    DigitsHex(n, 16);
    DigitsValue(n, 16);
    UpperSame(d, 16);
    LeadingZero(UpperAll(d), 16);
    hide Digits, Magnitude;
    forall i | 0 <= i < |s| ensures IsHex(s[i]) {
      if i > 0 { UpperDigit(d[i - 1]); }
    }
  }

  /** In particular, the digits that the printer lays out, in upper case and after a zero. */
  lemma UpperSize(env: Env, core: Core, w: Str, out: Out, n: nat)
    requires core.state.ChunkSizeBefore? && !out.upgraded && n < TWO_62
    ensures FeedAll(env, Live(core, w, out), [0x30] + UpperAll(Digits(n, 16)) + CRLF) ==
            FeedAll(env, Live(core, w, out), Digits(n, 16) + CRLF)
  {
    var d := Digits(n, 16);
    UpperForm(n);
    DigitsHex(n, 16);
    DigitsValue(n, 16);
    hide *;
    var s := [0x30] + UpperAll(d);
    assert s + [] == s && d + [] == d;
    AnySize(env, core, w, out, s, []);
    AnySize(env, core, w, out, d, []);
  }

  // ---- Content-Length ----

  function Spaces(k: nat): (r: Str) { seq(k, _ => SP) }

  lemma {:induction false} TrimSpaces(d: Str, k: nat)
    requires d != [] && d[|d| - 1] != SP
    ensures TrimLength(d + Spaces(k)) == d
  {
    var s := d + Spaces(k);
    if k == 0 {
      assert s == d && d[..|d|] == d;
    } else {
      assert s[..|s| - 1] == d + Spaces(k - 1);
      TrimSpaces(d, k - 1);
      SpacesEnd(d, k);
    }
  }

  lemma {:induction false} SpacesEnd(d: Str, k: nat)
    requires d != [] && d[|d| - 1] != SP
    ensures SpacesFrom(d + Spaces(k)) == |d|
  {
    var s := d + Spaces(k);
    if k == 0 {
      assert s == d;
    } else {
      assert s[..|s| - 1] == d + Spaces(k - 1);
      SpacesEnd(d, k - 1);
    }
    assert s[..|d|] == d;
  }

  datatype Sign = Unsigned | Plus | Minus

  function Signed(sign: Sign, digits: Str): (r: Str)
  {
    match sign
    case Unsigned => digits
    case Plus => [0x2B] + digits
    case Minus => [0x2D] + digits
  }

  /** The first value counts, without the spaces behind it. */
  lemma LengthOf(core: Core, v: Str, k: nat, more: seq<Str>)
    requires !core.chunked && CONTENT_LENGTH in core.header && core.header[CONTENT_LENGTH] == [v + Spaces(k)] + more
    requires v != [] && v[|v| - 1] != SP
    ensures
      WithContentLength(core) ==
      match ParseInt(v, 10, TWO_62)
      case None => Bad(BadContentLength)
      case Some(l) => if l < 0 then Bad(NegativeContentLength) else Good(core.(contentLength := l))
  {
    TrimSpaces(v, k);
    hide TrimLength, ParseInt, Spaces;
    assert First(core.header, CONTENT_LENGTH) == v + Spaces(k);
  }

  lemma ParseSigned(sign: Sign, d: Str, n: nat)
    requires d != [] && d[0] != 0x2B && d[0] != 0x2D && Magnitude(d, 10) == Some(n)
    ensures
      ParseInt(Signed(sign, d), 10, TWO_62) ==
      if sign.Minus? then (if n <= TWO_62 then Some(-(n as int)) else None)
      else if n < TWO_62 then Some(n) else None
  {
    hide Magnitude;
    assert sign != Unsigned ==> Signed(sign, d)[1..] == d;
  }

  lemma SignedLength(core: Core, sign: Sign, n: nat, v: Option<int>, r: Result<Core>)
    requires v == if sign.Minus? then (if n <= TWO_62 then Some(-(n as int)) else None)
                  else if n < TWO_62 then Some(n) else None
    requires r == match v
                  case None => Bad(BadContentLength)
                  case Some(l) => if l < 0 then Bad(NegativeContentLength) else Good(core.(contentLength := l))
    ensures r == if sign.Minus? && 0 < n <= 4_611_686_018_427_387_904 then Bad(NegativeContentLength)
                 else if n >= 4_611_686_018_427_387_904 then Bad(BadContentLength)
                 else Good(core.(contentLength := n))
  {
  }

  lemma DigitEnds(sign: Sign, n: nat)
    ensures var d := Digits(n, 10); d != [] && d[0] != 0x2B && d[0] != 0x2D
    ensures var v := Signed(sign, Digits(n, 10)); v != [] && v[|v| - 1] != SP
  {
    DecimalDigits(n);
    hide Digits;
    var d := Digits(n, 10);
    assert IsNum(d[0]) && IsNum(d[|d| - 1]);
    var v := Signed(sign, d);
    assert v[|v| - 1] == d[|d| - 1];
  }

  /** A value of Content-Length that is a number, perhaps with a sign in front and spaces behind: the length,
      if it is not negative and below two to the 62nd. */
  lemma LengthNumber(core: Core, sign: Sign, n: nat, k: nat, more: seq<Str>)
    requires !core.chunked && CONTENT_LENGTH in core.header
    requires core.header[CONTENT_LENGTH] == [Signed(sign, Digits(n, 10)) + Spaces(k)] + more
    ensures
      WithContentLength(core) ==
      if sign.Minus? && 0 < n <= 4_611_686_018_427_387_904 then Bad(NegativeContentLength)
      else if n >= 4_611_686_018_427_387_904 then Bad(BadContentLength)
      else Good(core.(contentLength := n))
  {
    var d := Digits(n, 10);
    var v := Signed(sign, d);
    DigitsValue(n, 10);
    DigitEnds(sign, n);
    ParseSigned(sign, d, n);
    LengthOf(core, v, k, more);
    hide *;
    SignedLength(core, sign, n, ParseInt(v, 10, TWO_62), WithContentLength(core));
  }

  /** A value that is no number is an error. */
  lemma LengthNoNumber(core: Core, sign: Sign, d: Str, k: nat, more: seq<Str>)
    requires !core.chunked && CONTENT_LENGTH in core.header
    requires core.header[CONTENT_LENGTH] == [Signed(sign, d) + Spaces(k)] + more
    requires d != [] && d[0] != 0x2B && d[0] != 0x2D && d[|d| - 1] != SP && exists i :: 0 <= i < |d| && !IsNum(d[i])
    ensures WithContentLength(core) == Bad(BadContentLength)
  {
    var v := Signed(sign, d);
    var i :| 0 <= i < |d| && !IsNum(d[i]);
    assert !IsDigit(d[i], 10);
    MagnitudeExact(d, 10);
    hide Magnitude, WithContentLength, Spaces;
    assert v[|v| - 1] == d[|d| - 1];
    assert sign != Unsigned ==> v[1..] == d;
    LengthOf(core, v, k, more);
  }

  // ---- the request line ----

  /** Of the version in a request line only the first word counts. */
  lemma FirstWordOfVersion(env: Env, core: Core, out: Out, proto: Str, junk: Str)
    requires core.state.ProtoBefore? && core.proto == [] && !out.upgraded && ValidProto(proto) && NoneOf(junk, {CR})
    ensures FeedAll(env, Live(core, [], out), proto + [SP] + junk + [CR]) ==
            match Reject(env, out.cur + [OnProto(proto)])
            case Some(e) => Dead(Rejected(e), Record(out, OnProto(proto)))
            case None => Live(core.(state := ProtoLF), proto + [SP] + junk + [CR], Record(out, OnProto(proto)))
  {
    var m, core1 := Live(core, [], out), core.(state := Proto);
    var core2, w := core1.(proto := proto), proto + [SP] + junk;
    hide FeedAll, Feed, HeaderStep, StatusLineStep, ChunkStep, TrailerStep;
    forall i | 1 <= i < |proto| ensures Stays(env, core1, out, proto[i]) {}
    FeedToken(env, core, [], out, core1, proto, SP);
    forall i | 0 <= i < |junk| ensures Stays(env, core2, out, junk[i]) { VersionByte(env, core2, out, junk[i]); }
    KeepRun(env, core2, proto + [SP], out, junk);
    FeedAllAppend(env, m, proto + [SP], junk);
    FeedAllAppend(env, m, w, [CR]);
    FeedByte(env, core2, w, out, CR);
  }

  lemma VersionByte(env: Env, core: Core, out: Out, c: byte)
    requires core.state.Proto? && core.proto != [] && c != CR
    ensures Stays(env, core, out, c)
  {
  }

  // ---- header fields ----

  predicate NameOrSpace(s: Str) { forall i :: 0 <= i < |s| ==> IsToken(s[i]) || s[i] == SP }

  /** What follows a space in the name of a field, up to the colon, is dropped. */
  lemma FirstWordOfName(env: Env, core: Core, w: Str, out: Out, f: Field, junk: Str)
    requires BetweenFields(core) && !out.upgraded && ValidField(env, f) && NameOrSpace(junk)
    ensures FeedAll(env, Live(core, w, out), f.key + [SP] + junk + [COLON]) ==
            FeedAll(env, Live(core, w, out), f.key + [COLON])
  {
    hide EndOfHeader, IsFraming, Add, Feed, FeedAll;
    var m, core1 := Live(core, w, out), core.(state := HeaderKey, headerExists := true);
    var core2 := core1.(headerKey := Canonical(env, f.key));
    FeedKey(env, core, w, out, f);
    assert IsToken(f.key[0]);
    forall i | 1 <= i < |f.key| ensures Stays(env, core1, out, f.key[i]) { assert IsToken(f.key[i]); }
    FeedToken(env, core, w, out, core1, f.key, SP);
    forall i | 0 <= i < |junk| ensures Stays(env, core2, out, junk[i]) { NameByte(env, core2, out, junk[i]); }
    NameEnd(env, core2, out, f.key + [SP] + junk);
    hide Step, ValidField;
    KeepRun(env, core2, f.key + [SP], out, junk);
    FeedAllAppend(env, m, f.key + [SP], junk);
    FeedAllAppend(env, m, f.key + [SP] + junk, [COLON]);
    FeedByte(env, core2, f.key + [SP] + junk, out, COLON);
  }

  lemma NameByte(env: Env, core: Core, out: Out, c: byte)
    requires core.state.HeaderKey? && core.headerKey != [] && (IsToken(c) || c == SP)
    ensures Stays(env, core, out, c)
  {
    assert !IsToken(COLON);
    hide IsToken;
  }

  lemma NameEnd(env: Env, core: Core, out: Out, w: Str)
    requires core.state.HeaderKey? && core.headerKey != []
    ensures Step(env, core, out, w, COLON) == Ok(core.(state := HeaderValueBefore), out, Next)
  {
  }

  /** Any number of spaces after the colon, and none, is the same as one. */
  lemma SpacesBeforeValue(env: Env, core: Core, w: Str, out: Out, f: Field, k: nat)
    requires BetweenFields(core) && !out.upgraded && ValidField(env, f) && f.value != []
    ensures FeedAll(env, Live(core, w, out), f.key + [COLON] + (Spaces(k) + (f.value + CRLF))) ==
            FeedAll(env, Live(core, w, out), FieldLine(f))
  {
    FieldRoundTrip(env, core, w, out, f);
    FeedKey(env, core, w, out, f);
    var key := Canonical(env, f.key);
    var core1 := core.(state := HeaderValueBefore, headerExists := true, headerKey := key);
    hide Feed, FeedAll, Step, ValidField, FieldLine;
    FeedAllAppend(env, Live(core, w, out), f.key + [COLON], Spaces(k) + (f.value + CRLF));
    FeedAllAppend(env, Live(core1, [], out), Spaces(k), f.value + CRLF);
    forall i | 0 <= i < k ensures Stays(env, core1, out, Spaces(k)[i]) { SpaceByte(env, core1, out); }
    KeepRun(env, core1, [], out, Spaces(k));
    assert [] + Spaces(k) == Spaces(k);
    ValueRead(env, core1, Spaces(k), out, f);
  }

  lemma SpaceByte(env: Env, core: Core, out: Out)
    requires core.state.HeaderValueBefore?
    ensures Stays(env, core, out, SP)
  {
  }

  lemma ValueRead(env: Env, core: Core, w: Str, out: Out, f: Field)
    requires core.state.HeaderValueBefore? && core.headerValue == [] && !out.upgraded && ValidField(env, f)
    requires core.headerKey == Canonical(env, f.key) && f.value != []
    ensures
      FeedAll(env, Live(core, w, out), f.value + CRLF) ==
      Live(core.(state := HeaderKeyBefore, headerKey := [],
                 header := if IsFraming(core.headerKey) then Add(core.header, core.headerKey, f.value)
                           else core.header),
           [], Record(out, OnHeader(core.headerKey, f.value)))
  {
    hide EndOfHeader, IsFraming, Add, IsToken, RequestLineStep, StatusLineStep, ChunkStep, TrailerStep, Feed, FeedAll;
    var core1 := core.(state := HeaderValue);
    forall i | 1 <= i < |f.value| ensures Stays(env, core1, out, f.value[i]) {}
    FeedToken(env, core, w, out, core1, f.value, CR);
    var header := if IsFraming(core.headerKey) then Add(core.header, core.headerKey, f.value) else core.header;
    var core2, out2 := core.(state := HeaderValueLF, headerKey := [], header := header),
                       Record(out, OnHeader(core.headerKey, f.value));
    FeedByte(env, core2, [], out2, LF);
    assert f.value + CRLF == (f.value + [CR]) + [LF];
    FeedAllAppend(env, Live(core, w, out), f.value + [CR], [LF]);
  }
}
