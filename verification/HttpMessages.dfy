/** Whole messages: what a request or a response lays out, the parser reads back. */
module HttpMessages {
  import opened Bytes
  import opened HttpMachine
  import opened FormatInt
  import opened HttpGrammar
  import opened HttpChunked
  import opened HttpPipelining

  // ---- lists of header fields ----

  function FieldLines(fields: seq<Field>): (r: Str)
  {
    if fields == [] then [] else FieldLine(fields[0]) + FieldLines(fields[1..])
  }

  function FieldEvents(env: Env, fields: seq<Field>): (r: seq<Event>)
  {
    seq(|fields|, i requires 0 <= i < |fields| => OnHeader(Canonical(env, fields[i].key), Heard(fields[i].value)))
  }

  function WithFields(env: Env, core: Core, fields: seq<Field>): (r: Core)
    decreases |fields|
  {
    if fields == [] then core else WithFields(env, WithField(env, core, fields[0]), fields[1..])
  }

  lemma {:induction false} FieldsRoundTrip(env: Env, core: Core, w: Str, out: Out, fields: seq<Field>)
    requires BetweenFields(core) && !out.upgraded && ValidFields(env, fields)
    ensures var m := FeedAll(env, Live(core, w, out), FieldLines(fields));
            && m.Live? && m.core == WithFields(env, core, fields) && BetweenFields(m.core)
            && m.out == out.(cur := out.cur + FieldEvents(env, fields))
    decreases |fields|
  {
    hide Step, Feed, FeedAll, FieldLine, ValidField, IsFraming, Add;
    var m := Live(core, w, out);
    if fields == [] {
      FeedNothing(env, m);
      assert out.cur + FieldEvents(env, fields) == out.cur;
    } else {
      var f, rest := fields[0], fields[1..];
      FieldRoundTrip(env, core, w, out, f);
      var out1 := Record(out, OnHeader(Canonical(env, f.key), Heard(f.value)));
      FieldsRoundTrip(env, WithField(env, core, f), [], out1, rest);
      assert out.cur + FieldEvents(env, fields) == out1.cur + FieldEvents(env, rest);
      FeedAllAppend(env, m, FieldLine(f), FieldLines(rest));
    }
  }

  /** The names the fields may not have, because the writer adds them itself. */
  predicate Unframed(env: Env, fields: seq<Field>)
  {
    forall i :: 0 <= i < |fields| ==> !IsFraming(Canonical(env, fields[i].key))
  }

  lemma {:induction false} UnframedFields(env: Env, core: Core, fields: seq<Field>, last: seq<Field>)
    requires Unframed(env, fields)
    ensures WithFields(env, core, fields + last) ==
            WithFields(env, core.(headerExists := core.headerExists || fields != []), last)
    decreases |fields|
  {
    hide IsFraming, Add;
    if fields == [] {
      assert fields + last == last;
      assert core.(headerExists := core.headerExists || fields != []) == core;
    } else {
      assert (fields + last)[0] == fields[0] && (fields + last)[1..] == fields[1..] + last;
      assert !IsFraming(Canonical(env, fields[0].key));
      UnframedFields(env, WithField(env, core, fields[0]), fields[1..], last);
    }
  }

  // ---- the blank line ----

  /** The message body, and the fields that announce it. */
  datatype Body = Empty | Sized(data: Str) | Chunked(chunks: seq<Str>, trailers: seq<Field>)

  function Join(fields: seq<Field>): (r: Str)
    requires fields != []
  {
    if |fields| == 1 then fields[0].key else fields[0].key + [COMMA] + Join(fields[1..])
  }

  function Framing(body: Body): (r: seq<Field>)
  {
    match body
    case Empty => []
    case Sized(data) => [Field(CONTENT_LENGTH, Digits(|data|, 10))]
    case Chunked(_, trailers) =>
      [Field(TRANSFER_ENCODING, CHUNKED)] + if trailers == [] then [] else [Field(TRAILER, Join(trailers))]
  }

  /** What the model assumes of CanonicalHeaderKey and ToLower. */
  predicate StandardLibrary(env: Env)
  {
    && Canonical(env, CONTENT_LENGTH) == CONTENT_LENGTH
    && Canonical(env, TRANSFER_ENCODING) == TRANSFER_ENCODING
    && Canonical(env, TRAILER) == TRAILER
    && ToLower(env, CHUNKED) == CHUNKED
  }

  predicate ValidBody(env: Env, body: Body)
  {
    match body
    case Empty => true
    case Sized(data) => |data| < TWO_62
    case Chunked(chunks, trailers) =>
      Sizes(chunks) && ValidFields(env, trailers) && Unframed(env, trailers)
  }

  /** A chunked body is read to its end if its trailer fields fit their own announcement. */
  predicate Readable(env: Env, body: Body)
  {
    body.Chunked? ==> Fitting(env, Names(env, body.trailers), body.trailers)
  }

  function AnnouncedLength(body: Body): (n: int)
  {
    if body.Sized? then |body.data| else -1
  }

  /** The fields once the framing headers have been read. */
  function Framed(env: Env, core: Core, body: Body): (r: Core)
  {
    core.(contentLength := AnnouncedLength(body), chunked := body.Chunked?, state := HeaderOverLF,
          trailer := if body.Chunked? then Names(env, body.trailers) else {})
  }

  lemma FramingKeys()
    ensures forall i :: 0 <= i < |CONTENT_LENGTH| ==> IsToken(CONTENT_LENGTH[i])
    ensures forall i :: 0 <= i < |TRANSFER_ENCODING| ==> IsToken(TRANSFER_ENCODING[i])
    ensures forall i :: 0 <= i < |TRAILER| ==> IsToken(TRAILER[i])
    ensures CHUNKED[0] != SP && NoneOf(CHUNKED, {CR, LF})
  {
  }

  lemma {:induction false} JoinValid(env: Env, fields: seq<Field>)
    requires fields != [] && ValidFields(env, fields)
    ensures Join(fields) != []
    ensures forall i :: 0 <= i < |Join(fields)| ==> IsToken(Join(fields)[i]) || Join(fields)[i] == COMMA
    ensures IsToken(Join(fields)[0]) && IsToken(Join(fields)[|Join(fields)| - 1])
    decreases |fields|
  {
    hide IsToken;
    assert ValidField(env, fields[0]);
    if |fields| > 1 { JoinValid(env, fields[1..]); }
  }

  /** The framing fields are valid header fields. */
  lemma FramingValid(env: Env, body: Body)
    requires StandardLibrary(env) && ValidBody(env, body)
    ensures ValidFields(env, Framing(body))
  {
    FramingKeys();
    match body {
      case Empty =>
      case Sized(data) =>
        DecimalDigits(|data|);
        hide Digits;
        var d := Digits(|data|, 10);
        assert forall i :: 0 <= i < |d| ==> d[i] !in {CR, LF};
      case Chunked(_, trailers) =>
        if trailers != [] {
          JoinValid(env, trailers);
          var j := Join(trailers);
          hide Join;
          assert forall i :: 0 <= i < |j| ==> j[i] !in {CR, LF};
        }
    }
  }

  function Keys(fields: seq<Field>): (r: seq<Str>)
  {
    seq(|fields|, i requires 0 <= i < |fields| => fields[i].key)
  }

  lemma SplitAfter(key: Str, rest: Str)
    requires COMMA !in key
    ensures Split(key + [COMMA] + rest) == [key] + Split(rest)
  {
    var whole := key + [COMMA] + rest;
    assert whole[|key|] == COMMA;
    var k := CommaAt(whole);
    hide CommaAt;
    assert forall j :: 0 <= j < |key| ==> whole[j] == key[j];
    assert forall j :: 0 <= j < k ==> whole[..k][j] == whole[j];
    assert k == |key|;
    assert whole[..k] == key && whole[k + 1..] == rest;
  }

  lemma NoComma(env: Env, f: Field)
    requires ValidField(env, f)
    ensures COMMA !in f.key
  {
    assert !IsToken(COMMA);
  }

  /** The announced names come apart at the commas. */
  lemma {:induction false} SplitJoin(env: Env, fields: seq<Field>)
    requires fields != [] && ValidFields(env, fields)
    ensures Split(Join(fields)) == Keys(fields)
    decreases |fields|
  {
    NoComma(env, fields[0]);
    KeysCons(fields);
    if |fields| > 1 {
      SplitAfter(fields[0].key, Join(fields[1..]));
      SplitJoin(env, fields[1..]);
    }
    hide Split, Keys, ValidFields, ValidField;
  }

  lemma KeysCons(fields: seq<Field>)
    requires fields != []
    ensures Keys(fields) == [fields[0].key] + Keys(fields[1..])
  {
  }

  lemma TrimToken(s: Str)
    requires s != [] && IsToken(s[0]) && IsToken(s[|s| - 1])
    ensures Trim(s) == s
  {
  }

  lemma {:induction false} KeysNamed(env: Env, fields: seq<Field>)
    requires ValidFields(env, fields) && Unframed(env, fields)
    ensures TrailerNames(env, Keys(fields)) == Good(Names(env, fields))
    decreases |fields|
  {
    hide Split, Trim;
    if fields == [] {
      assert Keys(fields) == [] && Names(env, fields) == {};
    } else {
      var n := |fields| - 1;
      var before, f := fields[..n], fields[n];
      assert Keys(fields)[..n] == Keys(before);
      KeysNamed(env, before);
      assert ValidField(env, f);
      TrimToken(f.key);
      assert fields == before + [f];
      assert Names(env, fields) == Names(env, before) + {Canonical(env, f.key)};
    }
  }

  /** parseTrailer finds exactly the announced names. */
  lemma Announced(env: Env, fields: seq<Field>)
    requires fields != [] && ValidFields(env, fields) && Unframed(env, fields)
    ensures TrailerSet(env, [Join(fields)]) == Good(Names(env, fields))
  {
    hide Split, Trim, Names, TrailerNames;
    JoinValid(env, fields);
    TrimToken(Join(fields));
    SplitJoin(env, fields);
    KeysNamed(env, fields);
    assert [Join(fields)][..0] == [];
    assert {} + Names(env, fields) == Names(env, fields);
  }

  /** The blank line: the length, the coding and the trailer names are those of the body. */
  lemma FramingRead(env: Env, core: Core, out: Out, body: Body)
    requires StandardLibrary(env) && ValidBody(env, body)
    requires BetweenFields(core) && core.header == map[] && !core.chunked && core.trailer == {}
    ensures var o := EndOfHeader(env, WithFields(env, core, Framing(body)), out);
            && o.Ok? && o.mark.Next? && o.out == Record(out, OnContentLength(AnnouncedLength(body)))
            && o.core == Framed(env, WithFields(env, core, Framing(body)), body).(header := o.core.header)
  {
    match body {
      case Empty =>
      case Sized(data) =>
        LengthRead(env, core, out, data);
      case Chunked(_, trailers) =>
        if trailers == [] {
          assert Names(env, trailers) == {};
          CodingRead(env, core, out);
        } else {
          Announced(env, trailers);
          JoinValid(env, trailers);
          assert Canonical(env, trailers[0].key) in Names(env, trailers);
          hide Names, Join;
          TrailerRead(env, core, out, Join(trailers), Names(env, trailers));
        }
    }
  }

  lemma OneField(env: Env, core: Core, f: Field)
    requires Canonical(env, f.key) == f.key && IsFraming(f.key) && core.header == map[] && f.value != []
    ensures WithFields(env, core, [f]) == core.(headerExists := true, header := map[f.key := [f.value]])
  {
    hide IsFraming;
    assert [f][1..] == [];
    assert [] + [f.value] == [f.value];
    assert Add(map[], f.key, f.value) == map[f.key := [f.value]];
    assert WithFields(env, WithField(env, core, f), []) == WithField(env, core, f);
  }

  lemma TwoFields(env: Env, core: Core, f: Field, g: Field)
    requires Canonical(env, f.key) == f.key && IsFraming(f.key) && core.header == map[] && f.value != []
    requires Canonical(env, g.key) == g.key && IsFraming(g.key) && g.key != f.key && g.value != []
    ensures WithFields(env, core, [f] + [g]) ==
            core.(headerExists := true, header := map[f.key := [f.value], g.key := [g.value]])
  {
    hide IsFraming;
    assert ([f] + [g])[0] == f && ([f] + [g])[1..] == [g] && [g][1..] == [];
    var c1 := WithField(env, core, f);
    var c2 := WithField(env, c1, g);
    assert WithFields(env, c2, []) == c2 && WithFields(env, c1, [g]) == c2;
    assert [] + [f.value] == [f.value];
    assert Add(map[], f.key, f.value) == map[f.key := [f.value]];
    assert [] + [g.value] == [g.value];
    assert Add(map[f.key := [f.value]], g.key, g.value) == map[f.key := [f.value], g.key := [g.value]];
  }

  lemma LengthRead(env: Env, core: Core, out: Out, data: Str)
    requires StandardLibrary(env) && |data| < TWO_62
    requires BetweenFields(core) && core.header == map[] && !core.chunked && core.trailer == {}
    ensures var c := WithFields(env, core, [Field(CONTENT_LENGTH, Digits(|data|, 10))]);
            EndOfHeader(env, c, out) ==
              Ok(c.(contentLength := |data|, state := HeaderOverLF), Record(out, OnContentLength(|data|)), Next)
  {
    ParseFormat(|data|, 10, TWO_62);
    hide Digits, ParseInt, TrimLength, WithFields;
    var f := Field(CONTENT_LENGTH, Digits(|data|, 10));
    OneField(env, core, f);
    LengthOnly(env, WithFields(env, core, [f]), out, f.value, |data|);
  }

  lemma LengthOnly(env: Env, c: Core, out: Out, d: Str, n: nat)
    requires c.header == map[CONTENT_LENGTH := [d]] && !c.chunked && d != []
    requires ParseInt(TrimLength(d), 10, TWO_62) == Some(n)
    ensures EndOfHeader(env, c, out) ==
            Ok(c.(contentLength := n, state := HeaderOverLF), Record(out, OnContentLength(n)), Next)
  {
    hide ParseInt, TrimLength;
    assert First(c.header, CONTENT_LENGTH) == d;
  }

  lemma CodingRead(env: Env, core: Core, out: Out)
    requires StandardLibrary(env)
    requires BetweenFields(core) && core.header == map[] && !core.chunked && core.trailer == {}
    ensures var c := WithFields(env, core, [Field(TRANSFER_ENCODING, CHUNKED)] + []);
            var o := EndOfHeader(env, c, out);
            && o.Ok? && o.mark.Next? && o.out == Record(out, OnContentLength(-1))
            && o.core == c.(chunked := true, contentLength := -1, state := HeaderOverLF, header := o.core.header)
  {
    var f := Field(TRANSFER_ENCODING, CHUNKED);
    assert [f] + [] == [f];
    assert WithFields(env, core, [f]) == WithField(env, core, f);
    assert Trim(CHUNKED) == CHUNKED;
  }

  lemma TrailerRead(env: Env, core: Core, out: Out, list: Str, names: set<Str>)
    requires StandardLibrary(env) && TrailerSet(env, [list]) == Good(names) && names != {} && list != []
    requires BetweenFields(core) && core.header == map[] && !core.chunked && core.trailer == {}
    ensures var c := WithFields(env, core, [Field(TRANSFER_ENCODING, CHUNKED)] + [Field(TRAILER, list)]);
            var o := EndOfHeader(env, c, out);
            && o.Ok? && o.mark.Next? && o.out == Record(out, OnContentLength(-1))
            && o.core == c.(chunked := true, contentLength := -1, trailer := names, state := HeaderOverLF,
                            header := o.core.header)
  {
    hide TrailerSet, WithFields;
    var f, g := Field(TRANSFER_ENCODING, CHUNKED), Field(TRAILER, list);
    TwoFields(env, core, f, g);
    assert Trim(CHUNKED) == CHUNKED;
    TrailerOnly(env, WithFields(env, core, [f] + [g]), out, list, names);
  }

  lemma TrailerOnly(env: Env, c: Core, out: Out, list: Str, names: set<Str>)
    requires c.header == map[TRANSFER_ENCODING := [CHUNKED], TRAILER := [list]] && !c.chunked && c.trailer == {}
    requires StandardLibrary(env) && Trim(CHUNKED) == CHUNKED
    requires TrailerSet(env, [list]) == Good(names) && names != {}
    ensures var o := EndOfHeader(env, c, out);
            && o.Ok? && o.mark.Next? && o.out == Record(out, OnContentLength(-1))
            && o.core == c.(chunked := true, contentLength := -1, trailer := names, state := HeaderOverLF,
                            header := o.core.header)
  {
    hide TrailerSet, Trim;
    var h := c.header - {TRANSFER_ENCODING} - {CONTENT_LENGTH};
    assert TRAILER in h && h[TRAILER] == [list] && CONTENT_LENGTH !in h;
  }

  // ---- the message ----

  function Content(body: Body): (r: Str)
  {
    match body
    case Empty => []
    case Sized(data) => data
    case Chunked(chunks, trailers) => ChunkedBody(chunks, trailers)
  }

  function ContentEvents(env: Env, body: Body): (r: seq<Event>)
  {
    match body
    case Empty => []
    case Sized(data) => if data == [] then [] else [OnBody(data)]
    case Chunked(chunks, trailers) => ChunkedEvents(env, chunks, trailers)
  }

  function AfterBlank(env: Env, core: Core, out: Out): (m: Machine)
  {
    var core' := core.(headerExists := false);
    if core.chunked then Live(core'.(state := ChunkSizeBefore), [], out)
    else if core.contentLength > 0 then Live(core'.(state := BodyContentLength), [], out)
    else Live(Reset(core'), [], Finish(env, out))
  }

  lemma BlankLine(env: Env, core: Core, w: Str, out: Out)
    requires core.state.HeaderKeyBefore? && !out.upgraded
    requires EndOfHeader(env, core, out).Ok?
    ensures var o := EndOfHeader(env, core, out);
            FeedAll(env, Live(core, w, out), CRLF) == AfterBlank(env, o.core, o.out)
  {
    hide Feed, FeedAll, Finish, Reset, WithTransferEncoding, WithContentLength, WithTrailer;
    var o := EndOfHeader(env, core, out);
    assert Step(env, core, out, w, CR) == o;
    assert Land(Step(env, o.core, o.out, [], LF), [], LF) == AfterBlank(env, o.core, o.out);
    hide Step, EndOfHeader;
    FeedByte(env, core, w, out, CR);
    FeedByte(env, o.core, [], o.out, LF);
    assert CRLF == [CR] + [LF];
    FeedAllAppend(env, Live(core, w, out), [CR], [LF]);
  }

  /** The body after the blank line is read if and only if it is readable; then it is delivered and ends
      the message. */
  lemma ContentRoundTrip(env: Env, core: Core, out: Out, body: Body)
    requires core.state.HeaderOverLF? && core.headerKey == [] && core.headerValue == [] && !out.upgraded
    requires core == Framed(env, core, body) && ValidBody(env, body)
    requires AcceptsFrom(env, out.cur, ContentEvents(env, body))
    ensures var m := FeedAll(env, AfterBlank(env, core, out), Content(body));
            && (m.Live? <==> Readable(env, body))
            && (m.Live? ==>
                  && m.pending == []
                  && m.out == Finish(env, out.(cur := out.cur + ContentEvents(env, body)))
                  && m.core == Reset(core).(headerExists := false, chunkSize := m.core.chunkSize))
  {
    hide Feed, FeedAll, Finish, ChunkedBody, ChunkedEvents, Fitting;
    var m := AfterBlank(env, core, out);
    match body {
      case Empty =>
        FeedNothing(env, m);
        assert out.cur + [] == out.cur;
      case Sized(data) =>
        if data == [] {
          FeedNothing(env, m);
          assert out.cur + [] == out.cur;
        } else {
          assert ContentEvents(env, body)[..1] == [OnBody(data)];
          BodyBytes(env, m, data);
          assert [] + data == data;
        }
      case Chunked(chunks, trailers) =>
        ChunksAccepted(env, out.cur, chunks, trailers);
        ChunkedRoundTrip(env, core.(headerExists := false, state := ChunkSizeBefore), out, chunks, trailers);
    }
  }

  lemma ChunksAccepted(env: Env, cur: seq<Event>, chunks: seq<Str>, trailers: seq<Field>)
    requires AcceptsFrom(env, cur, ChunkedEvents(env, chunks, trailers))
    ensures AcceptsFrom(env, cur, BodyEvents(chunks))
  {
    var all, some := ChunkedEvents(env, chunks, trailers), BodyEvents(chunks);
    forall k | 0 <= k <= |some| ensures Accepts(env, cur + some[..k]) {
      assert some[..k] == all[..k];
    }
  }

  /** Everything after the first line. */
  function Rest(fields: seq<Field>, body: Body): (r: Str)
  {
    FieldLines(fields + Framing(body)) + CRLF + Content(body)
  }

  function HeadEvents(env: Env, fields: seq<Field>, body: Body): (r: seq<Event>)
  {
    FieldEvents(env, fields + Framing(body)) + [OnContentLength(AnnouncedLength(body))]
  }

  function RestEvents(env: Env, fields: seq<Field>, body: Body): (r: seq<Event>)
  {
    HeadEvents(env, fields, body) + ContentEvents(env, body)
  }

  predicate ValidRest(env: Env, fields: seq<Field>, body: Body)
  {
    StandardLibrary(env) && ValidFields(env, fields) && Unframed(env, fields) && ValidBody(env, body)
  }

  lemma RestRoundTrip(env: Env, core: Core, w: Str, out: Out, fields: seq<Field>, body: Body)
    requires BetweenFields(core) && core.header == map[] && !core.chunked && core.trailer == {} && !out.upgraded
    requires ValidRest(env, fields, body)
    requires AcceptsFrom(env, out.cur + HeadEvents(env, fields, body), ContentEvents(env, body))
    ensures var m := FeedAll(env, Live(core, w, out), Rest(fields, body));
            && (m.Live? <==> Readable(env, body))
            && (m.Live? ==>
                  && m.pending == []
                  && m.out == Finish(env, out.(cur := out.cur + RestEvents(env, fields, body)))
                  && m.core == Reset(core).(headerExists := false, chunkSize := m.core.chunkSize,
                                            contentLength := m.core.contentLength))
  {
    hide Step, Feed, FeedAll, Finish, FieldLines, FieldEvents, Content, ContentEvents, Framing,
         ValidBody, AcceptsFrom, EndOfHeader, AfterBlank, StandardLibrary, WithFields, Readable;
    var m, all := Live(core, w, out), fields + Framing(body);
    FramingValid(env, body);
    FieldsRoundTrip(env, core, w, out, all);
    var m1 := FeedAll(env, m, FieldLines(all));
    var core1 := core.(headerExists := core.headerExists || fields != []);
    UnframedFields(env, core, fields, Framing(body));
    FramingRead(env, core1, m1.out, body);
    FramingKeepsCore(env, core1, Framing(body));
    BlankLine(env, m1.core, m1.pending, m1.out);
    var o := EndOfHeader(env, m1.core, m1.out);
    FeedAllAppend(env, m, FieldLines(all), CRLF);
    assert o.out.cur == out.cur + HeadEvents(env, fields, body);
    ContentRoundTrip(env, o.core, o.out, body);
    FeedAllAppend(env, m, FieldLines(all) + CRLF, Content(body));
    assert out.cur + RestEvents(env, fields, body) == o.out.cur + ContentEvents(env, body);
  }

  lemma {:induction false} FramingKeepsCore(env: Env, core: Core, fields: seq<Field>)
    ensures var c := WithFields(env, core, fields);
            c == core.(headerExists := c.headerExists, header := c.header)
    decreases |fields|
  {
    hide IsFraming, Add;
    if fields != [] { FramingKeepsCore(env, WithField(env, core, fields[0]), fields[1..]); }
  }

  /** Every valid request is read to its end if and only if its body is readable; then it is delivered
      and leaves the parser as it was: with SegmentationInvisible, from any cut of its bytes. */
  lemma RequestRoundTrip(env: Env, verb: Str, uri: Str, proto: Str, fields: seq<Field>, body: Body)
    requires ValidVerb(env, verb) && ValidURI(uri) && ValidProto(proto) && ValidRest(env, fields, body)
    requires AcceptsAll(env, RequestLineEvents(env, verb, uri, proto) + RestEvents(env, fields, body))
    ensures var m := FeedAll(env, Fresh(false), RequestLine(verb, uri, proto) + Rest(fields, body));
            var events := RequestLineEvents(env, verb, uri, proto) + RestEvents(env, fields, body) + [OnComplete];
            && (m.Live? <==> Readable(env, body))
            && (m.Live? ==>
                  && m.pending == [] && Same(FreshCore(false), m.core)
                  && m.out == Out([events], [], Upgrades(env, events), []))
  {
    hide Step, Feed, FeedAll, RequestLine, Rest, ValidVerb, ValidURI, ValidProto, ValidRest, AcceptsAll,
         AcceptsFrom, RequestLineEvents, HeadEvents, ContentEvents, Readable;
    var first, line := RequestLineEvents(env, verb, uri, proto), RequestLine(verb, uri, proto);
    var head, content := HeadEvents(env, fields, body), ContentEvents(env, body);
    var core := FreshCore(false).(state := HeaderKeyBefore);
    AcceptedParts(env, first, head, content);
    RequestLineRoundTrip(env, FreshCore(false), NOTHING, verb, uri, proto);
    RestRoundTrip(env, core, [], NOTHING.(cur := first), fields, body);
    FeedAllAppend(env, Fresh(false), line, Rest(fields, body));
  }

  lemma AcceptedParts(env: Env, first: seq<Event>, head: seq<Event>, content: seq<Event>)
    requires AcceptsAll(env, first + (head + content))
    ensures AcceptsAll(env, first) && AcceptsFrom(env, first + head, content)
  {
    var all := first + (head + content);
    forall k | 0 <= k <= |first| ensures Accepts(env, first[..k]) { assert first[..k] == all[..k]; }
    forall k | 0 <= k <= |content| ensures Accepts(env, first + head + content[..k]) {
      assert first + head + content[..k] == all[..|first| + |head| + k];
    }
  }

  /** What is heard of a reason phrase: the word that starts at its first letter. */
  function HeardReason(reason: Str): (r: Str) { FirstWord(reason[Skipped(reason)..]) }

  /** Every response, whatever its reason phrase. Without a letter or a space in it, the rest of the
      response is read as if it were the reason; with a space before the first letter it is an error;
      otherwise it is read to its end if and only if its body is readable, and then delivered. */
  lemma ResponseRoundTrip(env: Env, proto: Str, code: nat, reason: Str, fields: seq<Field>, body: Body)
    requires proto != [] && proto[0] == 0x48 && NoneOf(proto, {SP}) && code < TWO_63 && NoneOf(reason, {CR})
    requires ValidRest(env, fields, body)
    requires AcceptsAll(env, [OnProto(proto), OnStatus(code, HeardReason(reason))] + RestEvents(env, fields, body))
    ensures var m := FeedAll(env, Fresh(true), StatusLine(proto, code, reason) + Rest(fields, body));
            var k := Skipped(reason);
            var events := [OnProto(proto), OnStatus(code, HeardReason(reason))] +
                          RestEvents(env, fields, body) + [OnComplete];
            if k == |reason| then
              m == FeedAll(env, Awaiting(FreshCore(true), NOTHING, proto, code,
                                         Digits(code, 10) + [SP] + reason + CRLF), Rest(fields, body))
            else if reason[k] == SP then m == Dead(InvalidStatus, Record(NOTHING, OnProto(proto)))
            else
              && (m.Live? <==> Readable(env, body))
              && (m.Live? ==>
                    && m.pending == [] && Same(FreshCore(true), m.core)
                    && m.out == Out([events], [], Upgrades(env, events), []))
  {
    hide Step, Feed, FeedAll, StatusLine, Rest, ValidRest, AcceptsFrom, HeadEvents, ContentEvents,
         FirstWord, Readable, Skipped, Digits;
    var first, k := [OnProto(proto), OnStatus(code, HeardReason(reason))], Skipped(reason);
    var head, content := HeadEvents(env, fields, body), ContentEvents(env, body);
    var core := FreshCore(true).(state := HeaderKeyBefore);
    AcceptedParts(env, first, head, content);
    assert NOTHING.cur + [OnProto(proto)] == first[..1];
    StatusLineRoundTrip(env, FreshCore(true), NOTHING, proto, code, reason);
    FeedAllAppend(env, Fresh(true), StatusLine(proto, code, reason), Rest(fields, body));
    if k < |reason| {
      if reason[k] == SP {
        DeadStays(env, Dead(InvalidStatus, Record(NOTHING, OnProto(proto))), Rest(fields, body));
      } else {
        assert Record(Record(NOTHING, OnProto(proto)), OnStatus(code, HeardReason(reason))) == NOTHING.(cur := first);
        RestRoundTrip(env, core, reason[k..] + CRLF, NOTHING.(cur := first), fields, body);
      }
    }
  }

  /** A response without a length, whose body ends with the connection (section 6.3 of RFC 9112): the
      message is delivered without a body, and the body is read as the next response. */
  lemma BodyUntilClose(env: Env, proto: Str, code: nat, reason: Str, fields: seq<Field>, data: Str)
    requires proto != [] && proto[0] == 0x48 && NoneOf(proto, {SP}) && code < TWO_63 && ValidReason(reason)
    requires ValidRest(env, fields, Empty) && data != [] && data[0] != 0x48
    requires AcceptsAll(env, [OnProto(proto), OnStatus(code, FirstWord(reason))] + RestEvents(env, fields, Empty))
    requires !Upgrades(env, [OnProto(proto), OnStatus(code, FirstWord(reason))] +
                            RestEvents(env, fields, Empty) + [OnComplete])
    ensures var events := [OnProto(proto), OnStatus(code, FirstWord(reason))] +
                          RestEvents(env, fields, Empty) + [OnComplete];
            FeedAll(env, Fresh(true), StatusLine(proto, code, reason) + Rest(fields, Empty) + data) ==
            Dead(InvalidMethod, Out([events], [], false, []))
  {
    LetterFirst(reason);
    hide FeedAll, Feed, StatusLine, Rest, RestEvents, ValidRest, AcceptsAll, Upgrades, FirstWord, Digits;
    ResponseRoundTrip(env, proto, code, reason, fields, Empty);
    var head := StatusLine(proto, code, reason) + Rest(fields, Empty);
    var m := FeedAll(env, Fresh(true), head);
    FeedAllAppend(env, Fresh(true), head, data);
    NoVersion(env, m.core, m.out, data);
  }

  lemma LetterFirst(reason: Str)
    requires ValidReason(reason)
    ensures Skipped(reason) == 0 && HeardReason(reason) == FirstWord(reason) && reason[0] != SP
  {
    assert reason[0..] == reason;
  }

  lemma NoVersion(env: Env, core: Core, out: Out, data: Str)
    requires core.state.ClientProtoBefore? && !out.upgraded && data != [] && data[0] != 0x48
    ensures FeedAll(env, Live(core, [], out), data) == Dead(InvalidMethod, out)
  {
    FeedFail(env, core, [], out, data, InvalidMethod);
  }
}
