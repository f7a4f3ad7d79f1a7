/** The chunked transfer coding: chunk sizes printed by the response writer, chunk
    data, the last chunk and the trailer fields (section 7.1 of RFC 9112). */
module HttpChunked {
  import opened Bytes
  import opened HttpMachine
  import opened FormatInt
  import opened HttpGrammar

  // ---- one chunk ----

  function Chunk(data: Str): (r: Str)
  {
    (Digits(|data|, 16) + CRLF) + data + CRLF
  }

  lemma SizeStart(env: Env, core: Core, w: Str, out: Out, c: byte)
    requires core.state.ChunkSizeBefore? && IsHex(c)
    ensures Step(env, core, out, w, c) == Ok(core.(chunkSize := -1, state := ChunkSize), out, Here)
  {
  }

  lemma SizeByte(env: Env, core: Core, out: Out, c: byte)
    requires core.state.ChunkSize? && IsHex(c)
    ensures Stays(env, core, out, c)
  {
  }

  lemma SizeEnd(env: Env, core: Core, out: Out, n: nat)
    requires core.state.ChunkSize? && core.chunkSize < 0 && n < TWO_62
    ensures Step(env, core, out, Digits(n, 16), CR) == Ok(core.(chunkSize := n, state := ChunkSizeLF), out, Next)
  {
    ParseFormat(n, 16, TWO_62);
    assert ParseChunkSize(Digits(n, 16)) == Good(n);
    hide Digits, ParseInt, ParseChunkSize, RequestLineStep, StatusLineStep, HeaderStep, TrailerStep, IsHex;
  }

  function AfterSize(core: Core, n: nat): (s: State)
  {
    if n > 0 then ChunkData else if core.trailer != {} then TrailerKeyBefore else TailCR
  }

  lemma SizeLF(env: Env, core: Core, out: Out, w: Str)
    requires core.state.ChunkSizeLF? && 0 <= core.chunkSize
    ensures Step(env, core, out, w, LF) == Ok(core.(state := AfterSize(core, core.chunkSize)), out, Next)
  {
  }

  /** The size line that the printer lays out is read back. */
  lemma FeedSize(env: Env, core: Core, w: Str, out: Out, n: nat)
    requires core.state.ChunkSizeBefore? && !out.upgraded && n < TWO_62
    ensures FeedAll(env, Live(core, w, out), Digits(n, 16) + CRLF) ==
            Live(core.(chunkSize := n, state := AfterSize(core, n)), [], out)
  {
    hide Step, Feed, FeedAll, Digits;
    var s, m := Digits(n, 16), Live(core, w, out);
    var core1 := core.(chunkSize := -1, state := ChunkSize);
    DigitsHex(n, 16);
    SizeStart(env, core, w, out, s[0]);
    forall i | 1 <= i < |s| ensures Stays(env, core1, out, s[i]) { SizeByte(env, core1, out, s[i]); }
    FeedToken(env, core, w, out, core1, s, CR);
    SizeEnd(env, core1, out, n);
    var core2 := core1.(chunkSize := n, state := ChunkSizeLF);
    SizeLF(env, core2, out, []);
    FeedByte(env, core2, [], out, LF);
    assert s + CRLF == (s + [CR]) + [LF];
    FeedAllAppend(env, m, s + [CR], [LF]);
  }

  lemma FeedChunkEnd(env: Env, core: Core, out: Out)
    requires core.state.ChunkDataCR? && !out.upgraded
    ensures FeedAll(env, Live(core, [], out), CRLF) == Live(core.(state := ChunkSizeBefore), CRLF, out)
  {
    hide Feed, FeedAll;
    var core1 := core.(state := ChunkDataLF);
    assert Step(env, core, out, [], CR) == Ok(core1, out, Keep);
    assert Step(env, core1, out, [CR], LF) == Ok(core1.(state := ChunkSizeBefore), out, Keep);
    hide Step;
    FeedByte(env, core, [], out, CR);
    assert [] + [CR] == [CR];
    FeedByte(env, core1, [CR], out, LF);
    assert CRLF == [CR] + [LF];
    FeedAllAppend(env, Live(core, [], out), [CR], [LF]);
  }

  lemma ChunkRoundTrip(env: Env, core: Core, w: Str, out: Out, data: Str)
    requires core.state.ChunkSizeBefore? && !out.upgraded && 0 < |data| < TWO_62
    requires Accepts(env, out.cur + [OnBody(data)])
    ensures FeedAll(env, Live(core, w, out), Chunk(data)) ==
            Live(core.(chunkSize := |data|), CRLF, Record(out, OnBody(data)))
  {
    hide Step, Feed, FeedAll, Digits;
    var m, core1 := Live(core, w, out), core.(chunkSize := |data|, state := ChunkData);
    var size := Digits(|data|, 16) + CRLF;
    FeedSize(env, core, w, out, |data|);
    BodyBytes(env, Live(core1, [], out), data);
    assert [] + data == data;
    var core2, out2 := core1.(state := ChunkDataCR), Record(out, OnBody(data));
    FeedChunkEnd(env, core2, out2);
    FeedAllAppend(env, m, size, data);
    FeedAllAppend(env, m, size + data, CRLF);
  }

  // ---- all chunks ----

  function ChunkList(chunks: seq<Str>): (r: Str)
  {
    if chunks == [] then [] else ChunkList(chunks[..|chunks| - 1]) + Chunk(chunks[|chunks| - 1])
  }

  function BodyEvents(chunks: seq<Str>): (r: seq<Event>)
  {
    seq(|chunks|, i requires 0 <= i < |chunks| => OnBody(chunks[i]))
  }

  predicate Sizes(chunks: seq<Str>) { forall i :: 0 <= i < |chunks| ==> 0 < |chunks[i]| < TWO_62 }

  /** The accepted prefixes that matter from one point of a message on. */
  ghost predicate AcceptsFrom(env: Env, cur: seq<Event>, more: seq<Event>)
  {
    forall k :: 0 <= k <= |more| ==> Accepts(env, cur + more[..k])
  }

  lemma {:induction false} ChunksRoundTrip(env: Env, core: Core, out: Out, chunks: seq<Str>)
    requires core.state.ChunkSizeBefore? && !out.upgraded && Sizes(chunks)
    requires AcceptsFrom(env, out.cur, BodyEvents(chunks))
    ensures var m := FeedAll(env, Live(core, [], out), ChunkList(chunks));
            && m.Live? && m.out == out.(cur := out.cur + BodyEvents(chunks))
            && m.core == core.(chunkSize := m.core.chunkSize)
  {
    hide Feed, FeedAll, Chunk;
    var m := Live(core, [], out);
    if chunks == [] {
      FeedNothing(env, m);
      assert out.cur + BodyEvents(chunks) == out.cur;
    } else {
      var k := |chunks| - 1;
      var ev := BodyEvents(chunks);
      assert BodyEvents(chunks[..k]) == ev[..k];
      forall j | 0 <= j <= k ensures Accepts(env, out.cur + ev[..k][..j]) {
        assert ev[..k][..j] == ev[..j];
      }
      ChunksRoundTrip(env, core, out, chunks[..k]);
      var mk := FeedAll(env, m, ChunkList(chunks[..k]));
      assert out.cur + ev[..k] + [OnBody(chunks[k])] == out.cur + ev[..k + 1];
      assert ev[..k + 1] == ev;
      ChunkRoundTrip(env, mk.core, mk.pending, mk.out, chunks[k]);
      FeedAllAppend(env, m, ChunkList(chunks[..k]), Chunk(chunks[k]));
    }
  }

  // ---- the last chunk and the trailer ----

  lemma LastChunk(env: Env, core: Core, w: Str, out: Out)
    requires core.state.ChunkSizeBefore? && !out.upgraded
    ensures FeedAll(env, Live(core, w, out), Digits(0, 16) + CRLF) ==
            Live(core.(chunkSize := 0, state := if core.trailer != {} then TrailerKeyBefore else TailCR), [], out)
  {
    FeedSize(env, core, w, out, 0);
  }

  lemma FeedTail(env: Env, core: Core, out: Out)
    requires core.state.TailCR? && !out.upgraded
    ensures FeedAll(env, Live(core, [], out), CRLF) == Live(Reset(core), [], Finish(env, out))
  {
    hide Feed, FeedAll, Finish;
    var core1 := core.(state := TailLF);
    assert Step(env, core, out, [], CR) == Ok(core1, out, Keep);
    assert Step(env, core1, out, [CR], LF) == Ok(Reset(core1), Finish(env, out), Next);
    hide Step;
    FeedByte(env, core, [], out, CR);
    assert [] + [CR] == [CR];
    FeedByte(env, core1, [CR], out, LF);
    assert CRLF == [CR] + [LF];
    FeedAllAppend(env, Live(core, [], out), [CR], [LF]);
  }

  /** Between two trailer fields. */
  predicate BetweenTrailers(core: Core)
  {
    core.state.TrailerKeyBefore? && core.headerKey == [] && core.headerValue == []
  }

  lemma TrailerKeySteps(env: Env, core: Core, w: Str, out: Out, f: Field)
    requires BetweenTrailers(core) && !out.upgraded && ValidField(env, f)
    ensures FeedAll(env, Live(core, w, out), f.key + [COLON]) ==
            Live(core.(state := TrailerValueBefore, headerKey := Canonical(env, f.key)), [], out)
  {
    hide FeedAll, Feed;
    var core1 := core.(state := TrailerKey);
    assert IsToken(f.key[0]);
    forall i | 1 <= i < |f.key| ensures Stays(env, core1, out, f.key[i]) { assert IsToken(f.key[i]); }
    FeedToken(env, core, w, out, core1, f.key, COLON);
  }

  lemma TrailerByte(env: Env, core: Core, out: Out, w: Str, c: byte)
    requires core.state.TrailerValue? && c != CR
    ensures Step(env, core, out, w, c) ==
            Ok(core.(headerValue := if c == SP then OrElse(core.headerValue, w) else core.headerValue), out, Keep)
  {
  }

  /** Inside a trailer value: as in a reason phrase, the first space fixes what is kept. */
  lemma {:induction false} FeedTrailerValue(env: Env, core: Core, w: Str, out: Out, s: Str)
    requires core.state.TrailerValue? && !out.upgraded && w != [] && NoneOf(s, {CR, LF})
    ensures FeedAll(env, Live(core, w, out), s) ==
            Live(core.(headerValue := if core.headerValue == [] && SP in s then w + FirstWord(s) else core.headerValue),
                 w + s, out)
    decreases |s|
  {
    WordStep(w, s);
    hide Step, Feed, FeedAll, FirstWord;
    if s == [] {
      FeedNothing(env, Live(core, w, out));
    } else {
      assert s == [s[0]] + s[1..];
      TrailerByte(env, core, out, w, s[0]);
      FeedByte(env, core, w, out, s[0]);
      FeedAllAppend(env, Live(core, w, out), [s[0]], s[1..]);
      var core1 := core.(headerValue := if s[0] == SP then OrElse(core.headerValue, w) else core.headerValue);
      FeedTrailerValue(env, core1, w + [s[0]], out, s[1..]);
    }
  }

  lemma TrailerValueSteps(env: Env, core: Core, out: Out, value: Str)
    requires core.state.TrailerValueBefore? && core.headerValue == [] && !out.upgraded
    requires value != [] && value[0] != SP && NoneOf(value, {CR, LF})
    ensures FeedAll(env, Live(core, [], out), [SP] + value) ==
            Live(core.(state := TrailerValue, headerValue := if SP in value then FirstWord(value) else []), value, out)
  {
    hide Feed, FeedAll;
    var core1, c := core.(state := TrailerValue), value[0];
    assert Step(env, core, out, [], SP) == Ok(core, out, Keep);
    assert Step(env, core, out, [SP], c) == Ok(core1, out, Here);
    hide Step;
    FeedByte(env, core, [], out, SP);
    assert [] + [SP] == [SP];
    FeedByte(env, core, [SP], out, c);
    FeedTrailerValue(env, core1, [c], out, value[1..]);
    assert value == [c] + value[1..];
    FeedAllAppend(env, Live(core, [SP], out), [c], value[1..]);
    FeedAllAppend(env, Live(core, [], out), [SP], value);
    assert SP in value <==> SP in value[1..];
  }

  lemma TrailerEnd(env: Env, core: Core, out: Out, value: Str)
    requires core.state.TrailerValue? && core.trailer != {} && !out.upgraded
    ensures FeedAll(env, Live(core, value, out), CRLF) ==
            Live(core.(state := TrailerKeyBefore, headerKey := [], headerValue := [],
                       trailer := core.trailer - {core.headerKey}),
                 [LF], Record(out, OnTrailerHeader(core.headerKey, OrElse(core.headerValue, value))))
  {
    hide Feed, FeedAll;
    var core1 := core.(state := TrailerValueLF, headerKey := [], headerValue := [],
                       trailer := core.trailer - {core.headerKey});
    var out1 := Record(out, OnTrailerHeader(core.headerKey, OrElse(core.headerValue, value)));
    assert Step(env, core, out, value, CR) == Ok(core1, out1, Next);
    assert Step(env, core1, out1, [], LF) == Ok(core1.(state := TrailerKeyBefore), out1, Here);
    hide Step;
    FeedByte(env, core, value, out, CR);
    FeedByte(env, core1, [], out1, LF);
    assert CRLF == [CR] + [LF];
    FeedAllAppend(env, Live(core, value, out), [CR], [LF]);
  }

  function TrailerLine(f: Field): (r: Str)
  {
    (f.key + [COLON]) + ([SP] + f.value) + CRLF
  }

  /** What the parser makes of a trailer value: its first word, or of an empty one, the space before it. */
  function HeardTrailer(value: Str): (r: Str) { if value == [] then [SP] else FirstWord(value) }

  /** A field with an empty value is not struck off the announced ones. */
  lemma EmptyTrailerLine(env: Env, core: Core, out: Out)
    requires core.state.TrailerValueBefore? && core.headerValue == [] && !out.upgraded
    ensures FeedAll(env, Live(core, [], out), [SP] + CRLF) ==
            Live(core.(state := TrailerKeyBefore, headerKey := []), [LF],
                 Record(out, OnTrailerHeader(core.headerKey, [SP])))
  {
    hide Feed, FeedAll;
    var core1 := core.(state := TrailerValueLF, headerKey := []);
    var out1, m := Record(out, OnTrailerHeader(core.headerKey, [SP])), Live(core, [], out);
    assert Step(env, core, out, [], SP) == Ok(core, out, Keep);
    assert Step(env, core, out, [SP], CR) == Ok(core1, out1, Next);
    assert Step(env, core1, out1, [], LF) == Ok(core1.(state := TrailerKeyBefore), out1, Here);
    hide Step;
    assert [] + [SP] == [SP] && [SP] + CRLF == [SP] + [CR] + [LF];
    FeedByte(env, core, [], out, SP);
    FeedByte(env, core, [SP], out, CR);
    FeedByte(env, core1, [], out1, LF);
    FeedAllAppend(env, m, [SP], [CR]);
    FeedAllAppend(env, m, [SP] + [CR], [LF]);
  }

  /** A non-empty value when nothing announced is left. */
  lemma TrailerTooMany(env: Env, core: Core, out: Out, value: Str)
    requires core.state.TrailerValue? && core.trailer == {} && !out.upgraded
    ensures FeedAll(env, Live(core, value, out), CRLF) == Dead(InvalidTrailer, out)
  {
    FeedFail(env, core, value, out, CRLF, InvalidTrailer);
  }

  /** Every trailer field: with a value it is delivered, up to the first space, and struck off, unless
      nothing announced is left; without a value it is delivered as a space, and not struck off. */
  lemma TrailerRoundTrip(env: Env, core: Core, w: Str, out: Out, f: Field)
    requires BetweenTrailers(core) && !out.upgraded && ValidField(env, f)
    ensures var m := FeedAll(env, Live(core, w, out), TrailerLine(f));
            var name := Canonical(env, f.key);
            if f.value != [] && core.trailer == {} then m == Dead(InvalidTrailer, out)
            else m == Live(core.(trailer := if f.value == [] then core.trailer else core.trailer - {name}), [LF],
                           Record(out, OnTrailerHeader(name, HeardTrailer(f.value))))
  {
    hide Step, Feed, FeedAll;
    var m, key := Live(core, w, out), Canonical(env, f.key);
    TrailerKeySteps(env, core, w, out, f);
    var core1 := core.(state := TrailerValueBefore, headerKey := key);
    if f.value == [] {
      EmptyTrailerLine(env, core1, out);
      assert TrailerLine(f) == (f.key + [COLON]) + ([SP] + CRLF);
      FeedAllAppend(env, m, f.key + [COLON], [SP] + CRLF);
    } else {
      TrailerValueSteps(env, core1, out, f.value);
      var core2 := core1.(state := TrailerValue, headerValue := if SP in f.value then FirstWord(f.value) else []);
      if core.trailer == {} {
        TrailerTooMany(env, core2, out, f.value);
      } else {
        TrailerEnd(env, core2, out, f.value);
      }
      WholeWord(f.value);
      FeedAllAppend(env, m, f.key + [COLON], [SP] + f.value);
      FeedAllAppend(env, m, (f.key + [COLON]) + ([SP] + f.value), CRLF);
    }
  }

  /** An announced field is delivered as written and struck off if and only if its value is not empty
      and has no space. */
  lemma TrailerKept(env: Env, core: Core, w: Str, out: Out, f: Field)
    requires BetweenTrailers(core) && Canonical(env, f.key) in core.trailer && !out.upgraded && ValidField(env, f)
    ensures var m := FeedAll(env, Live(core, w, out), TrailerLine(f));
            && m.Live? && |m.out.cur| == |out.cur| + 1
            && (m.out.cur[|out.cur|] == OnTrailerHeader(Canonical(env, f.key), f.value) <==>
                f.value != [] && SP !in f.value)
            && (Canonical(env, f.key) !in m.core.trailer <==> f.value != [])
  {
    TrailerRoundTrip(env, core, w, out, f);
    WholeWord(f.value);
    hide FeedAll, TrailerLine, FirstWord;
  }

  /** Of a value of two words the first is delivered. */
  lemma TwoWords(env: Env, core: Core, w: Str, out: Out, key: Str, a: Str, b: Str)
    requires BetweenTrailers(core) && core.trailer != {} && !out.upgraded
    requires a != [] && SP !in a && ValidField(env, Field(key, a + [SP] + b))
    ensures var m := FeedAll(env, Live(core, w, out), TrailerLine(Field(key, a + [SP] + b)));
            m.Live? && m.out.cur == out.cur + [OnTrailerHeader(Canonical(env, key), a)]
  {
    var value := a + [SP] + b;
    TrailerRoundTrip(env, core, w, out, Field(key, value));
    assert value[..|a|] == a && value[|a|] == SP;
    FirstWordOf(value, |a|);
    hide FeedAll, TrailerLine, FirstWord;
  }

  function TrailerLines(fields: seq<Field>): (r: Str)
  {
    if fields == [] then [] else TrailerLines(fields[..|fields| - 1]) + TrailerLine(fields[|fields| - 1])
  }

  function TrailerEvents(env: Env, fields: seq<Field>): (r: seq<Event>)
  {
    seq(|fields|, i requires 0 <= i < |fields| =>
      OnTrailerHeader(Canonical(env, fields[i].key), HeardTrailer(fields[i].value)))
  }

  function Names(env: Env, fields: seq<Field>): (r: set<Str>)
  {
    set f | f in fields :: Canonical(env, f.key)
  }

  /** The names that are struck off: those that come with a value. */
  function Struck(env: Env, fields: seq<Field>): (r: set<Str>)
  {
    set f | f in fields && f.value != [] :: Canonical(env, f.key)
  }

  predicate DistinctNames(env: Env, fields: seq<Field>)
  {
    forall i, j :: 0 <= i < j < |fields| ==> Canonical(env, fields[i].key) != Canonical(env, fields[j].key)
  }

  predicate ValidFields(env: Env, fields: seq<Field>) { forall i :: 0 <= i < |fields| ==> ValidField(env, fields[i]) }

  /** Some field comes with a value when every announced name has been struck off. */
  predicate Excess(env: Env, names: set<Str>, fields: seq<Field>)
  {
    exists i :: 0 <= i < |fields| && fields[i].value != [] && names <= Struck(env, fields[..i])
  }

  lemma StruckSnoc(env: Env, names: set<Str>, fields: seq<Field>)
    requires fields != []
    ensures var n := |fields| - 1;
            && Struck(env, fields) == Struck(env, fields[..n]) +
                                      (if fields[n].value == [] then {} else {Canonical(env, fields[n].key)})
            && (Excess(env, names, fields) <==>
                Excess(env, names, fields[..n]) || (fields[n].value != [] && names <= Struck(env, fields[..n])))
  {
    var n := |fields| - 1;
    assert fields == fields[..n] + [fields[n]];
    hide Struck;
    StruckOne(env, fields[..n], fields[n]);
    assert forall i :: 0 <= i < n ==> fields[..n][i] == fields[i] && fields[..n][..i] == fields[..i];
    if Excess(env, names, fields) {
      var i :| 0 <= i < |fields| && fields[i].value != [] && names <= Struck(env, fields[..i]);
      if i < n { assert fields[..n][i].value != [] && names <= Struck(env, fields[..n][..i]); }
    }
    if Excess(env, names, fields[..n]) {
      var i :| 0 <= i < n && fields[..n][i].value != [] && names <= Struck(env, fields[..n][..i]);
      assert fields[i].value != [] && names <= Struck(env, fields[..i]);
    }
  }

  lemma StruckOne(env: Env, fields: seq<Field>, f: Field)
    ensures Struck(env, fields + [f]) == Struck(env, fields) +
                                         (if f.value == [] then {} else {Canonical(env, f.key)})
  {
  }

  /** Every list of trailer fields after any announcement: all are delivered in order, and those with a
      value are struck off, unless one with a value comes when nothing announced is left. */
  lemma {:induction false} TrailersRoundTrip(env: Env, core: Core, w: Str, out: Out, fields: seq<Field>)
    requires BetweenTrailers(core) && !out.upgraded && ValidFields(env, fields)
    ensures var m := FeedAll(env, Live(core, w, out), TrailerLines(fields));
            if Excess(env, core.trailer, fields) then m.Dead? && m.error == InvalidTrailer
            else
              && m.Live? && m.core == core.(trailer := core.trailer - Struck(env, fields))
              && m.out == out.(cur := out.cur + TrailerEvents(env, fields))
  {
    hide Step, Feed, FeedAll, TrailerLine, ValidField, Excess, Struck;
    var m := Live(core, w, out);
    if fields == [] {
      FeedNothing(env, m);
      NothingStruck(env, core.trailer);
      assert core.trailer - {} == core.trailer;
      assert out.cur + TrailerEvents(env, fields) == out.cur;
    } else {
      var n := |fields| - 1;
      var front, f := fields[..n], fields[n];
      TrailersRoundTrip(env, core, w, out, front);
      StruckSnoc(env, core.trailer, fields);
      FeedAllAppend(env, m, TrailerLines(front), TrailerLine(f));
      var now := FeedAll(env, m, TrailerLines(front));
      if now.Dead? {
        DeadStays(env, now, TrailerLine(f));
      } else {
        TrailerRoundTrip(env, now.core, now.pending, now.out, f);
        var e := OnTrailerHeader(Canonical(env, f.key), HeardTrailer(f.value));
        assert out.cur + TrailerEvents(env, fields) == out.cur + TrailerEvents(env, front) + [e];
        NoneLeft(core.trailer, Struck(env, front));
      }
    }
  }

  lemma NoneLeft(names: set<Str>, struck: set<Str>)
    ensures names - struck == {} <==> names <= struck
  {
    assert forall n :: n in names && n !in struck ==> n in names - struck;
  }

  lemma NothingStruck(env: Env, names: set<Str>)
    ensures Struck(env, []) == {} && !Excess(env, names, [])
  {
  }

  lemma FeedTrailerEnd(env: Env, core: Core, w: Str, out: Out)
    requires BetweenTrailers(core) && core.trailer == {} && !out.upgraded
    ensures FeedAll(env, Live(core, w, out), CRLF) == Live(Reset(core), [], Finish(env, out))
  {
    hide Feed, FeedAll, Finish;
    var core1 := core.(state := TailLF);
    assert Step(env, core, out, w, CR) == Ok(core1, out, Next);
    assert Step(env, core1, out, [], LF) == Ok(Reset(core1), Finish(env, out), Next);
    hide Step;
    FeedByte(env, core, w, out, CR);
    FeedByte(env, core1, [], out, LF);
    assert CRLF == [CR] + [LF];
    FeedAllAppend(env, Live(core, w, out), [CR], [LF]);
  }

  // ---- the coding as a whole ----

  function ChunkedBody(chunks: seq<Str>, trailers: seq<Field>): (r: Str)
  {
    ChunkList(chunks) + (Digits(0, 16) + CRLF) + TrailerLines(trailers) + CRLF
  }

  function ChunkedEvents(env: Env, chunks: seq<Str>, trailers: seq<Field>): (r: seq<Event>)
  {
    BodyEvents(chunks) + TrailerEvents(env, trailers)
  }

  /** The trailer fields fit the announced names: every name comes with a value, and no field with a
      value comes after that; nothing comes when nothing is announced. */
  predicate Fitting(env: Env, names: set<Str>, fields: seq<Field>)
  {
    if names == {} then fields == []
    else names <= Struck(env, fields) && !Excess(env, names, fields)
  }

  lemma TrailerMissing(env: Env, core: Core, w: Str, out: Out)
    requires BetweenTrailers(core) && core.trailer != {} && !out.upgraded
    ensures FeedAll(env, Live(core, w, out), CRLF) == Dead(TrailerExpected, out)
  {
    FeedFail(env, core, w, out, CRLF, TrailerExpected);
  }

  /** A trailer field where none is announced. */
  lemma TrailerUnannounced(env: Env, core: Core, out: Out, s: Str)
    requires core.state.TailCR? && !out.upgraded && s != [] && s[0] != CR
    ensures FeedAll(env, Live(core, [], out), s) == Dead(CRExpected, out)
  {
    FeedFail(env, core, [], out, s, CRExpected);
  }

  lemma {:induction false} LinesStart(env: Env, fields: seq<Field>)
    requires fields != [] && ValidFields(env, fields)
    ensures TrailerLines(fields) != [] && TrailerLines(fields)[0] != CR
  {
    var n := |fields| - 1;
    assert ValidField(env, fields[n]);
    if n > 0 {
      LinesStart(env, fields[..n]);
    } else {
      assert fields[..n] == [] && IsToken(fields[n].key[0]) && !IsToken(CR);
      assert TrailerLines(fields) == [] + TrailerLine(fields[n]) == TrailerLine(fields[n]);
      assert TrailerLine(fields[n])[0] == fields[n].key[0];
    }
  }

  /** The last chunk is read and the trailer fields come. */
  lemma FeedTrailers(env: Env, core: Core, out: Out, fields: seq<Field>)
    requires core.headerKey == [] && core.headerValue == [] && !out.upgraded && ValidFields(env, fields)
    requires core.state == if core.trailer != {} then TrailerKeyBefore else TailCR
    ensures var m := FeedAll(env, Live(core, [], out), TrailerLines(fields) + CRLF);
            && (m.Live? <==> Fitting(env, core.trailer, fields))
            && (m.Live? ==> m == Live(Reset(core), [], Finish(env, out.(cur := out.cur + TrailerEvents(env, fields)))))
            && (core.trailer != {} && !Excess(env, core.trailer, fields) && !(core.trailer <= Struck(env, fields)) ==>
                  m == Dead(TrailerExpected, out.(cur := out.cur + TrailerEvents(env, fields))))
  {
    hide Step, Feed, FeedAll, Finish, Struck, Excess, ValidField;
    var m, lines := Live(core, [], out), TrailerLines(fields);
    if core.trailer == {} {
      if fields == [] {
        assert lines + CRLF == CRLF && out.cur + TrailerEvents(env, fields) == out.cur;
        FeedTail(env, core, out);
      } else {
        LinesStart(env, fields);
        TrailerUnannounced(env, core, out, lines + CRLF);
      }
    } else {
      hide TrailerLines, TrailerEvents;
      TrailersRoundTrip(env, core, [], out, fields);
      FeedAllAppend(env, m, lines, CRLF);
      var now := FeedAll(env, m, lines);
      if now.Dead? {
        DeadStays(env, now, CRLF);
      } else if core.trailer <= Struck(env, fields) {
        NoneLeft(core.trailer, Struck(env, fields));
        FeedTrailerEnd(env, now.core, now.pending, now.out);
      } else {
        NoneLeft(core.trailer, Struck(env, fields));
        TrailerMissing(env, now.core, now.pending, now.out);
      }
    }
  }

  /** For every list of non-empty chunks, every announcement and every list of trailer fields: the body
      is read to its end if and only if the fields fit the announcement; then the chunks and fields are
      delivered, in order, and the message with them, every byte being consumed. */
  lemma ChunkedRoundTrip(env: Env, core: Core, out: Out, chunks: seq<Str>, trailers: seq<Field>)
    requires core.state.ChunkSizeBefore? && core.headerKey == [] && core.headerValue == [] && !out.upgraded
    requires Sizes(chunks) && AcceptsFrom(env, out.cur, BodyEvents(chunks)) && ValidFields(env, trailers)
    ensures var m := FeedAll(env, Live(core, [], out), ChunkedBody(chunks, trailers));
            && (m.Live? <==> Fitting(env, core.trailer, trailers))
            && (m.Live? ==>
                  && m.pending == []
                  && m.out == Finish(env, out.(cur := out.cur + ChunkedEvents(env, chunks, trailers)))
                  && m.core == Reset(core).(chunkSize := 0))
  {
    hide Step, Feed, FeedAll, Digits, ChunkList, TrailerLines, Finish, BodyEvents, TrailerEvents, AcceptsFrom, Sizes,
         Fitting, Excess, Struck, ValidField;
    var m, last := Live(core, [], out), Digits(0, 16) + CRLF;
    ChunksRoundTrip(env, core, out, chunks);
    var m1 := FeedAll(env, m, ChunkList(chunks));
    LastChunk(env, m1.core, m1.pending, m1.out);
    FeedAllAppend(env, m, ChunkList(chunks), last);
    var m2 := FeedAll(env, m, ChunkList(chunks) + last);
    FeedTrailers(env, m2.core, m2.out, trailers);
    FeedAllAppend(env, m, ChunkList(chunks) + last, TrailerLines(trailers) + CRLF);
    assert ChunkedBody(chunks, trailers) == ChunkList(chunks) + last + (TrailerLines(trailers) + CRLF);
    assert out.cur + ChunkedEvents(env, chunks, trailers) == m1.out.cur + TrailerEvents(env, trailers);
  }

  /** Fields with different names that are announced as they are: they fit if and only if each has a value. */
  lemma FittingNames(env: Env, fields: seq<Field>)
    requires DistinctNames(env, fields)
    ensures Fitting(env, Names(env, fields), fields) <==> forall i :: 0 <= i < |fields| ==> fields[i].value != []
  {
    if i :| 0 <= i < |fields| && fields[i].value == [] {
      EmptyUnfit(env, fields, i);
    } else {
      FullFit(env, fields);
    }
  }

  lemma EmptyUnfit(env: Env, fields: seq<Field>, i: nat)
    requires DistinctNames(env, fields) && i < |fields| && fields[i].value == []
    ensures !Fitting(env, Names(env, fields), fields)
  {
    var key := Canonical(env, fields[i].key);
    assert key in Names(env, fields);
    hide Excess;
    assert forall j :: 0 <= j < |fields| && fields[j].value != [] ==> Canonical(env, fields[j].key) != key;
    assert key !in Struck(env, fields);
  }

  lemma FullFit(env: Env, fields: seq<Field>)
    requires DistinctNames(env, fields) && forall i :: 0 <= i < |fields| ==> fields[i].value != []
    ensures Fitting(env, Names(env, fields), fields)
  {
    var names := Names(env, fields);
    assert names == Struck(env, fields);
    if fields == [] {
      assert names == {};
    } else {
      assert Canonical(env, fields[0].key) in names;
      forall i | 0 <= i < |fields| ensures !(names <= Struck(env, fields[..i])) {
        LaterName(env, fields, i);
        assert Canonical(env, fields[i].key) in names;
      }
    }
    hide Struck, Names;
  }

  lemma LaterName(env: Env, fields: seq<Field>, i: nat)
    requires DistinctNames(env, fields) && i < |fields|
    ensures Canonical(env, fields[i].key) !in Struck(env, fields[..i])
  {
    assert forall j :: 0 <= j < i ==> fields[..i][j] == fields[j];
  }

  /** A message whose one announced trailer field has no value fails, although all of it is there. */
  lemma EmptyTrailerFails(env: Env, core: Core, out: Out, key: Str)
    requires core.state.TrailerKeyBefore? && core.headerKey == [] && core.headerValue == [] && !out.upgraded
    requires ValidField(env, Field(key, [])) && core.trailer == {Canonical(env, key)}
    ensures FeedAll(env, Live(core, [], out), TrailerLine(Field(key, [])) + CRLF) ==
            Dead(TrailerExpected, Record(out, OnTrailerHeader(Canonical(env, key), [SP])))
  {
    hide Step, Feed, FeedAll, TrailerLine, ValidField;
    var f, m := Field(key, []), Live(core, [], out);
    TrailerRoundTrip(env, core, [], out, f);
    FeedAllAppend(env, m, TrailerLine(f), CRLF);
    TrailerMissing(env, core, [LF], Record(out, OnTrailerHeader(Canonical(env, key), [SP])));
  }
}
