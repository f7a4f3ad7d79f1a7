/** What the parser makes of a message that a writer has laid out: the request line,
    the status line, the header fields and the blank line give back their parts. */
module HttpGrammar {
  import opened Bytes
  import opened HttpMachine
  import opened FormatInt

  // ---- tokens ----

  /** The byte adds to the token in progress and changes nothing else. */
  ghost predicate Stays(env: Env, core: Core, out: Out, c: byte)
    requires !InBody(core.state)
  {
    forall w :: Step(env, core, out, w, c) == Ok(core, out, Keep)
  }

  function Land(o: Outcome, w: Str, c: byte): (m: Machine)
  {
    match o
    case Fail(e, out) => Dead(e, out)
    case Ok(core, out, mark) => Live(core, Marked(mark, w, c), out)
  }

  lemma FeedByte(env: Env, core: Core, w: Str, out: Out, c: byte)
    requires !InBody(core.state) && !out.upgraded
    ensures FeedAll(env, Live(core, w, out), [c]) == Land(Step(env, core, out, w, c), w, c)
  {
    hide Step;
    assert [c][..0] == [];
    FeedNothing(env, Live(core, w, out));
  }

  /** A byte that fails ends it, whatever follows. */
  lemma FeedFail(env: Env, core: Core, w: Str, out: Out, s: Str, e: Error)
    requires !InBody(core.state) && !out.upgraded && s != [] && Step(env, core, out, w, s[0]) == Fail(e, out)
    ensures FeedAll(env, Live(core, w, out), s) == Dead(e, out)
  {
    hide Step, Feed, FeedAll;
    FeedByte(env, core, w, out, s[0]);
    assert s == [s[0]] + s[1..];
    FeedAllAppend(env, Live(core, w, out), [s[0]], s[1..]);
    DeadStays(env, Dead(e, out), s[1..]);
  }

  lemma {:induction false} KeepRun(env: Env, core: Core, w: Str, out: Out, s: Str)
    requires !InBody(core.state) && !out.upgraded
    requires forall i :: 0 <= i < |s| ==> Stays(env, core, out, s[i])
    ensures FeedAll(env, Live(core, w, out), s) == Live(core, w + s, out)
  {
    hide Step;
    if s == [] {
      assert w + s == w;
    } else {
      var k := |s| - 1;
      KeepRun(env, core, w, out, s[..k]);
      assert Step(env, core, out, w + s[..k], s[k]) == Ok(core, out, Keep) by { assert Stays(env, core, out, s[k]); }
      assert w + s == w + s[..k] + [s[k]];
    }
  }

  /** A token s, whose first byte leads from `core` to `core1`, and the byte that ends it. */
  lemma FeedToken(env: Env, core: Core, w: Str, out: Out, core1: Core, s: Str, c: byte)
    requires !InBody(core.state) && !InBody(core1.state) && !out.upgraded && s != []
    requires Step(env, core, out, w, s[0]) == Ok(core1, out, Here)
    requires forall i :: 1 <= i < |s| ==> Stays(env, core1, out, s[i])
    ensures FeedAll(env, Live(core, w, out), s + [c]) == Land(Step(env, core1, out, s, c), s, c)
  {
    hide Step, FeedAll, Feed;
    FeedByte(env, core, w, out, s[0]);
    forall i | 0 <= i < |s[1..]| ensures Stays(env, core1, out, s[1..][i]) {
      assert s[1..][i] == s[i + 1];
    }
    KeepRun(env, core1, [s[0]], out, s[1..]);
    assert s == [s[0]] + s[1..];
    FeedAllAppend(env, Live(core, w, out), [s[0]], s[1..]);
    FeedAllAppend(env, Live(core, w, out), s, [c]);
    FeedByte(env, core1, s, out, c);
  }

  // ---- the request line ----

  const CRLF: Str := [CR, LF]

  predicate NoneOf(s: Str, bad: set<byte>) { forall i :: 0 <= i < |s| ==> s[i] !in bad }

  predicate Accepts(env: Env, cur: seq<Event>) { Reject(env, cur) == None }

  /** What the processor must not reject, and the events it has seen after a request line. */
  function RequestLineEvents(env: Env, verb: Str, uri: Str, proto: Str): (r: seq<Event>)
  {
    [OnMethod(ToUpper(env, verb)), OnURL(uri), OnProto(proto)]
  }

  predicate ValidVerb(env: Env, verb: Str)
  {
    && verb != [] && IsMethodChar(verb[0])
    && (forall i :: 1 <= i < |verb| ==> IsAlpha(verb[i]))
    && IsValidMethod(env, ToUpper(env, verb))
  }

  predicate ValidURI(uri: Str) { uri != [] && uri[0] in {0x2F, 0x2A} && NoneOf(uri, {SP}) }

  predicate ValidProto(proto: Str) { proto != [] && NoneOf(proto, {SP, CR}) }

  lemma FeedVerb(env: Env, core: Core, out: Out, verb: Str)
    requires core.state.MethodBefore? && !out.upgraded && ValidVerb(env, verb)
    ensures FeedAll(env, Live(core, [], out), verb + [SP]) ==
            Live(core.(state := PathBefore), [], Record(out, OnMethod(ToUpper(env, verb))))
  {
    var core1 := core.(state := Method);
    forall i | 1 <= i < |verb| ensures Stays(env, core1, out, verb[i]) {}
    FeedToken(env, core, [], out, core1, verb, SP);
  }

  lemma FeedURI(env: Env, core: Core, out: Out, uri: Str)
    requires core.state.PathBefore? && !out.upgraded && ValidURI(uri)
    requires Accepts(env, out.cur + [OnURL(uri)])
    ensures FeedAll(env, Live(core, [], out), uri + [SP]) ==
            Live(core.(state := ProtoBefore), [], Record(out, OnURL(uri)))
  {
    var core1 := core.(state := Path);
    forall i | 1 <= i < |uri| ensures Stays(env, core1, out, uri[i]) {}
    FeedToken(env, core, [], out, core1, uri, SP);
  }

  /** A target is read if and only if it starts with a slash or an asterisk and the processor takes it: a
      target in absolute or authority form (section 3.2 of RFC 9112) is refused. */
  lemma TargetExact(env: Env, core: Core, out: Out, uri: Str)
    requires core.state.PathBefore? && !out.upgraded && uri != [] && NoneOf(uri, {SP})
    ensures FeedAll(env, Live(core, [], out), uri + [SP]) ==
            if uri[0] !in {0x2F, 0x2A} then Dead(InvalidRequestURI, out)
            else match Reject(env, out.cur + [OnURL(uri)])
                 case Some(e) => Dead(Rejected(e), Record(out, OnURL(uri)))
                 case None => Live(core.(state := ProtoBefore), [], Record(out, OnURL(uri)))
  {
    if uri[0] in {0x2F, 0x2A} {
      var core1 := core.(state := Path);
      forall i | 1 <= i < |uri| ensures Stays(env, core1, out, uri[i]) {}
      FeedToken(env, core, [], out, core1, uri, SP);
    } else {
      FeedFail(env, core, [], out, uri + [SP], InvalidRequestURI);
    }
  }

  lemma FeedProto(env: Env, core: Core, out: Out, proto: Str)
    requires core.state.ProtoBefore? && core.proto == [] && !out.upgraded && ValidProto(proto)
    requires Accepts(env, out.cur + [OnProto(proto)])
    ensures FeedAll(env, Live(core, [], out), proto + CRLF) ==
            Live(core.(state := HeaderKeyBefore), [], Record(out, OnProto(proto)))
  {
    var core1 := core.(state := Proto);
    hide FeedAll, Feed, HeaderStep, StatusLineStep, ChunkStep, TrailerStep;
    forall i | 1 <= i < |proto| ensures Stays(env, core1, out, proto[i]) {}
    FeedToken(env, core, [], out, core1, proto, CR);
    var core2, out2 := core.(state := ProtoLF), Record(out, OnProto(proto));
    FeedByte(env, core2, proto + [CR], out2, LF);
    assert proto + CRLF == (proto + [CR]) + [LF];
    FeedAllAppend(env, Live(core, [], out), proto + [CR], [LF]);
  }

  function RequestLine(verb: Str, uri: Str, proto: Str): (r: Str)
  {
    (verb + [SP]) + (uri + [SP]) + (proto + CRLF)
  }

  /** Every prefix of the events is accepted. */
  ghost predicate AcceptsAll(env: Env, events: seq<Event>)
  {
    forall k :: 0 <= k <= |events| ==> Accepts(env, events[..k])
  }

  lemma RequestLineRoundTrip(env: Env, core: Core, out: Out, verb: Str, uri: Str, proto: Str)
    requires core.state.MethodBefore? && core.proto == [] && out.cur == [] && !out.upgraded
    requires ValidVerb(env, verb) && ValidURI(uri) && ValidProto(proto)
    requires AcceptsAll(env, RequestLineEvents(env, verb, uri, proto))
    ensures FeedAll(env, Live(core, [], out), RequestLine(verb, uri, proto)) ==
            Live(core.(state := HeaderKeyBefore), [], out.(cur := RequestLineEvents(env, verb, uri, proto)))
  {
    hide Feed, FeedAll, ValidVerb, ValidURI, ValidProto, Accepts;
    var m0 := Live(core, [], out);
    var ev := RequestLineEvents(env, verb, uri, proto);
    var o1 := out.(cur := ev[..1]);
    var o2 := out.(cur := ev[..2]);
    FeedVerb(env, core, out, verb);
    assert out.cur + [ev[0]] == ev[..1];
    assert ev[..1] + [ev[1]] == ev[..2];
    FeedURI(env, core.(state := PathBefore), o1, uri);
    assert ev[..2] + [ev[2]] == ev == ev[..3];
    FeedProto(env, core.(state := ProtoBefore), o2, proto);
    FeedAllAppend(env, m0, verb + [SP], uri + [SP]);
    FeedAllAppend(env, m0, (verb + [SP]) + (uri + [SP]), proto + CRLF);
  }

  // ---- the status line ----

  /** The parser keeps the reason phrase up to its first space. */
  function FirstWord(s: Str): (r: Str)
  {
    if s == [] || s[0] == SP then [] else [s[0]] + FirstWord(s[1..])
  }

  predicate ValidReason(reason: Str) { reason != [] && IsAlpha(reason[0]) && NoneOf(reason, {CR}) }

  lemma FeedStatusProto(env: Env, core: Core, out: Out, proto: Str)
    requires core.state.ClientProtoBefore? && core.proto == [] && !out.upgraded
    requires proto != [] && proto[0] == 0x48 && NoneOf(proto, {SP})
    requires Accepts(env, out.cur + [OnProto(proto)])
    ensures FeedAll(env, Live(core, [], out), proto + [SP]) ==
            Live(core.(state := StatusCodeBefore), proto + [SP], Record(out, OnProto(proto)))
  {
    var core1 := core.(state := ClientProto);
    forall i | 1 <= i < |proto| ensures Stays(env, core1, out, proto[i]) {}
    FeedToken(env, core, [], out, core1, proto, SP);
  }

  lemma FeedCode(env: Env, core: Core, w: Str, out: Out, code: nat)
    requires core.state.StatusCodeBefore? && !out.upgraded && code < TWO_63
    ensures FeedAll(env, Live(core, w, out), Digits(code, 10) + [SP]) ==
            Live(core.(statusCode := code, state := StatusBefore), Digits(code, 10) + [SP], out)
  {
    hide Digits, ParseInt, FeedAll, Feed, Step;
    var s, core1 := Digits(code, 10), core.(state := StatusCode);
    DecimalDigits(code);
    CodeStart(env, core, w, out, s[0]);
    forall i | 1 <= i < |s| ensures Stays(env, core1, out, s[i]) { CodeByte(env, core1, out, s[i]); }
    FeedToken(env, core, w, out, core1, s, SP);
    CodeEnd(env, core1, out, code);
  }

  lemma CodeStart(env: Env, core: Core, w: Str, out: Out, c: byte)
    requires core.state.StatusCodeBefore? && IsNum(c)
    ensures Step(env, core, out, w, c) == Ok(core.(state := StatusCode), out, Here)
  {
  }

  lemma CodeEnd(env: Env, core: Core, out: Out, code: nat)
    requires core.state.StatusCode? && code < TWO_63
    ensures Step(env, core, out, Digits(code, 10), SP) ==
            Ok(core.(statusCode := code, state := StatusBefore), out, Keep)
  {
    hide Digits, ParseInt, Step;
    ParseFormat(code, 10, TWO_63);
    CodeSpace(env, core, out, Digits(code, 10), code);
  }

  lemma CodeSpace(env: Env, core: Core, out: Out, w: Str, code: nat)
    requires core.state.StatusCode? && ParseInt(w, 10, TWO_63) == Some(code)
    ensures Step(env, core, out, w, SP) == Ok(core.(statusCode := code, state := StatusBefore), out, Keep)
  {
    hide ParseInt, RequestLineStep, HeaderStep, ChunkStep, TrailerStep;
  }

  lemma CodeByte(env: Env, core: Core, out: Out, c: byte)
    requires core.state.StatusCode? && IsNum(c)
    ensures Stays(env, core, out, c)
  {
  }

  lemma {:induction false} DecimalDigits(n: nat)
    ensures forall i :: 0 <= i < |Digits(n, 10)| ==> IsNum(Digits(n, 10)[i])
  {
    assert IsNum(NumMap(n % 10));
    hide NumMap, IsNum;
    if n >= 10 { DecimalDigits(n / 10); }
  }

  /** A byte of the reason phrase: the first space fixes what is kept. */
  lemma ReasonByte(env: Env, core: Core, out: Out, w: Str, c: byte)
    requires core.state.Status? && c != CR
    ensures Step(env, core, out, w, c) ==
            Ok(core.(status := if c == SP then OrElse(core.status, w) else core.status), out, Keep)
  {
  }

  lemma {:induction false} FeedReason(env: Env, core: Core, w: Str, out: Out, s: Str)
    requires core.state.Status? && !out.upgraded && w != [] && NoneOf(s, {CR})
    ensures FeedAll(env, Live(core, w, out), s) ==
            Live(core.(status := if core.status == [] && SP in s then w + FirstWord(s) else core.status),
                 w + s, out)
    decreases |s|
  {
    WordStep(w, s);
    hide Step, Feed, FeedAll, FirstWord;
    if s == [] {
      FeedNothing(env, Live(core, w, out));
    } else {
      assert s == [s[0]] + s[1..];
      ReasonByte(env, core, out, w, s[0]);
      FeedByte(env, core, w, out, s[0]);
      FeedAllAppend(env, Live(core, w, out), [s[0]], s[1..]);
      var core1 := core.(status := if s[0] == SP then OrElse(core.status, w) else core.status);
      FeedReason(env, core1, w + [s[0]], out, s[1..]);
    }
  }

  /** One byte more, and the first word after w. */
  lemma WordStep(w: Str, s: Str)
    ensures s == [] ==> w + s == w
    ensures s != [] ==>
              && w + s == w + [s[0]] + s[1..]
              && (s[0] != SP ==> w + FirstWord(s) == w + [s[0]] + FirstWord(s[1..]))
              && (s[0] == SP ==> w + FirstWord(s) == w)
  {
    if s != [] {
      var c, r, more := [s[0]], FirstWord(s[1..]), s[1..];
      assert FirstWord(s) == if s[0] == SP then [] else c + r;
      hide FirstWord;
      assert s == c + more && w + (c + more) == w + c + more;
      assert w + (c + r) == w + c + r;
    }
  }

  /** The first word is the whole if and only if there is no space. */
  lemma {:induction false} WholeWord(s: Str)
    ensures FirstWord(s) == s <==> SP !in s
  {
    if s != [] && s[0] != SP {
      WholeWord(s[1..]);
      assert s == [s[0]] + s[1..];
    }
  }

  function StatusLine(proto: Str, code: nat, reason: Str): (r: Str)
  {
    (proto + [SP]) + (Digits(code, 10) + [SP]) + (reason + CRLF)
  }

  lemma FeedReasonLine(env: Env, core: Core, w: Str, out: Out, reason: Str)
    requires core.state.StatusBefore? && core.status == [] && !out.upgraded && ValidReason(reason)
    ensures FeedAll(env, Live(core, w, out), reason + CRLF) ==
            Live(core.(statusCode := 0, state := HeaderKeyBefore), reason + CRLF,
                 Record(out, OnStatus(core.statusCode, FirstWord(reason))))
  {
    var m, core1 := Live(core, w, out), core.(state := Status);
    var word := OnStatus(core.statusCode, FirstWord(reason));
    var kept := if SP in reason then FirstWord(reason) else [];
    ReasonStart(env, core, w, out, reason);
    WholeWord(reason);
    ReasonEnd(env, core1.(status := kept), out, reason);
    hide FeedAll, Feed, Step, FirstWord;
    FeedAllAppend(env, m, reason, CRLF);
  }

  lemma ReasonStart(env: Env, core: Core, w: Str, out: Out, reason: Str)
    requires core.state.StatusBefore? && core.status == [] && !out.upgraded && ValidReason(reason)
    ensures FeedAll(env, Live(core, w, out), reason) ==
            Live(core.(state := Status, status := if SP in reason then FirstWord(reason) else []), reason, out)
  {
    hide FeedAll, Feed;
    var c := reason[0];
    assert Step(env, core, out, w, c) == Ok(core.(state := Status), out, Here);
    hide Step;
    FeedByte(env, core, w, out, c);
    FeedReason(env, core.(state := Status), [c], out, reason[1..]);
    assert reason == [c] + reason[1..];
    FeedAllAppend(env, Live(core, w, out), [c], reason[1..]);
    assert FirstWord(reason) == [c] + FirstWord(reason[1..]);
    assert SP in reason <==> SP in reason[1..];
  }

  lemma ReasonEnd(env: Env, core: Core, out: Out, reason: Str)
    requires core.state.Status? && !out.upgraded
    ensures FeedAll(env, Live(core, reason, out), CRLF) ==
            Live(core.(statusCode := 0, status := [], state := HeaderKeyBefore), reason + CRLF,
                 Record(out, OnStatus(core.statusCode, OrElse(core.status, reason))))
  {
    hide FeedAll, Feed;
    var core1 := core.(statusCode := 0, status := [], state := StatusLF);
    var out1 := Record(out, OnStatus(core.statusCode, OrElse(core.status, reason)));
    assert Step(env, core, out, reason, CR) == Ok(core1, out1, Keep);
    assert Step(env, core1, out1, reason + [CR], LF) == Ok(core1.(state := HeaderKeyBefore), out1, Keep);
    hide Step;
    FeedByte(env, core, reason, out, CR);
    FeedByte(env, core1, reason + [CR], out1, LF);
    assert CRLF == [CR] + [LF] && reason + CRLF == reason + [CR] + [LF];
    FeedAllAppend(env, Live(core, reason, out), [CR], [LF]);
  }

  // What comes before the first letter of a reason phrase is skipped, and a space there is an error.

  /** How many bytes stand before the first letter or space. */
  function Skipped(s: Str): (k: nat)
    ensures k <= |s|
    ensures forall i :: 0 <= i < k ==> !IsAlpha(s[i]) && s[i] != SP
    ensures k < |s| ==> IsAlpha(s[k]) || s[k] == SP
  {
    if s == [] || IsAlpha(s[0]) || s[0] == SP then 0 else 1 + Skipped(s[1..])
  }

  lemma {:induction false} FeedSkipped(env: Env, core: Core, w: Str, out: Out, s: Str)
    requires core.state.StatusBefore? && !out.upgraded
    requires forall i :: 0 <= i < |s| ==> !IsAlpha(s[i]) && s[i] != SP
    ensures FeedAll(env, Live(core, w, out), s) == Live(core, w + s, out)
  {
    forall i | 0 <= i < |s| ensures Stays(env, core, out, s[i]) {}
    KeepRun(env, core, w, out, s);
  }

  /** A line read where a reason phrase is expected: it is skipped as a whole, line end and all, if it
      has no letter and no space; it is an error if a space comes first; otherwise the word that
      starts at its first letter is the reason. */
  lemma ReasonExact(env: Env, core: Core, w: Str, out: Out, line: Str)
    requires core.state.StatusBefore? && core.status == [] && !out.upgraded && NoneOf(line, {CR})
    ensures var k := Skipped(line);
            FeedAll(env, Live(core, w, out), line + CRLF) ==
              if k == |line| then Live(core, w + line + CRLF, out)
              else if line[k] == SP then Dead(InvalidStatus, out)
              else Live(core.(statusCode := 0, state := HeaderKeyBefore), line[k..] + CRLF,
                        Record(out, OnStatus(core.statusCode, FirstWord(line[k..]))))
  {
    hide Feed, FeedAll, FirstWord;
    var k, m := Skipped(line), Live(core, w, out);
    var rest := line[k..];
    assert line == line[..k] + rest;
    FeedSkipped(env, core, w, out, line[..k]);
    FeedAllAppend(env, m, line[..k], rest + CRLF);
    assert line + CRLF == line[..k] + (rest + CRLF);
    if k == |line| {
      assert !IsAlpha(CR) && !IsAlpha(LF);
      FeedSkipped(env, core, w + line[..k], out, CRLF);
      assert rest + CRLF == CRLF && line[..k] == line;
    } else if line[k] == SP {
      assert Step(env, core, out, w + line[..k], SP) == Fail(InvalidStatus, out);
      SpaceFirst(env, core, w + line[..k], out, rest + CRLF);
    } else {
      FeedReasonLine(env, core, w + line[..k], out, rest);
    }
  }

  lemma SpaceFirst(env: Env, core: Core, w: Str, out: Out, s: Str)
    requires core.state.StatusBefore? && !out.upgraded && s != [] && s[0] == SP
    ensures FeedAll(env, Live(core, w, out), s) == Dead(InvalidStatus, out)
  {
    FeedFail(env, core, w, out, s, InvalidStatus);
  }

  /** What a status line must have besides its reason phrase. */
  predicate Responds(env: Env, core: Core, out: Out, proto: Str, code: nat)
  {
    && core.state.ClientProtoBefore? && core.proto == [] && core.status == [] && !out.upgraded
    && proto != [] && proto[0] == 0x48 && NoneOf(proto, {SP}) && code < TWO_63
    && Accepts(env, out.cur + [OnProto(proto)])
  }

  /** The parser once it has read the version and the code. */
  function Awaiting(core: Core, out: Out, proto: Str, code: nat, w: Str): (m: Machine)
  {
    Live(core.(statusCode := code, state := StatusBefore), w, Record(out, OnProto(proto)))
  }

  lemma FeedCodeLine(env: Env, core: Core, out: Out, proto: Str, code: nat, line: Str)
    requires Responds(env, core, out, proto, code)
    ensures FeedAll(env, Live(core, [], out), (proto + [SP]) + (Digits(code, 10) + [SP]) + line) ==
            FeedAll(env, Awaiting(core, out, proto, code, Digits(code, 10) + [SP]), line)
  {
    hide Feed, FeedAll, Digits, Accepts;
    var m := Live(core, [], out);
    FeedStatusProto(env, core, out, proto);
    FeedCode(env, core.(state := StatusCodeBefore), proto + [SP], Record(out, OnProto(proto)), code);
    FeedAllAppend(env, m, proto + [SP], Digits(code, 10) + [SP]);
    FeedAllAppend(env, m, (proto + [SP]) + (Digits(code, 10) + [SP]), line);
  }

  /** Every status line, whatever its reason phrase. */
  lemma StatusLineRoundTrip(env: Env, core: Core, out: Out, proto: Str, code: nat, reason: Str)
    requires Responds(env, core, out, proto, code) && NoneOf(reason, {CR})
    ensures var k := Skipped(reason);
            FeedAll(env, Live(core, [], out), StatusLine(proto, code, reason)) ==
              if k == |reason| then
                Awaiting(core, out, proto, code, Digits(code, 10) + [SP] + reason + CRLF)
              else if reason[k] == SP then Dead(InvalidStatus, Record(out, OnProto(proto)))
              else Live(core.(statusCode := 0, state := HeaderKeyBefore), reason[k..] + CRLF,
                        Record(Record(out, OnProto(proto)), OnStatus(code, FirstWord(reason[k..]))))
  {
    hide Feed, FeedAll, Digits, Accepts, Skipped, FirstWord;
    FeedCodeLine(env, core, out, proto, code, reason + CRLF);
    ReasonExact(env, core.(statusCode := code, state := StatusBefore), Digits(code, 10) + [SP],
                Record(out, OnProto(proto)), reason);
  }

  /** The status line is delivered with the first word of its reason, and followed by the header, if
      and only if the reason starts with a letter. */
  lemma ReasonRead(env: Env, core: Core, out: Out, proto: Str, code: nat, reason: Str)
    requires Responds(env, core, out, proto, code) && NoneOf(reason, {CR})
    ensures var m := FeedAll(env, Live(core, [], out), StatusLine(proto, code, reason));
            m.Live? && m.core.state.HeaderKeyBefore? &&
            m.out.cur == out.cur + [OnProto(proto), OnStatus(code, FirstWord(reason))] <==>
            reason != [] && IsAlpha(reason[0])
  {
    StatusLineRoundTrip(env, core, out, proto, code, reason);
    var k := Skipped(reason);
    if k < |reason| && reason[k] != SP {
      Recorded(out, OnProto(proto), OnStatus(code, FirstWord(reason[k..])));
      if k > 0 {
        assert FirstWord(reason)[0] == reason[0] && FirstWord(reason[k..])[0] == reason[k];
        SameEvents(out.cur, OnProto(proto), OnStatus(code, FirstWord(reason)), OnStatus(code, FirstWord(reason[k..])));
      } else {
        assert reason[k..] == reason;
      }
    }
    hide FeedAll, StatusLine, FirstWord, Accepts;
  }

  lemma SameEvents(cur: seq<Event>, d: Event, e: Event, f: Event)
    ensures cur + [d, e] == cur + [d, f] ==> e == f
  {
    assert (cur + [d, e])[|cur| + 1] == e && (cur + [d, f])[|cur| + 1] == f;
  }

  /** It is delivered with its reason as written if and only if, besides, that has no space. */
  lemma ReasonKept(env: Env, core: Core, out: Out, proto: Str, code: nat, reason: Str)
    requires Responds(env, core, out, proto, code) && NoneOf(reason, {CR})
    ensures var m := FeedAll(env, Live(core, [], out), StatusLine(proto, code, reason));
            m.Live? && m.core.state.HeaderKeyBefore? &&
            m.out.cur == out.cur + [OnProto(proto), OnStatus(code, reason)] <==>
            reason != [] && IsAlpha(reason[0]) && SP !in reason
  {
    StatusLineRoundTrip(env, core, out, proto, code, reason);
    var k := Skipped(reason);
    WholeWord(reason);
    if k < |reason| && reason[k] != SP {
      Recorded(out, OnProto(proto), OnStatus(code, FirstWord(reason[k..])));
      SameEvents(out.cur, OnProto(proto), OnStatus(code, reason), OnStatus(code, FirstWord(reason[k..])));
      assert FirstWord(reason[k..])[0] == reason[k];
      if k == 0 { assert reason[k..] == reason; }
    }
    hide FeedAll, StatusLine, FirstWord, Accepts;
  }

  /** After a reason phrase without letters and spaces, such as the empty one, the next line is read as
      the reason: a response without reason loses its first header line. */
  lemma NextLineLost(env: Env, core: Core, out: Out, proto: Str, code: nat, reason: Str, line: Str)
    requires Responds(env, core, out, proto, code) && NoneOf(reason, {CR}) && Skipped(reason) == |reason|
    requires ValidReason(line)
    ensures FeedAll(env, Live(core, [], out), StatusLine(proto, code, reason) + (line + CRLF)) ==
            Live(core.(statusCode := 0, state := HeaderKeyBefore), line + CRLF,
                 Record(Record(out, OnProto(proto)), OnStatus(code, FirstWord(line))))
  {
    StatusLineRoundTrip(env, core, out, proto, code, reason);
    hide Feed, FeedAll, Digits, Accepts, Skipped, FirstWord, StatusLine, ValidReason;
    FeedAllAppend(env, Live(core, [], out), StatusLine(proto, code, reason), line + CRLF);
    FeedReasonLine(env, core.(statusCode := code, state := StatusBefore),
                   Digits(code, 10) + [SP] + reason + CRLF, Record(out, OnProto(proto)), line);
  }

  /** Host: a */
  const HOST_LINE: Str := [0x48, 0x6F, 0x73, 0x74, 0x3A, 0x20, 0x61]

  /** The response with an empty reason and the field Host: a has the reason Host: and no field. */
  lemma EmptyReason(env: Env, core: Core, out: Out, proto: Str, code: nat)
    requires Responds(env, core, out, proto, code)
    ensures var m := FeedAll(env, Live(core, [], out), StatusLine(proto, code, []) + (HOST_LINE + CRLF));
            && m.Live? && m.core.state.HeaderKeyBefore?
            && m.out.cur == out.cur + [OnProto(proto), OnStatus(code, [0x48, 0x6F, 0x73, 0x74, 0x3A])]
  {
    hide *;
    HostWord();
    NextLineLost(env, core, out, proto, code, [], HOST_LINE);
    Recorded(out, OnProto(proto), OnStatus(code, [0x48, 0x6F, 0x73, 0x74, 0x3A]));
  }

  lemma HostWord()
    ensures ValidReason(HOST_LINE) && FirstWord(HOST_LINE) == [0x48, 0x6F, 0x73, 0x74, 0x3A]
    ensures Skipped([]) == 0 && NoneOf([], {CR})
  {
    FirstWordOf(HOST_LINE, 5);
  }

  /** Not Found */
  const NOT_FOUND: Str := [0x4E, 0x6F, 0x74, 0x20, 0x46, 0x6F, 0x75, 0x6E, 0x64]

  /** The reason of a 404 response is delivered as its first word. */
  lemma NotFound(env: Env, core: Core, out: Out, proto: Str)
    requires Responds(env, core, out, proto, 404)
    ensures var m := FeedAll(env, Live(core, [], out), StatusLine(proto, 404, NOT_FOUND));
            m.Live? && m.out.cur == out.cur + [OnProto(proto), OnStatus(404, [0x4E, 0x6F, 0x74])]
  {
    hide *;
    TwoWordReason();
    StatusLineRoundTrip(env, core, out, proto, 404, NOT_FOUND);
    Recorded(out, OnProto(proto), OnStatus(404, [0x4E, 0x6F, 0x74]));
  }

  lemma TwoWordReason()
    ensures NoneOf(NOT_FOUND, {CR}) && Skipped(NOT_FOUND) == 0 && NOT_FOUND[0..] == NOT_FOUND
    ensures |NOT_FOUND| > 0 && NOT_FOUND[0] != SP && FirstWord(NOT_FOUND) == [0x4E, 0x6F, 0x74]
  {
    FirstWordOf(NOT_FOUND, 3);
  }

  lemma Recorded(out: Out, d: Event, e: Event)
    ensures Record(Record(out, d), e).cur == out.cur + [d, e]
  {
  }

  lemma {:induction false} FirstWordOf(s: Str, k: nat)
    requires k < |s| && s[k] == SP && SP !in s[..k]
    ensures FirstWord(s) == s[..k]
  {
    if k > 0 {
      assert s[..k] == [s[0]] + s[1..][..k - 1];
      FirstWordOf(s[1..], k - 1);
    }
  }

  // ---- header fields ----

  datatype Field = Field(key: Str, value: Str)

  predicate ValidField(env: Env, f: Field)
  {
    && f.key != [] && (forall i :: 0 <= i < |f.key| ==> IsToken(f.key[i])) && Canonical(env, f.key) != []
    && (f.value != [] ==> f.value[0] != SP) && NoneOf(f.value, {CR, LF})
  }

  /** What the parser makes of a field value: of an empty one, the space before it. */
  function Heard(value: Str): (r: Str) { if value == [] then [SP] else value }

  function FieldLine(f: Field): (r: Str)
  {
    (f.key + [COLON]) + [SP] + (f.value + [CR]) + [LF]
  }

  /** The fields of the parser after a header field. */
  function WithField(env: Env, core: Core, f: Field): (r: Core)
  {
    var key := Canonical(env, f.key);
    core.(headerExists := true,
          header := if IsFraming(key) then Add(core.header, key, Heard(f.value)) else core.header)
  }

  predicate BetweenFields(core: Core)
  {
    core.state.HeaderKeyBefore? && core.headerKey == [] && core.headerValue == []
  }

  lemma FeedKey(env: Env, core: Core, w: Str, out: Out, f: Field)
    requires BetweenFields(core) && !out.upgraded && ValidField(env, f)
    ensures FeedAll(env, Live(core, w, out), f.key + [COLON]) ==
            Live(core.(state := HeaderValueBefore, headerExists := true, headerKey := Canonical(env, f.key)), [], out)
  {
    hide EndOfHeader, IsFraming, Add;
    var core1 := core.(state := HeaderKey, headerExists := true);
    assert IsToken(f.key[0]);
    forall i | 1 <= i < |f.key| ensures Stays(env, core1, out, f.key[i]) { assert IsToken(f.key[i]); }
    FeedToken(env, core, w, out, core1, f.key, COLON);
  }

  lemma FeedValue(env: Env, core: Core, out: Out, f: Field)
    requires core.state.HeaderValueBefore? && core.headerValue == [] && !out.upgraded && ValidField(env, f)
    requires core.headerKey == Canonical(env, f.key)
    ensures FeedAll(env, Live(core, [SP], out), f.value + [CR]) ==
            Live(core.(state := HeaderValueLF, headerKey := [],
                       header := if IsFraming(core.headerKey) then Add(core.header, core.headerKey, Heard(f.value))
                                 else core.header),
                 [], Record(out, OnHeader(core.headerKey, Heard(f.value))))
  {
    hide EndOfHeader, IsFraming, Add, IsToken, RequestLineStep, StatusLineStep, ChunkStep, TrailerStep, Feed, FeedAll;
    if f.value == [] {
      FeedByte(env, core, [SP], out, CR);
      assert f.value + [CR] == [CR];
    } else {
      var core1 := core.(state := HeaderValue);
      forall i | 1 <= i < |f.value| ensures Stays(env, core1, out, f.value[i]) {}
      FeedToken(env, core, [SP], out, core1, f.value, CR);
    }
  }

  lemma FieldRoundTrip(env: Env, core: Core, w: Str, out: Out, f: Field)
    requires BetweenFields(core) && !out.upgraded && ValidField(env, f)
    ensures FeedAll(env, Live(core, w, out), FieldLine(f)) ==
            Live(WithField(env, core, f), [], Record(out, OnHeader(Canonical(env, f.key), Heard(f.value))))
  {
    hide Feed, FeedAll, ValidField, IsFraming, Add, EndOfHeader;
    var m, key := Live(core, w, out), Canonical(env, f.key);
    var core1 := core.(state := HeaderValueBefore, headerExists := true, headerKey := key);
    FeedKey(env, core, w, out, f);
    assert Step(env, core1, out, [], SP) == Ok(core1, out, Keep);
    FeedByte(env, core1, [], out, SP);
    FeedValue(env, core1, out, f);
    var core2, out2 := WithField(env, core, f).(state := HeaderValueLF), Record(out, OnHeader(key, Heard(f.value)));
    assert Step(env, core2, out2, [], LF) == Ok(WithField(env, core, f), out2, Next);
    FeedByte(env, core2, [], out2, LF);
    hide Step;
    assert [] + [SP] == [SP];
    FeedAllAppend(env, m, f.key + [COLON], [SP]);
    FeedAllAppend(env, m, (f.key + [COLON]) + [SP], f.value + [CR]);
    FeedAllAppend(env, m, (f.key + [COLON]) + [SP] + (f.value + [CR]), [LF]);
  }

  /** A field is delivered as written if and only if its value is not empty. */
  lemma FieldKept(env: Env, core: Core, w: Str, out: Out, f: Field)
    requires BetweenFields(core) && !out.upgraded && ValidField(env, f)
    ensures var m := FeedAll(env, Live(core, w, out), FieldLine(f));
            && m.Live? && |m.out.cur| == |out.cur| + 1
            && (m.out.cur[|out.cur|] == OnHeader(Canonical(env, f.key), f.value) <==> f.value != [])
  {
    FieldRoundTrip(env, core, w, out, f);
    hide FeedAll, FieldLine, ValidField;
  }
}
