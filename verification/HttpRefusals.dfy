/** The processor's refusals. It is asked about the target, the version and every body; a refusal ends the
    connection there. So the parser does, up to the first refusal, what it does when nothing is refused. */
module HttpRefusals {
  import opened Bytes
  import opened HttpMachine

  /** The events at which the processor is asked. */
  predicate Asked(e: Event) { e.OnURL? || e.OnProto? || e.OnBody? }

  /** The same surroundings, with a processor that refuses nothing. */
  function Lenient(env: Env): (r: Env)
  {
    Env(_ => None, env.upgrades, env.canonical, env.toUpper, env.toLower)
  }

  lemma LenientSame(env: Env)
    ensures forall events: seq<Event> :: Reject(Lenient(env), events) == None
    ensures forall events: seq<Event> :: Upgrades(Lenient(env), events) == Upgrades(env, events)
    ensures forall s: Str :: Canonical(Lenient(env), s) == Canonical(env, s)
    ensures forall s: Str :: ToUpper(Lenient(env), s) == ToUpper(env, s)
    ensures forall s: Str :: ToLower(Lenient(env), s) == ToLower(env, s)
  {
  }

  // ---- the first refusal in a record ----

  /** Up to which event the record of a message goes when it is refused. */
  function RefusedIn(env: Env, msg: seq<Event>): (j: Option<nat>)
    ensures j.Some? ==> 0 < j.value <= |msg| && Reject(env, msg[..j.value]).Some?
  {
    if msg == [] then None
    else
      var n := |msg| - 1;
      var before := RefusedIn(env, msg[..n]);
      if before.Some? then
        assert msg[..n][..before.value] == msg[..before.value];
        before
      else if Asked(msg[n]) && Reject(env, msg).Some? then
        assert msg[..|msg|] == msg;
        Some(|msg|)
      else None
  }

  predicate RefusedAt(env: Env, msg: seq<Event>, j: nat)
  {
    0 < j <= |msg| && Asked(msg[j - 1]) && Reject(env, msg[..j]).Some?
  }

  /** It is the first event at which the processor is asked and refuses. */
  lemma {:induction false} FirstRefusal(env: Env, msg: seq<Event>)
    ensures RefusedIn(env, msg) == None <==> forall j: nat :: !RefusedAt(env, msg, j)
    ensures forall j: nat :: RefusedIn(env, msg) == Some(j) ==>
              RefusedAt(env, msg, j) && forall i: nat :: i < j ==> !RefusedAt(env, msg, i)
  {
    if msg != [] {
      var n := |msg| - 1;
      FirstRefusal(env, msg[..n]);
      assert msg[..|msg|] == msg;
      assert RefusedAt(env, msg, |msg|) <==> Asked(msg[n]) && Reject(env, msg).Some?;
      forall j: nat | j <= n ensures RefusedAt(env, msg, j) <==> RefusedAt(env, msg[..n], j) {
        assert msg[..n][..j] == msg[..j];
      }
      var before := RefusedIn(env, msg[..n]);
      if before.Some? { assert RefusedAt(env, msg[..n], before.value); }
    }
  }

  /** The machine that a refusal in this message leaves, after the messages done. */
  function Stopped(env: Env, done: seq<seq<Event>>, msg: seq<Event>): (m: Option<Machine>)
  {
    match RefusedIn(env, msg)
    case None => None
    case Some(j) => Some(Dead(Rejected(Reject(env, msg[..j]).value), Out(done, msg[..j], false, [])))
  }

  function StoppedAmong(env: Env, done: seq<seq<Event>>): (m: Option<Machine>)
  {
    if done == [] then None
    else
      var n := |done| - 1;
      var before := StoppedAmong(env, done[..n]);
      if before.Some? then before else Stopped(env, done[..n], done[n])
  }

  /** What the first refusal in all that has been recorded leaves, if there is one. */
  function Judged(env: Env, out: Out): (m: Option<Machine>)
  {
    var before := StoppedAmong(env, out.done);
    if before.Some? then before else Stopped(env, out.done, out.cur)
  }

  lemma RefusedSnoc(env: Env, msg: seq<Event>, e: Event)
    ensures RefusedIn(env, msg + [e]) ==
            if RefusedIn(env, msg).Some? then RefusedIn(env, msg)
            else if Asked(e) && Reject(env, msg + [e]).Some? then Some(|msg| + 1) else None
  {
    assert (msg + [e])[..|msg|] == msg;
  }

  /** A recorded event matters when it is the first one refused. */
  lemma JudgedRecord(env: Env, out: Out, e: Event)
    ensures Judged(env, out).Some? ==> Judged(env, Record(out, e)) == Judged(env, out)
    ensures Judged(env, out) == None && !out.upgraded && out.handed == [] ==>
              Judged(env, Record(out, e)) ==
              if Asked(e) && Reject(env, out.cur + [e]).Some? then
                Some(Dead(Rejected(Reject(env, out.cur + [e]).value), Record(out, e)))
              else None
  {
    RefusedSnoc(env, out.cur, e);
    FirstRefusal(env, out.cur);
    var cur := out.cur + [e];
    assert cur[..|cur|] == cur;
    var j := RefusedIn(env, out.cur);
    if j.Some? { assert cur[..j.value] == out.cur[..j.value]; }
    hide RefusedIn, StoppedAmong;
  }

  /** The end of a message changes nothing. */
  lemma JudgedFinish(env: Env, out: Out)
    ensures Judged(env, Finish(env, out)) == Judged(env, out)
  {
    var msg := out.cur + [OnComplete];
    RefusedSnoc(env, out.cur, OnComplete);
    var j := RefusedIn(env, out.cur);
    if j.Some? { assert msg[..j.value] == out.cur[..j.value]; }
    assert (out.done + [msg])[..|out.done|] == out.done;
    assert RefusedIn(env, []) == None;
    hide RefusedIn;
  }

  // ---- one byte ----

  /** What a step records: nothing, an event, or the end of the message. */
  ghost predicate Records(env: Env, out: Out, next: Out)
  {
    next == out || (exists e :: next == Record(out, e)) || next == Finish(env, out)
  }

  /** The outcome, given the one when nothing is refused. */
  ghost predicate Answers(env: Env, out: Out, lenient: Outcome, o: Outcome)
  {
    && Records(env, out, lenient.out)
    && (Silent(env, out, lenient.out) ==> o == lenient)
    && (forall e :: lenient.out == Record(out, e) && Asked(e) && Reject(env, out.cur + [e]).Some? ==>
          o == Fail(Rejected(Reject(env, out.cur + [e]).value), Record(out, e)))
  }

  /** The record has no event more that is refused. */
  ghost predicate Silent(env: Env, out: Out, next: Out)
  {
    forall e :: next == Record(out, e) ==> !Asked(e) || Reject(env, out.cur + [e]) == None
  }

  lemma {:induction false} SameNames(env: Env, names: seq<Str>)
    ensures TrailerNames(Lenient(env), names) == TrailerNames(env, names)
  {
    LenientSame(env);
    hide Lenient;
    if names != [] { SameNames(env, names[..|names| - 1]); }
  }

  lemma {:induction false} SameSet(env: Env, values: seq<Str>)
    ensures TrailerSet(Lenient(env), values) == TrailerSet(env, values)
  {
    hide Lenient, TrailerNames;
    if values != [] {
      SameSet(env, values[..|values| - 1]);
      SameNames(env, Split(Trim(values[|values| - 1])));
    }
  }

  lemma SameEnd(env: Env, core: Core, out: Out)
    ensures EndOfHeader(Lenient(env), core, out) == EndOfHeader(env, core, out)
  {
    LenientSame(env);
    hide Lenient, WithContentLength, WithTrailer, Trim;
    assert WithTransferEncoding(Lenient(env), core) == WithTransferEncoding(env, core);
    hide WithTransferEncoding;
    forall c ensures WithTrailer(Lenient(env), c) == WithTrailer(env, c) { SameTrailer(env, c); }
  }

  lemma SameTrailer(env: Env, core: Core)
    ensures WithTrailer(Lenient(env), core) == WithTrailer(env, core)
  {
    hide Lenient, TrailerSet;
    if TRAILER in core.header { SameSet(env, core.header[TRAILER]); }
  }

  lemma EventOf(out: Out, e: Event)
    ensures forall f :: Record(out, f) == Record(out, e) ==> f == e
    ensures Record(out, e) != out
  {
    forall f | Record(out, f) == Record(out, e) ensures f == e {
      assert (out.cur + [f])[|out.cur|] == (out.cur + [e])[|out.cur|];
    }
  }

  lemma FinishSilent(env: Env, out: Out)
    ensures Silent(env, out, Finish(env, out)) && Silent(env, out, out)
    ensures forall e :: Record(out, e) != Finish(env, out) && Record(out, e) != out
  {
  }

  lemma RequestLineAnswers(env: Env, core: Core, out: Out, w: Str, c: byte)
    requires InRequestLine(core.state)
    ensures Answers(env, out, RequestLineStep(Lenient(env), core, out, w, c), RequestLineStep(env, core, out, w, c))
  {
    LenientSame(env);
    FinishSilent(env, out);
    hide Lenient, IsAlpha, IsMethodChar;
    match core.state
    case Method => EventOf(out, OnMethod(ToUpper(env, w)));
    case Path => EventOf(out, OnURL(w));
    case Proto => EventOf(out, OnProto(OrElse(core.proto, w)));
    case _ =>
  }

  lemma StatusLineAnswers(env: Env, core: Core, out: Out, w: Str, c: byte)
    requires InStatusLine(core.state)
    ensures Answers(env, out, StatusLineStep(Lenient(env), core, out, w, c), StatusLineStep(env, core, out, w, c))
  {
    LenientSame(env);
    FinishSilent(env, out);
    hide Lenient, IsAlpha, IsNum, ParseInt;
    match core.state
    case ClientProto => EventOf(out, OnProto(OrElse(core.proto, w)));
    case Status => EventOf(out, OnStatus(core.statusCode, OrElse(core.status, w)));
    case _ =>
  }

  /** Elsewhere the processor is not asked. */
  lemma HeaderAnswers(env: Env, core: Core, out: Out, w: Str, c: byte)
    requires InHeader(core.state)
    ensures Answers(env, out, HeaderStep(Lenient(env), core, out, w, c), HeaderStep(env, core, out, w, c))
  {
    LenientSame(env);
    FinishSilent(env, out);
    SameEnd(env, core, out);
    if core.state.HeaderKeyBefore? { EndRecords(env, core, out); }
    EventOf(out, OnHeader(core.headerKey, OrElse(core.headerValue, w)));
    hide Lenient, EndOfHeader, IsToken, IsFraming, Add;
  }

  lemma EndRecords(env: Env, core: Core, out: Out)
    ensures var o := EndOfHeader(env, core, out); Records(env, out, o.out) && Silent(env, out, o.out)
    ensures forall e :: EndOfHeader(env, core, out).out == Record(out, e) ==> !Asked(e)
  {
    match WithTransferEncoding(env, core)
    case Bad(_) => FinishSilent(env, out);
    case Good(c1) =>
      match WithContentLength(c1)
      case Bad(_) => FinishSilent(env, out);
      case Good(c2) =>
        EventOf(out, OnContentLength(c2.contentLength));
        hide WithTransferEncoding, WithContentLength;
  }

  lemma ChunkAnswers(env: Env, core: Core, out: Out, w: Str, c: byte)
    requires InChunk(core.state)
    ensures Answers(env, out, ChunkStep(Lenient(env), core, out, w, c), ChunkStep(env, core, out, w, c))
  {
    LenientSame(env);
    FinishSilent(env, out);
    hide Lenient, IsHex, ParseChunkSize;
  }

  lemma TrailerAnswers(env: Env, core: Core, out: Out, w: Str, c: byte)
    requires InTrailer(core.state)
    ensures Answers(env, out, TrailerStep(Lenient(env), core, out, w, c), TrailerStep(env, core, out, w, c))
  {
    LenientSame(env);
    FinishSilent(env, out);
    EventOf(out, OnTrailerHeader(core.headerKey, OrElse(core.headerValue, w)));
    hide Lenient, IsToken;
  }

  lemma StepAnswers(env: Env, core: Core, out: Out, w: Str, c: byte)
    requires !InBody(core.state)
    ensures Answers(env, out, Step(Lenient(env), core, out, w, c), Step(env, core, out, w, c))
  {
    hide RequestLineStep, StatusLineStep, HeaderStep, ChunkStep, TrailerStep, Answers, Lenient;
    if core.state.Closed? {
      FinishSilent(env, out);
      assert Answers(env, out, Fail(NetClosed, out), Fail(NetClosed, out)) by { ClosedAnswers(env, out); }
    } else if InRequestLine(core.state) {
      RequestLineAnswers(env, core, out, w, c);
    } else if InStatusLine(core.state) {
      StatusLineAnswers(env, core, out, w, c);
    } else if InHeader(core.state) {
      HeaderAnswers(env, core, out, w, c);
    } else if InChunk(core.state) {
      ChunkAnswers(env, core, out, w, c);
    } else {
      TrailerAnswers(env, core, out, w, c);
    }
  }

  lemma ClosedAnswers(env: Env, out: Out)
    ensures Answers(env, out, Fail(NetClosed, out), Fail(NetClosed, out))
  {
    FinishSilent(env, out);
  }

  /** What the record makes of the machine that is reached when nothing is refused. */
  function Verdict(env: Env, lenient: Machine): (m: Machine)
  {
    match Judged(env, lenient.out)
    case Some(m) => m
    case None => lenient
  }

  lemma StepVerdict(env: Env, m: Machine, c: byte)
    requires m.Live? && !m.out.upgraded && m.out.handed == [] && !InBody(m.core.state) && Judged(env, m.out) == None
    ensures Feed(env, m, c) == Verdict(env, Feed(Lenient(env), m, c))
  {
    var out, o := m.out, Step(Lenient(env), m.core, m.out, m.pending, c);
    StepAnswers(env, m.core, out, m.pending, c);
    hide Lenient, Step, Judged;
    if e :| o.out == Record(out, e) {
      JudgedRecord(env, out, e);
      EventOf(out, e);
    } else if o.out == Finish(env, out) {
      JudgedFinish(env, out);
    }
  }

  lemma BodyVerdict(env: Env, m: Machine, c: byte)
    requires m.Live? && !m.out.upgraded && m.out.handed == [] && InBody(m.core.state) && Judged(env, m.out) == None
    ensures Feed(env, m, c) == Verdict(env, Feed(Lenient(env), m, c))
  {
    LenientSame(env);
    var e := OnBody(m.pending + [c]);
    JudgedRecord(env, m.out, e);
    JudgedFinish(env, Record(m.out, e));
    hide Lenient, Judged;
  }

  /** A refusal that has happened is the first one for good. */
  lemma StepKeepsVerdict(env: Env, m: Machine, c: byte)
    requires m.Live? && !m.out.upgraded && !InBody(m.core.state) && Judged(env, m.out).Some?
    ensures Judged(env, Feed(Lenient(env), m, c).out) == Judged(env, m.out)
  {
    var out, o := m.out, Step(Lenient(env), m.core, m.out, m.pending, c);
    StepAnswers(env, m.core, out, m.pending, c);
    hide Lenient, Step, Judged;
    if e :| o.out == Record(out, e) {
      JudgedRecord(env, out, e);
    } else if o.out == Finish(env, out) {
      JudgedFinish(env, out);
    }
  }

  lemma FeedKeepsVerdict(env: Env, m: Machine, c: byte)
    requires Judged(env, m.out).Some?
    ensures Judged(env, Feed(Lenient(env), m, c).out) == Judged(env, m.out)
  {
    if m.Dead? {
    } else if !m.out.upgraded && !InBody(m.core.state) {
      StepKeepsVerdict(env, m, c);
    } else {
      LenientSame(env);
      var e := OnBody(m.pending + [c]);
      JudgedRecord(env, m.out, e);
      JudgedFinish(env, Record(m.out, e));
      HandedOn(env, m.out, c);
      hide Lenient, Judged;
    }
  }

  lemma HandedOn(env: Env, out: Out, c: byte)
    ensures Judged(env, out.(handed := out.handed + [c])) == Judged(env, out)
  {
  }

  /** For every stream of bytes: if the processor refuses none of what the parser would record of it were
      nothing refused, that is what the parser does; otherwise it ends with the first refusal, with the
      record up to the refused event. */
  lemma {:induction false} RefusalExact(env: Env, isClient: bool, s: Str)
    ensures FeedAll(env, Fresh(isClient), s) == Verdict(env, FeedAll(Lenient(env), Fresh(isClient), s))
  {
    if s == [] {
      assert Judged(env, NOTHING) == None;
    } else {
      var k := |s| - 1;
      RefusalExact(env, isClient, s[..k]);
      var m, c := FeedAll(Lenient(env), Fresh(isClient), s[..k]), s[k];
      FeedAllWellFormed(Lenient(env), Fresh(isClient), s[..k]);
      hide Lenient, Judged;
      if Judged(env, m.out).Some? {
        JudgedDead(env, m.out);
        FeedKeepsVerdict(env, m, c);
      } else if m.Live? {
        if m.out.upgraded {
          HandedOn(env, m.out, c);
        } else if InBody(m.core.state) {
          BodyVerdict(env, m, c);
        } else {
          StepVerdict(env, m, c);
        }
      }
    }
  }

  lemma {:induction false} StoppedDead(env: Env, done: seq<seq<Event>>)
    ensures StoppedAmong(env, done).Some? ==> StoppedAmong(env, done).value.Dead?
  {
    if done != [] { StoppedDead(env, done[..|done| - 1]); }
  }

  lemma JudgedDead(env: Env, out: Out)
    ensures Judged(env, out).Some? ==> Judged(env, out).value.Dead?
  {
    StoppedDead(env, out.done);
  }

  // ---- where the processor is asked ----

  /** A body, or a chunk of one, whose last byte arrives: its refusal ends the connection; otherwise a body
      with a length ends its message, and after a chunk the line end is expected. */
  lemma BodyAnswered(env: Env, m: Machine, s: Str)
    requires m.Live? && !m.out.upgraded && InBody(m.core.state)
    requires 0 < |s| && |m.pending| + |s| == BodyLength(m.core)
    ensures
      var body := OnBody(m.pending + s);
      FeedAll(env, m, s) ==
      match Reject(env, m.out.cur + [body])
      case Some(e) => Dead(Rejected(e), Record(m.out, body))
      case None =>
        if m.core.state.BodyContentLength? then Live(Reset(m.core), [], Finish(env, Record(m.out, body)))
        else Live(m.core.(state := ChunkDataCR), [], Record(m.out, body))
  {
    BodyBytes(env, m, s);
    hide FeedAll;
  }
}
