/** Messages that follow each other on a connection are parsed independently. */
module HttpPipelining {
  import opened Bytes
  import opened HttpMachine

  predicate InLine(s: State) { InRequestLine(s) || InStatusLine(s) }

  predicate KeyInUse(s: State)
  {
    s.HeaderKey? || s.HeaderValueBefore? || s.HeaderValue? ||
    s.TrailerKey? || s.TrailerValueBefore? || s.TrailerValue?
  }

  /** Which fields may hold something, state by state. */
  predicate Clean(core: Core)
  {
    var s := core.state;
    && (InRequestLine(s) ==> !core.isClient)
    && (InStatusLine(s) ==> core.isClient)
    && (InLine(s) ==> core.header == map[])
    && (InLine(s) || (InHeader(s) && !s.HeaderOverLF?) ==> !core.chunked && core.trailer == {})
    && (!InHeader(s) ==> !core.headerExists)
    && (!s.Proto? && !s.ClientProto? ==> core.proto == [])
    && (!s.Status? ==> core.status == [])
    && (!s.StatusBefore? && !s.Status? ==> core.statusCode == 0)
    && (!KeyInUse(s) ==> core.headerKey == [])
    && (!s.TrailerValue? ==> core.headerValue == [])
  }

  /** The parser is between two messages. */
  predicate Idle(m: Machine)
  {
    m.Live? && !m.out.upgraded && m.core.state == InitialState(m.core.isClient)
  }

  predicate CleanMachine(m: Machine)
  {
    && (m.Live? && !m.out.upgraded ==> Clean(m.core))
    && (Idle(m) ==> m.pending == [] && m.out.cur == [])
  }

  /** The fields stay clean, and only the end of a message leads to the initial state. */
  predicate CleanOutcome(o: Outcome, isClient: bool)
  {
    o.Ok? ==>
      && Clean(o.core) && o.core.isClient == isClient
      && (o.core.state == InitialState(isClient) ==> o.mark.Next? && o.out.cur == [])
  }

  lemma StepClean(env: Env, core: Core, out: Out, w: Str, c: byte)
    requires !InBody(core.state) && Clean(core)
    ensures CleanOutcome(Step(env, core, out, w, c), core.isClient)
  {
    hide RequestLineStep, StatusLineStep, HeaderStep, ChunkStep, TrailerStep, Clean;
    if InRequestLine(core.state) {
      RequestLineClean(env, core, out, w, c);
    } else if InStatusLine(core.state) {
      StatusLineClean(env, core, out, w, c);
    } else if InHeader(core.state) {
      HeaderClean(env, core, out, w, c);
    } else if InChunk(core.state) {
      ChunkClean(env, core, out, w, c);
    } else if InTrailer(core.state) {
      TrailerClean(env, core, out, w, c);
    }
  }

  lemma RequestLineClean(env: Env, core: Core, out: Out, w: Str, c: byte)
    requires InRequestLine(core.state) && Clean(core)
    ensures CleanOutcome(RequestLineStep(env, core, out, w, c), core.isClient)
  {
  }

  lemma StatusLineClean(env: Env, core: Core, out: Out, w: Str, c: byte)
    requires InStatusLine(core.state) && Clean(core)
    ensures CleanOutcome(StatusLineStep(env, core, out, w, c), core.isClient)
  {
  }

  lemma HeaderClean(env: Env, core: Core, out: Out, w: Str, c: byte)
    requires InHeader(core.state) && Clean(core)
    ensures CleanOutcome(HeaderStep(env, core, out, w, c), core.isClient)
  {
    hide EndOfHeader, IsToken, Add, Canonical;
    if core.state.HeaderKeyBefore? { EndOfHeaderClean(env, core, out); }
  }

  lemma EndOfHeaderClean(env: Env, core: Core, out: Out)
    requires core.state.HeaderKeyBefore? && Clean(core)
    ensures CleanOutcome(EndOfHeader(env, core, out), core.isClient)
  {
  }

  lemma ChunkClean(env: Env, core: Core, out: Out, w: Str, c: byte)
    requires InChunk(core.state) && Clean(core)
    ensures CleanOutcome(ChunkStep(env, core, out, w, c), core.isClient)
  {
    hide IsHex, ParseChunkSize, Upgrades;
  }

  lemma TrailerClean(env: Env, core: Core, out: Out, w: Str, c: byte)
    requires InTrailer(core.state) && Clean(core)
    ensures CleanOutcome(TrailerStep(env, core, out, w, c), core.isClient)
  {
    hide IsToken, Canonical;
  }

  // ---- the two stale fields ----

  /** Equal but for a length or chunk size that is overwritten before it is read. */
  predicate Same(a: Core, b: Core)
  {
    && b == a.(contentLength := b.contentLength, chunkSize := b.chunkSize)
    && (a.state.HeaderOverLF? || a.state.BodyContentLength? ==> a.contentLength == b.contentLength)
    && (a.state.ChunkSize? || a.state.ChunkSizeLF? || a.state.ChunkData? ==> a.chunkSize == b.chunkSize)
  }

  /** The same record, of a parser that had finished the messages `first` before. */
  function After(first: seq<seq<Event>>, out: Out): (r: Out)
  {
    out.(done := first + out.done)
  }

  predicate AlikeOutcome(a: Outcome, b: Outcome, first: seq<seq<Event>>)
  {
    match a
    case Fail(e, out) => b == Fail(e, After(first, out))
    case Ok(core, out, mark) => b.Ok? && Same(core, b.core) && b.out == After(first, out) && b.mark == mark
  }

  predicate Alike(a: Machine, b: Machine, first: seq<seq<Event>>)
  {
    match a
    case Dead(e, out) => b == Dead(e, After(first, out))
    case Live(core, w, out) => b.Live? && Same(core, b.core) && b.pending == w && b.out == After(first, out)
  }

  lemma FinishAfter(env: Env, first: seq<seq<Event>>, out: Out)
    ensures Finish(env, After(first, out)) == After(first, Finish(env, out))
  {
    assert first + out.done + [out.cur + [OnComplete]] == first + (out.done + [out.cur + [OnComplete]]);
  }

  lemma LineAlike(env: Env, a: Core, b: Core, out: Out, first: seq<seq<Event>>, w: Str, c: byte)
    requires Same(a, b) && InRequestLine(a.state)
    ensures AlikeOutcome(RequestLineStep(env, a, out, w, c),
                         RequestLineStep(env, b, After(first, out), w, c), first)
  {
    hide IsAlpha, IsMethodChar, IsValidMethod;
  }

  lemma StatusAlike(env: Env, a: Core, b: Core, out: Out, first: seq<seq<Event>>, w: Str, c: byte)
    requires Same(a, b) && InStatusLine(a.state)
    ensures AlikeOutcome(StatusLineStep(env, a, out, w, c),
                         StatusLineStep(env, b, After(first, out), w, c), first)
  {
    hide IsAlpha, IsNum, ParseInt;
  }

  lemma HeaderAlike(env: Env, a: Core, b: Core, out: Out, first: seq<seq<Event>>, w: Str, c: byte)
    requires Same(a, b) && InHeader(a.state)
    ensures AlikeOutcome(HeaderStep(env, a, out, w, c), HeaderStep(env, b, After(first, out), w, c), first)
  {
    hide IsToken, Canonical, Add, EndOfHeader, Finish;
    if a.state.HeaderKeyBefore? { EndAlike(env, a, b, out, first); }
    if a.state.HeaderOverLF? { FinishAfter(env, first, out); }
  }

  lemma EndAlike(env: Env, a: Core, b: Core, out: Out, first: seq<seq<Event>>)
    requires Same(a, b)
    ensures AlikeOutcome(EndOfHeader(env, a, out), EndOfHeader(env, b, After(first, out)), first)
  {
    hide ParseInt, TrimLength, TrailerSet, Trim, ToLower, First;
  }

  lemma ChunkAlike(env: Env, a: Core, b: Core, out: Out, first: seq<seq<Event>>, w: Str, c: byte)
    requires Same(a, b) && InChunk(a.state)
    ensures AlikeOutcome(ChunkStep(env, a, out, w, c), ChunkStep(env, b, After(first, out), w, c), first)
  {
    hide IsHex, ParseChunkSize, Finish;
    FinishAfter(env, first, out);
  }

  lemma TrailerAlike(env: Env, a: Core, b: Core, out: Out, first: seq<seq<Event>>, w: Str, c: byte)
    requires Same(a, b) && InTrailer(a.state)
    ensures AlikeOutcome(TrailerStep(env, a, out, w, c), TrailerStep(env, b, After(first, out), w, c), first)
  {
    hide IsToken, Canonical;
  }

  lemma StepAlike(env: Env, a: Core, b: Core, out: Out, first: seq<seq<Event>>, w: Str, c: byte)
    requires Same(a, b) && !InBody(a.state)
    ensures AlikeOutcome(Step(env, a, out, w, c), Step(env, b, After(first, out), w, c), first)
  {
    hide RequestLineStep, StatusLineStep, HeaderStep, ChunkStep, TrailerStep;
    if InRequestLine(a.state) {
      LineAlike(env, a, b, out, first, w, c);
    } else if InStatusLine(a.state) {
      StatusAlike(env, a, b, out, first, w, c);
    } else if InHeader(a.state) {
      HeaderAlike(env, a, b, out, first, w, c);
    } else if InChunk(a.state) {
      ChunkAlike(env, a, b, out, first, w, c);
    } else if InTrailer(a.state) {
      TrailerAlike(env, a, b, out, first, w, c);
    }
  }

  lemma FeedAlike(env: Env, a: Machine, b: Machine, first: seq<seq<Event>>, c: byte)
    requires Alike(a, b, first)
    ensures Alike(Feed(env, a, c), Feed(env, b, c), first)
  {
    hide Step, Finish;
    if a.Live? && !a.out.upgraded {
      if InBody(a.core.state) {
        FinishAfter(env, first, Record(a.out, OnBody(a.pending + [c])));
      } else {
        StepAlike(env, a.core, b.core, a.out, first, a.pending, c);
      }
    }
  }

  lemma {:induction false} FeedAllAlike(env: Env, a: Machine, b: Machine, first: seq<seq<Event>>, s: Str)
    requires Alike(a, b, first)
    ensures Alike(FeedAll(env, a, s), FeedAll(env, b, s), first)
  {
    hide Feed, Alike;
    if s != [] {
      FeedAllAlike(env, a, b, first, s[..|s| - 1]);
      FeedAlike(env, FeedAll(env, a, s[..|s| - 1]), FeedAll(env, b, s[..|s| - 1]), first, s[|s| - 1]);
    }
  }

  // ---- independence ----

  lemma FeedClean(env: Env, m: Machine, c: byte)
    requires CleanMachine(m)
    ensures CleanMachine(Feed(env, m, c))
    ensures m.Live? && Feed(env, m, c).Live? ==> Feed(env, m, c).core.isClient == m.core.isClient
  {
    hide Step;
    if m.Live? && !m.out.upgraded && !InBody(m.core.state) {
      StepClean(env, m.core, m.out, m.pending, c);
    }
  }

  lemma {:induction false} ReachableClean(env: Env, isClient: bool, s: Str)
    ensures var m := FeedAll(env, Fresh(isClient), s); CleanMachine(m) && (m.Live? ==> m.core.isClient == isClient)
  {
    hide Feed;
    if s != [] {
      ReachableClean(env, isClient, s[..|s| - 1]);
      var before := FeedAll(env, Fresh(isClient), s[..|s| - 1]);
      FeedClean(env, before, s[|s| - 1]);
      if before.Dead? { DeadStays(env, before, [s[|s| - 1]]); }
    }
  }

  /** A parser that has just finished a message is a fresh parser, but for its history. */
  lemma FreshAgain(env: Env, isClient: bool, s: Str)
    requires Idle(FeedAll(env, Fresh(isClient), s))
    ensures var m := FeedAll(env, Fresh(isClient), s);
            WellFormed(m) && Alike(Fresh(isClient), m, m.out.done)
  {
    hide Feed;
    ReachableClean(env, isClient, s);
    FeedAllWellFormed(env, Fresh(isClient), s);
    var m := FeedAll(env, Fresh(isClient), s);
    assert m.out.done + [] == m.out.done;
  }

  /** Bytes that follow complete messages mean what they mean at the start of a connection. */
  lemma Pipelined(env: Env, isClient: bool, a: Str, b: Str)
    requires Idle(FeedAll(env, Fresh(isClient), a))
    ensures Alike(FeedAll(env, Fresh(isClient), b), FeedAll(env, Fresh(isClient), a + b),
                  FeedAll(env, Fresh(isClient), a).out.done)
  {
    hide Feed, Alike;
    var m := FeedAll(env, Fresh(isClient), a);
    FreshAgain(env, isClient, a);
    FeedAllAppend(env, Fresh(isClient), a, b);
    FeedAllAlike(env, Fresh(isClient), m, m.out.done, b);
  }

  /** What each of a list of complete messages records on its own, joined. */
  function Records(env: Env, isClient: bool, messages: seq<Str>): (r: seq<seq<Event>>)
  {
    if messages == [] then []
    else FeedAll(env, Fresh(isClient), messages[0]).out.done + Records(env, isClient, messages[1..])
  }

  /** The record of a pipelined stream is the records of its messages, one after the other. */
  lemma {:induction false} PipelinedAll(env: Env, isClient: bool, messages: seq<Str>)
    requires forall i :: 0 <= i < |messages| ==> Idle(FeedAll(env, Fresh(isClient), messages[i]))
    ensures var m := FeedAll(env, Fresh(isClient), Concat(messages));
            Idle(m) && m.out.done == Records(env, isClient, messages)
  {
    hide Feed;
    if messages != [] {
      PipelinedAll(env, isClient, messages[1..]);
      Pipelined(env, isClient, messages[0], Concat(messages[1..]));
    }
  }
}
