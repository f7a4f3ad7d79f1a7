/** What the pool can still do by itself: when every task submitted can be finished without another Go,
    and how Stop ends everything. */
module TaskPoolProgress {
  import opened JobQueue
  import opened TaskPool

  /** A step of the pool and its callers, not a new call from outside. */
  predicate Own(a: Action) { !a.Go? && !OfStop(a) }

  predicate AllOwn(acts: seq<Action>) { forall i :: 0 <= i < |acts| ==> Own(acts[i]) }

  predicate AllFinished(s: State) { forall f: Job :: f < s.submitted ==> f in s.finished }

  /** The dispatcher waits for a slot with a task in its hand; every slot is free, no token lies ready, no
      worker is about to leave one, and no caller is about to try for a slot. */
  predicate Abandoned(s: State)
  {
    && s.dispatcher.With? && s.dispatcher.phase != Trying && !s.slot
    && Holders(s) + s.signalling == 0 && s.acquiring == multiset{}
  }

  function Weight(d: Dispatcher, stopped: bool): nat
  {
    match d
    case Gone => 0
    case Idle => 1
    case With(_, Waiting) => 8
    case With(_, Undoing) => 9
    case With(_, Trying) => if stopped then 10 else 7
  }

  function Measure(s: State): nat
  {
    10 * |s.acquiring| + 9 * |s.undoing| + 8 * |s.blocked| + 8 * |s.queue| + Weight(s.dispatcher, s.stopped) +
    5 * |s.running| + 4 * s.fetching + 3 * s.releasing + 2 * s.signalling
  }

  /** A step forward that leaves stopped and closed as they are. */
  predicate Forward(s: State, a: Action)
  {
    var next := Do(s, a);
    Own(a) && Measure(next) < Measure(s) && next.stopped == s.stopped && next.closed == s.closed &&
    next.submitted == s.submitted
  }

  /** Some worker is on its way. */
  predicate Busy(s: State) { Holders(s) + s.signalling > 0 }

  /** A step of a worker keeps a pool busy, or leaves a token. */
  lemma WorkerGoesOn(s: State, a: Action)
    requires (a.WorkerRun? && a.task in s.running) || (a.WorkerTake? && s.fetching > 0 && s.queue != [])
    ensures Forward(s, a) && Busy(Do(s, a))
  {
    hide More, Less, CallerStep, DispatcherStep, StopStep, Weight;
    match a
    case WorkerRun(f) => assert Do(s, a).fetching == s.fetching + 1;
    case WorkerTake => assert |Do(s, a).queue| == |s.queue| - 1;
  }

  lemma WorkerLeaves(s: State, a: Action)
    requires || (a.WorkerLeave? && s.fetching > 0 && s.queue == [])
             || (a.WorkerRelease? && s.releasing > 0)
             || (a.WorkerSignal? && s.signalling > 0)
    ensures Forward(s, a) && (Busy(Do(s, a)) || Do(s, a).slot)
  {
    hide More, Less, CallerStep, DispatcherStep, StopStep, Weight;
    match a
    case WorkerLeave => assert Do(s, a).releasing == s.releasing + 1;
    case WorkerRelease => assert Do(s, a).signalling == s.signalling + 1;
    case WorkerSignal => assert Do(s, a).slot;
  }

  lemma WorkerMoves(s: State) returns (a: Action)
    requires Busy(s)
    ensures Forward(s, a) && (Busy(Do(s, a)) || Do(s, a).slot)
  {
    hide Forward, Do;
    if s.running != multiset{} {
      var f :| f in s.running;
      a := WorkerRun(f);
      WorkerGoesOn(s, a);
    } else if s.fetching > 0 && s.queue != [] {
      a := WorkerTake;
      WorkerGoesOn(s, a);
    } else {
      a := if s.fetching > 0 then WorkerLeave else if s.releasing > 0 then WorkerRelease else WorkerSignal;
      WorkerLeaves(s, a);
    }
  }

  /** A failed attempt is taken back. */
  lemma CallerRetreats(s: State, f: Job)
    requires f in s.undoing
    ensures Forward(s, CallerUndo(f)) && (Abandoned(Do(s, CallerUndo(f))) <==> Abandoned(s))
  {
    hide More, Less, DispatcherStep, WorkerStep, StopStep, Weight;
  }

  lemma DispatcherRetreats(s: State)
    requires s.dispatcher.At(Undoing)
    ensures Forward(s, DispUndo) && (Abandoned(Do(s, DispUndo)) <==> Abandoned(s))
  {
    hide More, Less, CallerStep, WorkerStep, StopStep;
  }

  lemma Retreats(s: State) returns (a: Action)
    requires InFlight(s) > 0
    ensures Forward(s, a) && (Abandoned(Do(s, a)) <==> Abandoned(s))
  {
    hide Forward, Do, Abandoned;
    if s.dispatcher.At(Undoing) {
      DispatcherRetreats(s);
      a := DispUndo;
    } else {
      var f :| f in s.undoing;
      CallerRetreats(s, f);
      a := CallerUndo(f);
    }
  }

  /** With every slot free, a caller or the dispatcher gets one. */
  lemma CallerStarts(s: State) returns (a: Action)
    requires Counted(s) && !s.stopped && !Busy(s) && InFlight(s) == 0 && s.acquiring != multiset{}
    ensures Forward(s, a) && !Abandoned(Do(s, a))
  {
    hide More, Less;
    var f :| f in s.acquiring;
    a := CallerAdd(f);
  }

  lemma DispatcherStarts(s: State) returns (a: Action)
    requires Counted(s) && !s.stopped && !Busy(s) && InFlight(s) == 0 && s.acquiring == multiset{}
    requires !Abandoned(s) && !(s.dispatcher.Idle? && s.queue == [] && s.blocked == multiset{})
    ensures Forward(s, a) && !Abandoned(Do(s, a))
  {
    hide More, Less, CallerStep, WorkerStep, StopStep;
    if s.dispatcher.At(Trying) {
      a := DispAdd;
    } else if s.dispatcher.At(Waiting) {
      a := DispToken;
    } else if s.queue != [] {
      a := DispTake;
    } else {
      var f :| f in s.blocked;
      a := DispMeet(f);
    }
  }

  /** Nothing is left to do. */
  lemma Rests(s: State)
    requires Inv(s) && !s.stopped && !Busy(s) && InFlight(s) == 0 && s.acquiring == multiset{}
    requires s.dispatcher.Idle? && s.queue == [] && s.blocked == multiset{}
    ensures AllFinished(s)
  {
    assert |s.running| == 0 && |s.undoing| == 0;
    forall f: Job | f < s.submitted ensures f in s.finished {
      assert Places(s, f) == 1;
      assert InQueue(s.queue, f) == 0;
    }
  }

  /** A pool that is neither stopped nor abandoned finishes every task submitted, by itself. */
  lemma {:induction false} Finishes(s: State) returns (acts: seq<Action>)
    requires Inv(s) && !s.stopped && !Abandoned(s)
    ensures AllOwn(acts) && AllFinished(Run(s, acts)) && Run(s, acts).submitted == s.submitted
    decreases Measure(s)
  {
    hide Do, Measure, Conserved, AllFinished;
    var a: Action;
    if InFlight(s) > 0 {
      a := Retreats(s);
    } else if Busy(s) {
      a := WorkerMoves(s);
    } else if s.acquiring != multiset{} {
      a := CallerStarts(s);
    } else if s.dispatcher.Idle? && s.queue == [] && s.blocked == multiset{} {
      Rests(s);
      return [];
    } else {
      a := DispatcherStarts(s);
    }
    StepKeeps(s, a);
    var rest := Finishes(Do(s, a));
    acts := [a] + rest;
    assert acts[1..] == rest;
  }

  /** An abandoned pool stays so: the task in the dispatcher's hand is not finished. */
  lemma AbandonedStep(s: State, a: Action)
    requires Abandoned(s) && !s.stopped && !s.closed && Own(a)
    ensures
      var next := Do(s, a);
      && Abandoned(next) && !next.stopped && !next.closed && next.submitted == s.submitted
      && next.dispatcher.task == s.dispatcher.task
  {
    hide More, Less;
  }

  lemma {:induction false} AbandonedStays(s: State, acts: seq<Action>)
    requires Inv(s) && Abandoned(s) && !s.stopped && AllOwn(acts)
    ensures Abandoned(Run(s, acts)) && !AllFinished(Run(s, acts))
    decreases |acts|
  {
    if acts == [] {
      var f := s.dispatcher.task;
      assert Places(s, f) <= 1;
      assert f < s.submitted;
    } else {
      AbandonedStep(s, acts[0]);
      StepKeeps(s, acts[0]);
      AbandonedStays(Do(s, acts[0]), acts[1..]);
    }
  }

  ghost predicate CanFinish(s: State) { exists acts: seq<Action> :: AllOwn(acts) && AllFinished(Run(s, acts)) }

  /** The tasks of a pool that is not stopped can all be finished without another call if and only if
      the dispatcher is not abandoned. */
  lemma ProgressExact(s: State)
    requires Inv(s) && !s.stopped
    ensures CanFinish(s) <==> !Abandoned(s)
  {
    hide Inv, Abandoned, AllFinished, Run;
    if Abandoned(s) {
      forall acts: seq<Action> | AllOwn(acts) ensures !AllFinished(Run(s, acts)) { AbandonedStays(s, acts); }
    } else {
      var acts := Finishes(s);
    }
  }

  /** On every run without a missed wake-up, every task submitted can be finished. */
  lemma NoneMissedFinishes(maxConcurrent: int, size: nat, acts: seq<Action>)
    requires NoneMissed(New(maxConcurrent, size), acts) && !Run(New(maxConcurrent, size), acts).stopped
    ensures CanFinish(Run(New(maxConcurrent, size), acts))
  {
    var first := New(maxConcurrent, size);
    NewPool(maxConcurrent, size);
    Safety(first, acts);
    AlwaysWatched(first, acts);
    assert acts[..|acts|] == acts;
    ProgressExact(Run(first, acts));
  }

  // ---- Stop ----

  /** No caller is left inside, no worker is left, and the dispatcher is gone. */
  predicate Ended(s: State)
  {
    && s.acquiring == multiset{} && s.undoing == multiset{} && s.blocked == multiset{}
    && s.dispatcher.Gone? && Holders(s) + s.signalling == 0
  }

  lemma CallerLeaves(s: State) returns (a: Action)
    requires Counted(s) && s.closed && s.acquiring + s.undoing + s.blocked != multiset{}
    ensures Forward(s, a)
  {
    hide More, Less;
    var f :| f in s.acquiring + s.undoing + s.blocked;
    a := if f in s.acquiring then CallerAdd(f) else if f in s.undoing then CallerUndo(f) else CallerGiveUp(f);
  }

  lemma DispatcherQuits(s: State)
    requires s.closed && (s.dispatcher.Idle? || s.dispatcher.At(Waiting))
    ensures Forward(s, DispQuit)
  {
    hide More, Less, CallerStep, WorkerStep, StopStep;
  }

  lemma DispatcherLeaves(s: State) returns (a: Action)
    requires Counted(s) && s.closed && !s.dispatcher.Gone?
    ensures Forward(s, a)
  {
    hide More, Less, CallerStep, WorkerStep, StopStep;
    if s.dispatcher.At(Trying) {
      a := DispAdd;
    } else if s.dispatcher.At(Undoing) {
      DispatcherRetreats(s);
      a := DispUndo;
    } else {
      DispatcherQuits(s);
      a := DispQuit;
    }
  }

  lemma {:induction false} ClosedEnds(s: State) returns (acts: seq<Action>)
    requires Inv(s) && s.closed
    ensures AllOwn(acts) && Ended(Run(s, acts)) && Run(s, acts).submitted == s.submitted && Run(s, acts).closed
    decreases Measure(s)
  {
    hide Do, Measure, Conserved;
    var a: Action;
    if s.acquiring + s.undoing + s.blocked != multiset{} {
      a := CallerLeaves(s);
    } else if !s.dispatcher.Gone? {
      a := DispatcherLeaves(s);
    } else if Busy(s) {
      a := WorkerMoves(s);
    } else {
      return [];
    }
    StepKeeps(s, a);
    var rest := ClosedEnds(Do(s, a));
    acts := [a] + rest;
    assert acts[1..] == rest;
  }

  /** Whatever goes on when Stop is called, all callers, workers and the dispatcher can then leave by
      themselves, and every task has run, has been dropped or is left in the queue. */
  lemma StopEnds(s: State) returns (acts: seq<Action>)
    requires Inv(s)
    ensures AllOwn(acts) && Ended(Run(s, [StopAdd, StopClose] + acts))
    ensures
      var last := Run(s, [StopAdd, StopClose] + acts);
      forall f: Job :: f < s.submitted ==> last.finished[f] + last.dropped[f] + InQueue(last.queue, f) == 1
  {
    var next := Do(s, StopAdd);
    StepKeeps(s, StopAdd);
    StepKeeps(next, StopClose);
    var closed := Do(next, StopClose);
    assert Run(s, [StopAdd, StopClose]) == closed by {
      assert [StopAdd, StopClose][1..] == [StopClose] && [StopClose][1..] == [];
    }
    acts := ClosedEnds(closed);
    RunAppend(s, [StopAdd, StopClose], acts);
    Safety(closed, acts);
    hide Run, Do;
    var last := Run(closed, acts);
    assert |last.running| == 0;
    forall f: Job | f < s.submitted ensures last.finished[f] + last.dropped[f] + InQueue(last.queue, f) == 1 {
      assert Places(last, f) == 1;
    }
  }

  /** Nothing in the queue is taken once the workers and the dispatcher have left. */
  lemma {:induction false} EndIsFinal(s: State, acts: seq<Action>)
    requires Counted(s) && s.closed && s.dispatcher.Gone? && Holders(s) == 0
    ensures s.queue <= Run(s, acts).queue && Run(s, acts).finished == s.finished
    decreases |acts|
  {
    if acts != [] {
      CountedStep(s, acts[0]);
      EndStep(s, acts[0]);
      EndIsFinal(Do(s, acts[0]), acts[1..]);
    }
  }

  lemma EndStep(s: State, a: Action)
    requires Counted(s) && s.closed && s.dispatcher.Gone? && Holders(s) == 0
    ensures
      var next := Do(s, a);
      next.closed && next.dispatcher.Gone? && Holders(next) == 0 && s.queue <= next.queue &&
      next.finished == s.finished
  {
    hide More, Less;
  }

  lemma Push(s: State, b: multiset<Job>, f: Job)
    requires |s.queue| < s.size && s.blocked == More(b, f)
    ensures Do(s, CallerPush(f)) == s.(blocked := b, queue := s.queue + [f])
  {
    Undone(b, f);
    hide More, Less;
  }

  lemma Quit(s: State)
    requires s.closed && s.dispatcher.Idle?
    ensures Do(s, DispQuit) == s.(dispatcher := Gone)
  {
  }

  lemma Stops(s: State)
    requires !s.stopped
    ensures Do(Do(s, StopAdd), StopClose) == s.(stopped := true, closed := true, concurrent := s.concurrent + s.max)
  {
  }

  /** A task can be left in the queue: a caller that comes after Stop finds room in the queue and puts its
      task there, and the dispatcher goes without looking. */
  lemma LeftInQueue(max: nat, size: nat) returns (acts: seq<Action>)
    requires max > 0 && size > 0
    ensures Ended(Run(New(max, size), acts)) && Run(New(max, size), acts).queue == [0]
  {
    hide More, Less, Do;
    var s := New(max, size);
    acts := [];
    Stops(s);
    acts := Then(s, acts, StopAdd);
    acts := Then(s, acts, StopClose);
    Attempt(Run(s, acts));
    acts := Then(s, acts, Go);
    acts := Then(s, acts, CallerAdd(0));
    TakeBack(Run(s, acts), multiset{}, 0);
    acts := Then(s, acts, CallerUndo(0));
    Push(Run(s, acts), multiset{}, 0);
    acts := Then(s, acts, CallerPush(0));
    Quit(Run(s, acts));
    acts := Then(s, acts, DispQuit);
  }
}
