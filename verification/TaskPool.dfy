/** The task pool at the granularity of its single atomic operations: callers of Go, workers, the
    dispatcher and Stop, interleaved in any order. Callers and workers are anonymous, so they are
    counted by the point they have reached, together with the task they carry there. */
module TaskPool {
  import opened JobQueue

  /** Where the dispatcher stands with a task: about to add one to the counter; above the maximum and
      about to take the one back; at the select on slot and close. */
  datatype Phase = Trying | Undoing | Waiting

  /** Idle is the select on queue and close. */
  datatype Dispatcher = Idle | With(task: Job, phase: Phase) | Gone
  {
    predicate At(p: Phase) { With? && phase == p }
  }

  datatype State = State(
    max: nat,
    size: nat,                  // capacity of the queue
    concurrent: int,
    queue: seq<Job>,
    slot: bool,                 // a token lies in the slot channel
    stopped: bool,              // Stop has added the maximum
    closed: bool,               // and closed the channel
    acquiring: multiset<Job>,   // callers about to add one to the counter
    undoing: multiset<Job>,     // callers above the maximum, about to take the one back
    blocked: multiset<Job>,     // callers at the select on queue and close
    dispatcher: Dispatcher,
    running: multiset<Job>,     // workers with a task
    fetching: nat,              // workers at the select on the queue
    releasing: nat,             // workers about to take one from the counter
    signalling: nat,            // workers about to offer the token
    finished: multiset<Job>,
    dropped: multiset<Job>,
    submitted: nat)

  datatype Action =
    | Go | CallerAdd(task: Job) | CallerUndo(task: Job) | CallerPush(task: Job) | CallerGiveUp(task: Job)
    | DispTake | DispMeet(task: Job) | DispAdd | DispUndo | DispToken | DispQuit
    | WorkerRun(task: Job) | WorkerTake | WorkerMeet(task: Job) | WorkerLeave | WorkerRelease | WorkerSignal
    | StopAdd | StopClose

  function New(maxConcurrent: int, size: nat): State
  {
    State(if maxConcurrent <= 0 then 1 else maxConcurrent, size, 0, [], false, false, false,
          multiset{}, multiset{}, multiset{}, Idle, multiset{}, 0, 0, 0, multiset{}, multiset{}, 0)
  }

  /** Go and the acquire in it; a blocked caller puts its task into a queue with room, or drops it
      when the pool is closed. */
  function CallerStep(s: State, a: Action): State
  {
    match a
    case Go => s.(acquiring := More(s.acquiring, s.submitted), submitted := s.submitted + 1)
    case CallerAdd(f) =>
      if f !in s.acquiring then s
      else if s.concurrent + 1 <= s.max then
        s.(acquiring := Less(s.acquiring, f), concurrent := s.concurrent + 1, running := More(s.running, f))
      else
        s.(acquiring := Less(s.acquiring, f), concurrent := s.concurrent + 1, undoing := More(s.undoing, f))
    case CallerUndo(f) =>
      if f !in s.undoing then s
      else s.(undoing := Less(s.undoing, f), concurrent := s.concurrent - 1, blocked := More(s.blocked, f))
    case CallerPush(f) =>
      if f in s.blocked && |s.queue| < s.size then s.(blocked := Less(s.blocked, f), queue := s.queue + [f])
      else s
    case CallerGiveUp(f) =>
      if f in s.blocked && s.closed then s.(blocked := Less(s.blocked, f), dropped := More(s.dropped, f))
      else s
    case _ => s
  }

  /** The dispatcher; with an empty queue it may also meet a blocked caller directly. */
  function DispatcherStep(s: State, a: Action): State
  {
    match a
    case DispTake =>
      if s.dispatcher.Idle? && s.queue != [] then
        s.(queue := s.queue[1..], dispatcher := With(s.queue[0], Trying))
      else s
    case DispMeet(f) =>
      if s.dispatcher.Idle? && s.queue == [] && f in s.blocked then
        s.(blocked := Less(s.blocked, f), dispatcher := With(f, Trying))
      else s
    case DispAdd =>
      if !s.dispatcher.At(Trying) then s
      else if s.concurrent + 1 <= s.max then
        s.(concurrent := s.concurrent + 1, running := More(s.running, s.dispatcher.task), dispatcher := Idle)
      else s.(concurrent := s.concurrent + 1, dispatcher := With(s.dispatcher.task, Undoing))
    case DispUndo =>
      if s.dispatcher.At(Undoing) then
        s.(concurrent := s.concurrent - 1, dispatcher := With(s.dispatcher.task, Waiting))
      else s
    case DispToken =>
      if s.dispatcher.At(Waiting) && s.slot then s.(slot := false, dispatcher := With(s.dispatcher.task, Trying)) else s
    case DispQuit =>
      if !s.closed then s
      else if s.dispatcher.Idle? then s.(dispatcher := Gone)
      else if s.dispatcher.At(Waiting) then s.(dispatcher := Gone, dropped := More(s.dropped, s.dispatcher.task))
      else s
    case _ => s
  }

  /** A worker runs its task, takes another one while there is any, then gives its slot back. */
  function WorkerStep(s: State, a: Action): State
  {
    match a
    case WorkerRun(f) =>
      if f in s.running then
        s.(running := Less(s.running, f), finished := More(s.finished, f), fetching := s.fetching + 1)
      else s
    case WorkerTake =>
      if s.fetching > 0 && s.queue != [] then
        s.(fetching := s.fetching - 1, queue := s.queue[1..], running := More(s.running, s.queue[0]))
      else s
    case WorkerMeet(f) =>
      if s.fetching > 0 && s.queue == [] && f in s.blocked then
        s.(fetching := s.fetching - 1, blocked := Less(s.blocked, f), running := More(s.running, f))
      else s
    case WorkerLeave =>
      if s.fetching > 0 && s.queue == [] then s.(fetching := s.fetching - 1, releasing := s.releasing + 1) else s
    case WorkerRelease =>
      if s.releasing > 0 then
        s.(releasing := s.releasing - 1, concurrent := s.concurrent - 1, signalling := s.signalling + 1)
      else s
    case WorkerSignal => if s.signalling > 0 then s.(signalling := s.signalling - 1, slot := true) else s
    case _ => s
  }

  function StopStep(s: State, a: Action): State
  {
    match a
    case StopAdd => if s.stopped then s else s.(stopped := true, concurrent := s.concurrent + s.max)
    case StopClose => if s.stopped then s.(closed := true) else s
    case _ => s
  }

  predicate OfCaller(a: Action) { a.Go? || a.CallerAdd? || a.CallerUndo? || a.CallerPush? || a.CallerGiveUp? }

  predicate OfDispatcher(a: Action)
  {
    a.DispTake? || a.DispMeet? || a.DispAdd? || a.DispUndo? || a.DispToken? || a.DispQuit?
  }

  predicate OfStop(a: Action) { a.StopAdd? || a.StopClose? }

  /** One step; an action that is not possible in the state leaves it as it is. */
  function Do(s: State, a: Action): State
  {
    if OfCaller(a) then CallerStep(s, a)
    else if OfDispatcher(a) then DispatcherStep(s, a)
    else if OfStop(a) then StopStep(s, a)
    else WorkerStep(s, a)
  }

  function Run(s: State, acts: seq<Action>): State
    decreases |acts|
  {
    if acts == [] then s else Run(Do(s, acts[0]), acts[1..])
  }

  /** The worker slots in use, and the failed acquires that have not yet been taken back. */
  function Holders(s: State): nat { |s.running| + s.fetching + s.releasing }

  function InFlight(s: State): nat { |s.undoing| + (if s.dispatcher.At(Undoing) then 1 else 0) }

  /** The counter, the bound on the workers, Stop's two steps in their order, and a dispatcher that
      leaves only a closed pool. */
  predicate Counted(s: State)
  {
    && s.max > 0
    && s.concurrent == Holders(s) + InFlight(s) + (if s.stopped then s.max else 0)
    && Holders(s) <= s.max
    && |s.queue| <= s.size
    && (s.closed ==> s.stopped)
    && (s.dispatcher.Gone? ==> s.closed)
  }

  /** One task taken out, one task put in. */
  function Less(m: multiset<Job>, f: Job): (r: multiset<Job>)
    requires f in m
    ensures |r| == |m| - 1 && forall x: Job :: r[x] == if x == f then m[x] - 1 else m[x]
  {
    m - multiset{f}
  }

  function More(m: multiset<Job>, f: Job): (r: multiset<Job>)
    ensures |r| == |m| + 1 && forall x: Job :: r[x] == if x == f then m[x] + 1 else m[x]
  {
    m + multiset{f}
  }

  function InHand(d: Dispatcher, f: Job): nat { if d.With? && d.task == f then 1 else 0 }

  function InQueue(q: seq<Job>, f: Job): nat { multiset(q)[f] }

  lemma QueueEnds(q: seq<Job>, g: Job, f: Job)
    ensures InQueue(q + [g], f) == InQueue(q, f) + (if f == g then 1 else 0)
    ensures q != [] ==> InQueue(q, f) == InQueue(q[1..], f) + (if f == q[0] then 1 else 0)
  {
    if q != [] { assert q == [q[0]] + q[1..]; }
  }

  /** How often a task occurs over all the places it can be in. */
  function Places(s: State, f: Job): nat
  {
    s.acquiring[f] + s.undoing[f] + s.blocked[f] + InQueue(s.queue, f) + InHand(s.dispatcher, f) +
    s.running[f] + s.finished[f] + s.dropped[f]
  }

  /** Every submitted task is in exactly one place, and only a closed pool has dropped any. */
  ghost predicate Conserved(s: State)
  {
    && (forall f: Job :: Places(s, f) == if f < s.submitted then 1 else 0)
    && (!s.closed ==> s.dropped == multiset{})
  }

  lemma CallerCounted(s: State, a: Action)
    requires Counted(s) && OfCaller(a)
    ensures Counted(CallerStep(s, a))
  {
  }

  lemma DispatcherCounted(s: State, a: Action)
    requires Counted(s) && OfDispatcher(a)
    ensures Counted(DispatcherStep(s, a))
  {
    hide More, Less;
  }

  lemma WorkerCounted(s: State, a: Action)
    requires Counted(s) && !OfCaller(a) && !OfDispatcher(a) && !OfStop(a)
    ensures Counted(WorkerStep(s, a))
  {
  }

  lemma AddConserves(s: State, g: Job, f: Job)
    ensures Places(CallerStep(s, CallerAdd(g)), f) == Places(s, f)
  {
    hide Less, More, InQueue;
  }

  lemma PushConserves(s: State, g: Job, f: Job)
    ensures Places(CallerStep(s, CallerPush(g)), f) == Places(s, f)
  {
    hide Less, More, InQueue;
    QueueEnds(s.queue, g, f);
  }

  lemma CallerConserves(s: State, a: Action, f: Job)
    requires OfCaller(a)
    ensures Places(CallerStep(s, a), f) == Places(s, f) + (if a.Go? && f == s.submitted then 1 else 0)
  {
    match a
    case CallerAdd(g) => AddConserves(s, g, f);
    case CallerPush(g) => PushConserves(s, g, f);
    case _ => hide Less, More, InQueue;
  }

  lemma DispatcherConserves(s: State, a: Action, f: Job)
    requires OfDispatcher(a)
    ensures Places(DispatcherStep(s, a), f) == Places(s, f)
  {
    hide Less, More, InQueue;
    QueueEnds(s.queue, f, f);
  }

  lemma WorkerConserves(s: State, a: Action, f: Job)
    requires !OfCaller(a) && !OfDispatcher(a) && !OfStop(a)
    ensures Places(WorkerStep(s, a), f) == Places(s, f)
  {
    hide Less, More, InQueue;
    QueueEnds(s.queue, f, f);
  }

  ghost predicate Inv(s: State) { Counted(s) && Conserved(s) }

  lemma CountedStep(s: State, a: Action)
    requires Counted(s)
    ensures Counted(Do(s, a))
  {
    if OfCaller(a) {
      CallerCounted(s, a);
    } else if OfDispatcher(a) {
      DispatcherCounted(s, a);
    } else if !OfStop(a) {
      WorkerCounted(s, a);
    }
  }

  /** Tasks are submitted by Go alone, and dropped only when the pool is closed. */
  lemma Bookkeeping(s: State, a: Action)
    ensures Do(s, a).submitted == s.submitted + (if a.Go? then 1 else 0)
    ensures !s.closed ==> Do(s, a).dropped == s.dropped
    ensures s.closed ==> Do(s, a).closed
  {
    hide More, Less;
    if OfCaller(a) {
      hide DispatcherStep, WorkerStep, StopStep;
    } else if OfDispatcher(a) {
      hide CallerStep, WorkerStep, StopStep;
    } else {
      hide CallerStep, DispatcherStep;
    }
  }

  /** A step moves a task from one place to another; Go submits the next one. */
  lemma PlacesStep(s: State, a: Action, f: Job)
    ensures Places(Do(s, a), f) == Places(s, f) + (if a.Go? && f == s.submitted then 1 else 0)
  {
    if OfStop(a) {
    } else {
      hide Places, CallerStep, DispatcherStep, WorkerStep, StopStep;
      if OfCaller(a) {
        CallerConserves(s, a, f);
      } else if OfDispatcher(a) {
        DispatcherConserves(s, a, f);
      } else {
        WorkerConserves(s, a, f);
      }
    }
  }

  lemma StepKeeps(s: State, a: Action)
    requires Inv(s)
    ensures Inv(Do(s, a))
  {
    hide Counted, Places, Do;
    CountedStep(s, a);
    Bookkeeping(s, a);
    forall f: Job ensures Places(Do(s, a), f) == if f < Do(s, a).submitted then 1 else 0 {
      PlacesStep(s, a, f);
    }
  }

  /** On every interleaving the counter is the slots in use, plus the failed acquires in flight, plus
      the maximum once stopped; the slots in use never exceed the maximum; and every task submitted is
      in exactly one place, so none runs twice. */
  lemma {:induction false} Safety(s: State, acts: seq<Action>)
    requires Inv(s)
    ensures Inv(Run(s, acts))
    decreases |acts|
  {
    if acts != [] {
      StepKeeps(s, acts[0]);
      Safety(Do(s, acts[0]), acts[1..]);
    }
  }

  lemma NewPool(maxConcurrent: int, size: nat)
    ensures Inv(New(maxConcurrent, size))
    ensures New(maxConcurrent, size).max == (if maxConcurrent >= 1 then maxConcurrent else 1)
    ensures New(maxConcurrent, size).size == size
  {
    var s := New(maxConcurrent, size);
    assert forall f: Job :: Places(s, f) == 0;
  }

  /** An attempt to get a slot succeeds if and only if the pool is not stopped and the slots in use
      and the failed attempts in flight are together fewer than the maximum. */
  lemma AcquireExact(s: State)
    requires Counted(s)
    ensures s.concurrent + 1 <= s.max <==> !s.stopped && Holders(s) + InFlight(s) < s.max
  {
  }

  /** After Stop no worker starts: the slots in use only get fewer. */
  lemma {:induction false} StoppedShrinks(s: State, acts: seq<Action>)
    requires Counted(s) && s.stopped
    ensures Counted(Run(s, acts)) && Run(s, acts).stopped && Holders(Run(s, acts)) <= Holders(s)
    decreases |acts|
  {
    if acts != [] {
      CountedStep(s, acts[0]);
      StoppedStep(s, acts[0]);
      StoppedShrinks(Do(s, acts[0]), acts[1..]);
    }
  }

  lemma StoppedStep(s: State, a: Action)
    requires Counted(s) && s.stopped
    ensures Do(s, a).stopped && Holders(Do(s, a)) <= Holders(s)
  {
    hide Less, More;
  }

  lemma FinishedStep(s: State, a: Action, f: Job)
    ensures s.finished[f] <= Do(s, a).finished[f]
  {
    hide More, Less;
    if OfCaller(a) {
      hide DispatcherStep, WorkerStep, StopStep;
    } else if OfDispatcher(a) {
      hide CallerStep, WorkerStep, StopStep;
    } else {
      hide CallerStep, DispatcherStep;
    }
  }

  /** A finished task stays finished, and is never again in a queue, in a hand or running. */
  lemma {:induction false} NeverTwice(s: State, acts: seq<Action>, f: Job)
    requires Inv(s) && f in s.finished
    ensures Run(s, acts).finished[f] == 1 && Places(Run(s, acts), f) == 1
    ensures Run(s, acts).running[f] == 0 && f !in Run(s, acts).queue
    decreases |acts|
  {
    assert Places(s, f) <= 1;
    if acts != [] {
      StepKeeps(s, acts[0]);
      FinishedStep(s, acts[0], f);
      NeverTwice(Do(s, acts[0]), acts[1..], f);
    } else {
      assert f in s.queue ==> InQueue(s.queue, f) > 0;
    }
  }

  /** Someone is left to wake a dispatcher that waits for a slot. */
  predicate Watched(s: State)
  {
    s.dispatcher.With? && s.dispatcher.phase != Trying && !s.stopped && !s.slot ==> Holders(s) + s.signalling > 0
  }

  /** The dispatcher tries for a slot while none is in use, no worker is about to signal and no token
      lies ready, yet the failed attempts of callers fill the counter. */
  predicate Missed(s: State, a: Action)
  {
    && a.DispAdd? && s.dispatcher.At(Trying) && !s.stopped && !s.slot
    && Holders(s) + s.signalling == 0 && InFlight(s) >= s.max
  }

  /** A waiting dispatcher stays watched over a step if and only if the step is no such attempt. */
  lemma WatchedExact(s: State, a: Action)
    requires Counted(s) && Watched(s)
    ensures Watched(Do(s, a)) <==> !Missed(s, a)
  {
    hide Less, More;
    if OfCaller(a) { WatchedCaller(s, a); }
  }

  lemma WatchedCaller(s: State, a: Action)
    requires Counted(s) && Watched(s) && OfCaller(a)
    ensures Watched(CallerStep(s, a))
  {
    hide Less, More;
  }

  /** No step of the run is such an attempt. */
  predicate NoneMissed(s: State, acts: seq<Action>)
    decreases |acts|
  {
    acts == [] || (!Missed(s, acts[0]) && NoneMissed(Do(s, acts[0]), acts[1..]))
  }

  ghost predicate WatchedThroughout(s: State, acts: seq<Action>)
  {
    forall k: nat :: k <= |acts| ==> Watched(Run(s, acts[..k]))
  }

  /** A waiting dispatcher is watched throughout a run if and only if the run has no such attempt. */
  lemma {:induction false} AlwaysWatched(s: State, acts: seq<Action>)
    requires Counted(s) && Watched(s)
    ensures WatchedThroughout(s, acts) <==> NoneMissed(s, acts)
    decreases |acts|
  {
    hide Counted, Watched, Do, Missed, Run;
    WatchedFirst(s, acts);
    if acts != [] {
      CountedStep(s, acts[0]);
      WatchedExact(s, acts[0]);
      if !Missed(s, acts[0]) { AlwaysWatched(Do(s, acts[0]), acts[1..]); }
    }
  }

  /** A run is its first step and the rest. */
  lemma WatchedFirst(s: State, acts: seq<Action>)
    requires Watched(s)
    ensures acts == [] ==> WatchedThroughout(s, acts)
    ensures acts != [] ==>
              (WatchedThroughout(s, acts) <==>
               Watched(Do(s, acts[0])) && WatchedThroughout(Do(s, acts[0]), acts[1..]))
  {
    hide Watched, Do;
    assert acts[..0] == [] && Run(s, []) == s;
    if acts != [] {
      var next, rest := Do(s, acts[0]), acts[1..];
      assert rest[..0] == [] && Run(next, []) == next;
      forall k: nat | k < |acts| ensures Run(s, acts[..k + 1]) == Run(next, rest[..k]) {
        assert acts[..k + 1][0] == acts[0] && acts[..k + 1][1..] == rest[..k];
      }
      hide Run;
      if Watched(next) && WatchedThroughout(next, rest) {
        forall k: nat | k <= |acts| ensures Watched(Run(s, acts[..k])) {
          if k > 0 { assert Run(s, acts[..(k - 1) + 1]) == Run(next, rest[..k - 1]); }
        }
      }
      if WatchedThroughout(s, acts) {
        forall k: nat | k <= |rest| ensures Watched(Run(next, rest[..k])) {
          assert Run(s, acts[..k + 1]) == Run(next, rest[..k]);
        }
        assert Watched(Run(next, rest[..0]));
      }
    }
  }

  /** The dispatcher waits with a task, and nobody is left who would wake it. */
  predicate Stuck(s: State)
  {
    && s.dispatcher.At(Waiting) && !s.stopped && !s.closed && !s.slot
    && Holders(s) + s.signalling == 0 && s.acquiring == multiset{} && s.undoing == multiset{}
  }

  /** Only another Go, or Stop, can change that. */
  lemma StuckStays(s: State, a: Action)
    requires Stuck(s) && !a.Go? && !a.StopAdd?
    ensures Stuck(Do(s, a)) && Do(s, a).finished == s.finished
  {
    hide Less, More;
  }

  lemma {:induction false} RunAppend(s: State, acts: seq<Action>, more: seq<Action>)
    ensures Run(s, acts + more) == Run(Run(s, acts), more)
    decreases |acts|
  {
    if acts == [] {
      assert acts + more == more;
    } else {
      assert (acts + more)[1..] == acts[1..] + more;
      RunAppend(Do(s, acts[0]), acts[1..], more);
    }
  }

  lemma Then(s: State, acts: seq<Action>, a: Action) returns (more: seq<Action>)
    ensures Run(s, more) == Do(Run(s, acts), a)
  {
    more := acts + [a];
    RunAppend(s, acts, [a]);
    assert [a][1..] == [];
  }

  lemma Undone(m: multiset<Job>, f: Job)
    ensures Less(More(m, f), f) == m
  {
  }

  /** Go, and an attempt that gets a slot, respectively does not. */
  lemma Begin(s: State)
    requires s.concurrent < s.max
    ensures Do(Do(s, Go), CallerAdd(s.submitted)) ==
            s.(running := More(s.running, s.submitted), concurrent := s.concurrent + 1, submitted := s.submitted + 1)
  {
    Undone(s.acquiring, s.submitted);
    hide More, Less;
  }

  lemma Attempt(s: State)
    requires s.concurrent >= s.max
    ensures Do(Do(s, Go), CallerAdd(s.submitted)) ==
            s.(undoing := More(s.undoing, s.submitted), concurrent := s.concurrent + 1, submitted := s.submitted + 1)
  {
    Undone(s.acquiring, s.submitted);
    hide More, Less;
  }

  lemma TakeBack(s: State, u: multiset<Job>, f: Job)
    requires s.undoing == More(u, f)
    ensures Do(s, CallerUndo(f)) == s.(undoing := u, concurrent := s.concurrent - 1, blocked := More(s.blocked, f))
  {
    Undone(u, f);
    hide More, Less;
  }

  lemma Meet(s: State, b: multiset<Job>, f: Job)
    requires s.dispatcher.Idle? && s.queue == [] && s.blocked == More(b, f)
    ensures Do(s, DispMeet(f)) == s.(blocked := b, dispatcher := With(f, Trying))
  {
    Undone(b, f);
    hide More, Less;
  }

  lemma Retry(s: State)
    requires s.dispatcher.At(Trying) && s.concurrent >= s.max
    ensures Do(Do(s, DispAdd), DispUndo) == s.(dispatcher := With(s.dispatcher.task, Waiting))
  {
  }

  lemma Token(s: State)
    requires s.dispatcher.At(Waiting) && s.slot
    ensures Do(s, DispToken) == s.(slot := false, dispatcher := With(s.dispatcher.task, Trying))
  {
  }

  lemma Leave(s: State, r: multiset<Job>, f: Job)
    requires s.queue == [] && s.running == More(r, f)
    ensures Do(Do(s, WorkerRun(f)), WorkerLeave) ==
            s.(running := r, finished := More(s.finished, f), releasing := s.releasing + 1)
  {
    Undone(r, f);
    hide More, Less, CallerStep, DispatcherStep, StopStep;
  }

  lemma Leaving(s: State)
    requires s.releasing > 0
    ensures Do(Do(s, WorkerRelease), WorkerSignal) ==
            s.(releasing := s.releasing - 1, concurrent := s.concurrent - 1, slot := true)
  {
    hide CallerStep, DispatcherStep, StopStep;
  }

  lemma WorkerEnds(s: State, r: multiset<Job>, f: Job)
    requires s.queue == [] && s.running == More(r, f)
    ensures Do(Do(Do(Do(s, WorkerRun(f)), WorkerLeave), WorkerRelease), WorkerSignal) ==
            s.(running := r, finished := More(s.finished, f), concurrent := s.concurrent - 1, slot := true)
  {
    Leave(s, r, f);
    hide Do;
    Leaving(s.(running := r, finished := More(s.finished, f), releasing := s.releasing + 1));
  }

  /** The wake-up can be lost. Task 0 runs in the only slot. The dispatcher has taken task 1 from its
      caller, found no slot, and waits. Task 2 fails to get the slot and has not yet taken its one back
      when the worker ends, releases the slot and signals. The dispatcher uses up the token, fails
      because of task 2, and waits again; only then does task 2 take its one back. Now every slot is
      free, two tasks are left, and nobody will wake the dispatcher. */
  lemma WakeUpLost(size: nat) returns (acts: seq<Action>)
    ensures Stuck(Run(New(1, size), acts)) && 2 in Run(New(1, size), acts).blocked
    ensures !NoneMissed(New(1, size), acts)
  {
    hide More, Less, Do;
    var s := New(1, size);
    var none := multiset{};
    acts := [];
    Begin(s);
    acts := Then(s, acts, Go);
    acts := Then(s, acts, CallerAdd(0));
    Attempt(Run(s, acts));
    acts := Then(s, acts, Go);
    acts := Then(s, acts, CallerAdd(1));
    TakeBack(Run(s, acts), none, 1);
    acts := Then(s, acts, CallerUndo(1));
    Meet(Run(s, acts), none, 1);
    acts := Then(s, acts, DispMeet(1));
    Retry(Run(s, acts));
    acts := Then(s, acts, DispAdd);
    acts := Then(s, acts, DispUndo);
    Attempt(Run(s, acts));
    acts := Then(s, acts, Go);
    acts := Then(s, acts, CallerAdd(2));
    WorkerEnds(Run(s, acts), none, 0);
    acts := Then(s, acts, WorkerRun(0));
    acts := Then(s, acts, WorkerLeave);
    acts := Then(s, acts, WorkerRelease);
    acts := Then(s, acts, WorkerSignal);
    Token(Run(s, acts));
    acts := Then(s, acts, DispToken);
    Retry(Run(s, acts));
    acts := Then(s, acts, DispAdd);
    acts := Then(s, acts, DispUndo);
    TakeBack(Run(s, acts), none, 2);
    acts := Then(s, acts, CallerUndo(2));
    AlwaysWatched(s, acts);
    assert acts[..|acts|] == acts;
  }
}
