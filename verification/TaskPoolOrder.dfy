/** The order in which queued tasks leave the queue, over every run of the pool. */
module TaskPoolOrder {
  import opened JobQueue
  import opened TaskPool

  /** A task that no caller carries any more: it can never again be put into the queue. */
  predicate Past(s: State, f: Job)
  {
    f < s.submitted && s.acquiring[f] == 0 && s.undoing[f] == 0 && s.blocked[f] == 0
  }

  lemma PastStays(s: State, a: Action, f: Job)
    requires Past(s, f)
    ensures Past(Do(s, a), f)
  {
    hide More, Less;
    if OfCaller(a) {
      hide DispatcherStep, WorkerStep, StopStep;
    } else if OfDispatcher(a) {
      hide CallerStep, WorkerStep, StopStep;
    } else {
      hide CallerStep, DispatcherStep;
    }
  }

  /** The queue loses its first task, or gets one more at its end from a caller that carried it. */
  lemma QueueStep(s: State, a: Action)
    ensures
      var next := Do(s, a).queue;
      || next == s.queue
      || (s.queue != [] && next == s.queue[1..])
      || (a.CallerPush? && a.task in s.blocked && next == s.queue + [a.task])
  {
    hide More, Less;
    if OfCaller(a) {
      hide DispatcherStep, WorkerStep, StopStep;
    } else if OfDispatcher(a) {
      hide CallerStep, WorkerStep, StopStep;
    } else {
      hide CallerStep, DispatcherStep;
    }
  }

  lemma QueuedPast(s: State, f: Job)
    requires Inv(s) && f in s.queue
    ensures Past(s, f)
  {
    assert InQueue(s.queue, f) > 0;
    assert Places(s, f) <= 1;
  }

  /** Seen from any point of a run, the queue is later what is left of it after its first tasks, with
      tasks behind it that were not in it. */
  lemma {:induction false} Shifts(s: State, acts: seq<Action>, was: seq<Job>, k: nat, tail: seq<Job>)
      returns (k': nat, tail': seq<Job>)
    requires k <= |was| && s.queue == was[k..] + tail
    requires forall f :: f in was ==> Past(s, f) && f !in tail
    ensures k' <= |was| && Run(s, acts).queue == was[k'..] + tail'
    ensures forall f :: f in was ==> Past(Run(s, acts), f) && f !in tail'
    decreases |acts|
  {
    k', tail' := k, tail;
    if acts != [] {
      var next := Do(s, acts[0]);
      QueueStep(s, acts[0]);
      forall f | f in was ensures Past(next, f) { PastStays(s, acts[0], f); }
      hide Do;
      if next.queue == s.queue {
      } else if s.queue != [] && next.queue == s.queue[1..] {
        if k < |was| {
          assert s.queue[1..] == was[k + 1..] + tail;
          k' := k + 1;
        } else {
          assert s.queue == tail;
          tail' := tail[1..];
          assert next.queue == was[k..] + tail';
        }
      } else {
        tail' := tail + [acts[0].task];
        assert next.queue == was[k..] + tail';
      }
      k', tail' := Shifts(next, acts[1..], was, k', tail');
    }
  }

  lemma QueueShifts(s: State, acts: seq<Action>) returns (k: nat, tail: seq<Job>)
    requires Inv(s)
    ensures k <= |s.queue| && Run(s, acts).queue == s.queue[k..] + tail
    ensures forall f :: f in s.queue ==> f !in tail
  {
    forall f | f in s.queue ensures Past(s, f) { QueuedPast(s, f); }
    assert s.queue == s.queue[0..] + [];
    k, tail := Shifts(s, acts, s.queue, 0, []);
  }

  /** First in, first out: of two tasks in the queue, the later one is never gone before the other. */
  lemma FirstInFirstOut(maxConcurrent: int, size: nat, acts: seq<Action>, more: seq<Action>, i: nat, j: nat)
    requires i < j < |Run(New(maxConcurrent, size), acts).queue|
    ensures
      var queue := Run(New(maxConcurrent, size), acts).queue;
      var later := Run(New(maxConcurrent, size), acts + more).queue;
      queue[j] !in later ==> queue[i] !in later
  {
    var first := New(maxConcurrent, size);
    var s := Run(first, acts);
    NewPool(maxConcurrent, size);
    Safety(first, acts);
    RunAppend(first, acts, more);
    OnceQueued(s, i);
    hide Inv, New, Run;
    var k, tail := QueueShifts(s, more);
    assert s.queue[i] in s.queue && s.queue[j] in s.queue;
    if k <= j {
      assert (s.queue[k..] + tail)[j - k] == s.queue[j];
    } else {
      assert forall x :: x in s.queue[k..] ==> x in s.queue[i + 1..];
    }
  }

  /** A task is in the queue once. */
  lemma OnceQueued(s: State, i: nat)
    requires Inv(s) && i < |s.queue|
    ensures s.queue[i] !in s.queue[i + 1..]
  {
    var q, f := s.queue, s.queue[i];
    hide Counted;
    assert q == q[..i] + [f] + q[i + 1..];
    assert InQueue(q, f) >= 1 + multiset(q[i + 1..])[f];
    assert Places(s, f) <= 1;
  }

  /** What has to hold for an action to happen. */
  predicate Enabled(s: State, a: Action)
  {
    match a
    case Go => true
    case CallerAdd(f) => f in s.acquiring
    case CallerUndo(f) => f in s.undoing
    case CallerPush(f) => f in s.blocked && |s.queue| < s.size
    case CallerGiveUp(f) => f in s.blocked && s.closed
    case DispTake => s.dispatcher.Idle? && s.queue != []
    case DispMeet(f) => s.dispatcher.Idle? && s.queue == [] && f in s.blocked
    case DispAdd => s.dispatcher.At(Trying)
    case DispUndo => s.dispatcher.At(Undoing)
    case DispToken => s.dispatcher.At(Waiting) && s.slot
    case DispQuit => s.closed && (s.dispatcher.Idle? || s.dispatcher.At(Waiting))
    case WorkerRun(f) => f in s.running
    case WorkerTake => s.fetching > 0 && s.queue != []
    case WorkerMeet(f) => s.fetching > 0 && s.queue == [] && f in s.blocked
    case WorkerLeave => s.fetching > 0 && s.queue == []
    case WorkerRelease => s.releasing > 0
    case WorkerSignal => s.signalling > 0
    case StopAdd => !s.stopped
    case StopClose => s.stopped && !s.closed
  }

  /** An action changes the state if and only if it can happen. */
  lemma EnabledExact(s: State, a: Action)
    requires s.max > 0
    ensures Do(s, a) != s <==> Enabled(s, a)
  {
    hide More, Less;
    if OfCaller(a) {
      hide DispatcherStep, WorkerStep, StopStep;
    } else if OfDispatcher(a) {
      hide CallerStep, WorkerStep, StopStep;
    } else {
      hide CallerStep, DispatcherStep;
    }
  }

  /** A task is finished only by running, and dropped only where its caller or the dispatcher waits in a
      closed pool. */
  lemma EndOfTask(s: State, a: Action, f: Job)
    ensures Do(s, a).finished[f] > s.finished[f] ==> f in s.running && a == WorkerRun(f)
    ensures Do(s, a).dropped[f] > s.dropped[f] ==> s.closed && (f in s.blocked || s.dispatcher == With(f, Waiting))
  {
    hide More, Less;
    if OfCaller(a) {
      hide DispatcherStep, WorkerStep, StopStep;
    } else if OfDispatcher(a) {
      hide CallerStep, WorkerStep, StopStep;
    } else {
      hide CallerStep, DispatcherStep;
    }
  }

  /** A task runs only when it was waiting for a slot, and none that is queued before it. */
  lemma LifeCycle(s: State, a: Action, f: Job)
    ensures Do(s, a).running[f] > s.running[f] ==>
              || (s.concurrent < s.max && (f in s.acquiring || s.dispatcher == With(f, Trying)))
              || (s.fetching > 0 && if s.queue == [] then f in s.blocked else f == s.queue[0])
    ensures Do(s, a).dispatcher == With(f, Trying) ==>
              || s.dispatcher == With(f, Trying) || (s.dispatcher == With(f, Waiting) && s.slot)
              || (s.dispatcher.Idle? && if s.queue == [] then f in s.blocked else f == s.queue[0])
  {
    hide More, Less;
    if OfCaller(a) {
      hide DispatcherStep, WorkerStep, StopStep;
    } else if OfDispatcher(a) {
      hide CallerStep, WorkerStep, StopStep;
    } else {
      hide CallerStep, DispatcherStep;
    }
  }

  /** A task that is finished has been running at some point of the run. */
  lemma {:induction false} FinishedRan(s: State, acts: seq<Action>, f: Job) returns (k: nat)
    requires f !in s.finished && f in Run(s, acts).finished
    ensures k < |acts| && f in Run(s, acts[..k]).running
    decreases |acts|
  {
    var next := Do(s, acts[0]);
    if f in next.finished {
      EndOfTask(s, acts[0], f);
      k := 0;
    } else {
      var j := FinishedRan(next, acts[1..], f);
      k := j + 1;
      assert acts[..k][1..] == acts[1..][..j];
    }
  }
}
