/** The asynchronous calls of the timer: Async and its runner, which looks for the next function
    under the lock before each call and empties the list when it finds none. */
module TimerJobs {
  import opened Bytes
  import opened JobQueue

  /** A running copy of the loop: how many functions it has taken, and the one it is about to call. */
  datatype Runner = Runner(i: nat, call: Option<Job>)

  datatype State = State(list: seq<Job>, runners: seq<Runner>, accepted: seq<Job>, started: seq<Job>)

  datatype Action = Async(job: Job) | Fetch(r: nat) | CallIt(r: nat)

  const Init := State([], [], [], [])

  function Push(s: State, job: Job): State
  {
    State(s.list + [job], if s.list == [] then s.runners + [Runner(0, None)] else s.runners,
          s.accepted + [job], s.started)
  }

  function Take(s: State, r: nat): State
    requires r < |s.runners|
  {
    var i := s.runners[r].i;
    if i == |s.list| then s.(list := [], runners := s.runners[..r] + s.runners[r + 1..])
    else if i < |s.list| then s.(runners := s.runners[r := Runner(i + 1, Some(s.list[i]))])
    else s
  }

  function Called(s: State, r: nat): State
    requires r < |s.runners| && s.runners[r].call.Some?
  {
    s.(started := s.started + [s.runners[r].call.value], runners := s.runners[r := Runner(s.runners[r].i, None)])
  }

  /** One step; an action that is not possible in the state leaves it as it is. */
  function Do(s: State, a: Action): State
  {
    match a
    case Async(job) => Push(s, job)
    case Fetch(r) => if r < |s.runners| && s.runners[r].call.None? then Take(s, r) else s
    case CallIt(r) => if r < |s.runners| && s.runners[r].call.Some? then Called(s, r) else s
  }

  function After(acts: seq<Action>): State
  {
    if acts == [] then Init else Do(After(acts[..|acts| - 1]), acts[|acts| - 1])
  }

  function View(s: State): Fifo { Fifo(s.accepted, s.started) }

  predicate OneRunner(s: State)
  {
    if s.list == [] then s.runners == [] else |s.runners| == 1
  }

  /** The runner has started everything before its index, except the call it is about to make. */
  predicate AtWork(s: State, r: Runner)
    requires |s.list| <= |s.accepted|
  {
    var base := |s.accepted| - |s.list|;
    && r.i <= |s.list|
    && (r.call.Some? ==> 0 < r.i && r.call.value == s.list[r.i - 1])
    && |s.started| == base + r.i - (if r.call.Some? then 1 else 0)
  }

  predicate Inv(s: State)
  {
    && OneRunner(s) && InOrder(View(s))
    && |s.list| <= |s.accepted| && s.list == s.accepted[|s.accepted| - |s.list|..]
    && (if s.runners == [] then |s.started| == |s.accepted| else AtWork(s, s.runners[0]))
  }

  lemma PushStep(s: State, job: Job)
    requires Inv(s)
    ensures Inv(Push(s, job)) && Accepts(View(s), View(Push(s, job)), job)
  {
    var t := Push(s, job);
    assert t.list == t.accepted[|t.accepted| - |t.list|..];
  }

  lemma CallStep(s: State)
    requires Inv(s) && s.runners != [] && s.runners[0].call.Some?
    ensures Inv(Called(s, 0)) && Starts(View(s), View(Called(s, 0)))
  {
    NextInOrder(View(s), View(Called(s, 0)));
  }

  lemma FetchStep(s: State)
    requires Inv(s) && s.runners != [] && s.runners[0].call.None?
    ensures Inv(Take(s, 0)) && View(Take(s, 0)) == View(s)
  {
    assert s.runners == [s.runners[0]];
  }

  /** Every step keeps the invariant and is a step of a first-in first-out queue. */
  lemma StepKeeps(s: State, a: Action)
    requires Inv(s)
    ensures Inv(Do(s, a)) && Next(View(s), View(Do(s, a)))
  {
    assert |s.runners| <= 1;
    hide Inv, View, Push, Take, Called;
    match a
    case Async(job) => PushStep(s, job);
    case Fetch(r) => if r < |s.runners| && s.runners[r].call.None? { FetchStep(s); }
    case CallIt(r) => if r < |s.runners| && s.runners[r].call.Some? { CallStep(s); }
  }

  /** On every interleaving there is at most one runner, one exists exactly while the list is not
      empty, functions are called once each and in order, and an idle timer has called them all. */
  lemma {:induction false} ExactlyOnceInOrder(acts: seq<Action>)
    ensures Inv(After(acts))
    ensures |After(acts).runners| <= 1 && (After(acts).runners == [] <==> After(acts).list == [])
    ensures After(acts).started <= After(acts).accepted
    ensures After(acts).list == [] ==> After(acts).started == After(acts).accepted
  {
    if acts != [] {
      var front := acts[..|acts| - 1];
      ExactlyOnceInOrder(front);
      StepKeeps(After(front), acts[|acts| - 1]);
    }
  }

  /** The steps that the runner still needs: a fetch and a call for each function, and a last fetch. */
  function Remaining(s: State): nat
  {
    if s.runners == [] || s.runners[0].i > |s.list| then 0
    else 2 * (|s.list| - s.runners[0].i) + 1 + (if s.runners[0].call.Some? then 1 else 0)
  }

  function Alone(s: State): Action
  {
    if s.runners != [] && s.runners[0].call.Some? then CallIt(0) else Fetch(0)
  }

  lemma AloneProgress(s: State)
    requires Inv(s) && s.list != []
    ensures Inv(Do(s, Alone(s))) && Remaining(Do(s, Alone(s))) == Remaining(s) - 1
    ensures Do(s, Alone(s)).accepted == s.accepted && !Alone(s).Async?
  {
    StepKeeps(s, Alone(s));
    if s.runners[0].call.Some? { CallStep(s); } else { FetchStep(s); }
  }

  lemma Idle(s: State)
    requires Inv(s) && s.list == []
    ensures Remaining(s) == 0 && s.runners == []
  {
  }

  lemma AfterSnoc(acts: seq<Action>, a: Action)
    ensures After(acts + [a]) == Do(After(acts), a)
  {
    assert (acts + [a])[..|acts|] == acts;
  }

  /** From any reachable state the runner's own steps alone, exactly as many as remain, call every
      accepted function and empty the list. */
  lemma {:induction false} Drains(acts: seq<Action>) returns (own: seq<Action>)
    ensures Inv(After(acts)) && |own| == Remaining(After(acts))
    ensures forall i :: 0 <= i < |own| ==> !own[i].Async?
    ensures After(acts + own).list == [] && After(acts + own).runners == []
    ensures After(acts + own).accepted == After(acts).accepted
    ensures After(acts + own).started == After(acts).accepted
    decreases Remaining(After(acts))
  {
    hide *;
    ExactlyOnceInOrder(acts);
    var s := After(acts);
    if s.list == [] {
      Idle(s);
      own := [];
      assert acts + own == acts;
    } else {
      AloneProgress(s);
      AfterSnoc(acts, Alone(s));
      var rest := Drains(acts + [Alone(s)]);
      own := [Alone(s)] + rest;
      assert acts + own == acts + [Alone(s)] + rest;
    }
  }

  /** The functions that the calls of a run hand in. */
  function Submissions(acts: seq<Action>): (r: seq<Job>)
  {
    if acts == [] then []
    else
      var n := |acts| - 1;
      Submissions(acts[..n]) + if acts[n].Async? then [acts[n].job] else []
  }

  /** On every interleaving, exactly these are accepted. */
  lemma {:induction false} AcceptedExact(acts: seq<Action>)
    ensures After(acts).accepted == Submissions(acts)
  {
    if acts != [] { AcceptedExact(acts[..|acts| - 1]); }
  }
}
