/** The job list of a connection: Execute, MustExecute and the runner they start, with every
    locked section and every job as one step, interleaved in any order. */
module ConnJobs {
  import opened Bytes
  import opened JobQueue

  /** A running copy of the loop of execute: its index, its job, and whether it has run that job. */
  datatype Runner = Runner(i: nat, job: Job, ran: bool)

  /** A job with what is remembered of its acceptance: by MustExecute, and after the close. */
  datatype Accepted = Accepted(job: Job, must: bool, late: bool)

  datatype State = State(list: seq<Option<Job>>, runners: seq<Runner>, closed: bool,
                         accepted: seq<Accepted>, started: seq<Job>)

  datatype Action = Execute(job: Job) | MustExecute(job: Job) | Close | RunJob(r: nat) | Advance(r: nat)

  const Init := State([], [], false, [], [])

  function Push(s: State, job: Job, must: bool): State
  {
    s.(list := s.list + [Some(job)],
       accepted := s.accepted + [Accepted(job, must, s.closed)],
       runners := if s.list == [] then s.runners + [Runner(0, job, false)] else s.runners)
  }

  function Run(s: State, r: nat): State
    requires r < |s.runners|
  {
    s.(started := s.started + [s.runners[r].job], runners := s.runners[r := s.runners[r].(ran := true)])
  }

  /** The locked section after a job: the end of the list empties it and ends the runner, otherwise
      the next job is taken out of the list. */
  function Take(s: State, r: nat): State
    requires r < |s.runners| && s.list != []
  {
    var i := s.runners[r].i + 1;
    if |s.list| == i then s.(list := [], runners := s.runners[..r] + s.runners[r + 1..])
    else if i < |s.list| && s.list[i].Some? then
      s.(list := s.list[i := None], runners := s.runners[r := Runner(i, s.list[i].value, false)])
    else s
  }

  /** One step; an action that is not possible in the state leaves it as it is. */
  function Do(s: State, a: Action): State
  {
    match a
    case Execute(job) => if s.closed then s else Push(s, job, false)
    case MustExecute(job) => Push(s, job, true)
    case Close => s.(closed := true)
    case RunJob(r) => if r < |s.runners| && !s.runners[r].ran then Run(s, r) else s
    case Advance(r) => if r < |s.runners| && s.runners[r].ran && s.list != [] then Take(s, r) else s
  }

  function After(acts: seq<Action>): State
  {
    if acts == [] then Init else Do(After(acts[..|acts| - 1]), acts[|acts| - 1])
  }

  function Jobs(acc: seq<Accepted>): (js: seq<Job>)
    ensures |js| == |acc| && forall k :: 0 <= k < |acc| ==> js[k] == acc[k].job
  {
    seq(|acc|, k requires 0 <= k < |acc| => acc[k].job)
  }

  function View(s: State): Fifo { Fifo(Jobs(s.accepted), s.started) }

  /** The jobs of the list, those already taken out included, are the last accepted ones. */
  predicate Listed(s: State)
  {
    && |s.list| <= |s.accepted|
    && forall k :: 0 <= k < |s.list| && s.list[k].Some? ==>
         s.list[k].value == s.accepted[|s.accepted| - |s.list| + k].job
  }

  /** The one runner stands at its index: it has the job accepted there, every later entry of the
      list still holds its job, and every earlier job has started. */
  predicate AtWork(s: State, r: Runner)
    requires |s.list| <= |s.accepted|
  {
    && r.i < |s.list|
    && r.job == s.accepted[|s.accepted| - |s.list| + r.i].job
    && (forall k :: r.i < k < |s.list| ==> s.list[k].Some?)
    && |s.started| == |s.accepted| - |s.list| + r.i + (if r.ran then 1 else 0)
  }

  /** There is a runner exactly while the list is not empty, and never a second one. */
  predicate OneRunner(s: State)
  {
    if s.list == [] then s.runners == [] else |s.runners| == 1
  }

  /** Nothing that was accepted without MustExecute was accepted late, and late jobs come last. */
  predicate LateLast(s: State)
  {
    && (forall k :: 0 <= k < |s.accepted| && s.accepted[k].late ==> s.accepted[k].must && s.closed)
    && (forall j, k :: 0 <= j < k < |s.accepted| && s.accepted[j].late ==> s.accepted[k].late)
  }

  predicate Inv(s: State)
  {
    && OneRunner(s) && Listed(s) && LateLast(s) && InOrder(View(s))
    && (if s.runners == [] then |s.started| == |s.accepted| else AtWork(s, s.runners[0]))
  }

  lemma PushStep(s: State, job: Job, must: bool)
    requires Inv(s) && (s.closed ==> must)
    ensures Inv(Push(s, job, must)) && Accepts(View(s), View(Push(s, job, must)), job)
  {
    var t := Push(s, job, must);
    assert Jobs(t.accepted) == Jobs(s.accepted) + [job];
    hide Jobs;
  }

  lemma RunStep(s: State)
    requires Inv(s) && s.runners != [] && !s.runners[0].ran
    ensures Inv(Run(s, 0)) && Starts(View(s), View(Run(s, 0)))
  {
    NextInOrder(View(s), View(Run(s, 0)));
  }

  lemma TakeStep(s: State)
    requires Inv(s) && s.runners != [] && s.runners[0].ran
    ensures s.runners[0].i + 1 < |s.list| ==> s.list[s.runners[0].i + 1].Some?
    ensures Inv(Take(s, 0)) && View(Take(s, 0)) == View(s)
  {
    assert s.runners == [s.runners[0]];
    assert View(Take(s, 0)) == View(s);
    hide View;
  }

  /** Every step keeps the invariant and is a step of a first-in first-out queue. */
  lemma StepKeeps(s: State, a: Action)
    requires Inv(s)
    ensures Inv(Do(s, a)) && Next(View(s), View(Do(s, a)))
  {
    assert |s.runners| <= 1 && (s.runners != [] <==> s.list != []);
    hide Inv, View, Push, Run, Take;
    match a
    case Execute(job) => if !s.closed { PushStep(s, job, false); }
    case MustExecute(job) => PushStep(s, job, true);
    case Close =>
    case RunJob(r) => if r < |s.runners| && !s.runners[r].ran { RunStep(s); }
    case Advance(r) => if r < |s.runners| && s.runners[r].ran { TakeStep(s); }
  }

  /** On every interleaving there is at most one runner, one exists exactly while jobs are listed,
      jobs start once each and in order of acceptance, and an idle connection has started them all. */
  lemma {:induction false} ExactlyOnceInOrder(acts: seq<Action>)
    ensures Inv(After(acts))
    ensures |After(acts).runners| <= 1 && (After(acts).runners == [] <==> After(acts).list == [])
    ensures After(acts).started <= Jobs(After(acts).accepted)
    ensures After(acts).list == [] ==> After(acts).started == Jobs(After(acts).accepted)
  {
    if acts != [] {
      var front := acts[..|acts| - 1];
      ExactlyOnceInOrder(front);
      StepKeeps(After(front), acts[|acts| - 1]);
    }
  }

  /** A job accepted after the close starts after every job that Execute accepted: by the time it is
      the k-th to start, each of them stands among the first k. */
  lemma CloseJobLast(acts: seq<Action>, j: nat, k: nat)
    requires j < |After(acts).accepted| && k < |After(acts).started|
    requires !After(acts).accepted[j].must
    requires k < |After(acts).accepted| && After(acts).accepted[k].late
    ensures j < k && After(acts).started[j] == After(acts).accepted[j].job
    ensures After(acts).started[k] == After(acts).accepted[k].job
  {
    ExactlyOnceInOrder(acts);
    var s := After(acts);
    assert InOrder(View(s));
  }

  /** After the close Execute accepts nothing, on any continuation of the run. */
  lemma {:induction false} ClosedRejects(acts: seq<Action>, bs: seq<Action>)
    requires After(acts).closed
    ensures After(acts + bs).closed
    ensures |After(acts).accepted| <= |After(acts + bs).accepted|
    ensures forall k :: |After(acts).accepted| <= k < |After(acts + bs).accepted| ==> After(acts + bs).accepted[k].must
  {
    if bs == [] {
      assert acts + bs == acts;
    } else {
      var front := bs[..|bs| - 1];
      ClosedRejects(acts, front);
      assert (acts + bs)[..|acts + bs| - 1] == acts + front;
    }
  }

  /** A runner that is left alone gets through: the steps it still needs. */
  function Remaining(s: State): nat
  {
    if s.runners == [] || s.runners[0].i >= |s.list| then 0
    else 2 * (|s.list| - s.runners[0].i) - (if s.runners[0].ran then 1 else 0)
  }

  function Alone(s: State): Action
  {
    if s.runners != [] && s.runners[0].ran then Advance(0) else RunJob(0)
  }

  /** An action of the runner, not of a submitter or of the close. */
  predicate OfRunner(a: Action) { a.RunJob? || a.Advance? }

  lemma AloneProgress(s: State)
    requires Inv(s) && s.list != []
    ensures Inv(Do(s, Alone(s))) && Remaining(Do(s, Alone(s))) == Remaining(s) - 1
    ensures Do(s, Alone(s)).accepted == s.accepted && OfRunner(Alone(s))
  {
    StepKeeps(s, Alone(s));
    if s.runners[0].ran { TakeStep(s); } else { RunStep(s); }
  }

  lemma Idle(s: State)
    requires Inv(s) && s.list == []
    ensures Remaining(s) == 0 && s.runners == []
  {
  }

  lemma AfterSnoc(acts: seq<Action>, a: Action)
    ensures After(acts + [a]) == Do(After(acts), a)
  {
    assert (acts + [a])[..|acts|] == acts;
  }

  /** From any reachable state the runner's own steps alone, exactly as many as remain, start every
      accepted job and empty the list. */
  lemma {:induction false} Drains(acts: seq<Action>) returns (own: seq<Action>)
    ensures Inv(After(acts)) && |own| == Remaining(After(acts))
    ensures forall i :: 0 <= i < |own| ==> OfRunner(own[i])
    ensures After(acts + own).list == [] && After(acts + own).runners == []
    ensures After(acts + own).accepted == After(acts).accepted
    ensures After(acts + own).started == Jobs(After(acts).accepted)
    decreases Remaining(After(acts))
  {
    hide *;
    ExactlyOnceInOrder(acts);
    var s := After(acts);
    if s.list == [] {
      Idle(s);
      own := [];
      assert acts + own == acts;
    } else {
      AloneProgress(s);
      AfterSnoc(acts, Alone(s));
      var rest := Drains(acts + [Alone(s)]);
      own := [Alone(s)] + rest;
      assert acts + own == acts + [Alone(s)] + rest;
    }
  }

  // ---- what is accepted, in terms of the calls made ----

  predicate ClosedBy(acts: seq<Action>) { exists i :: 0 <= i < |acts| && acts[i] == Close }

  /** The jobs that the calls of a run hand in: those of Execute before the close, and all of MustExecute. */
  function Submissions(acts: seq<Action>): (r: seq<Accepted>)
  {
    if acts == [] then []
    else
      var n := |acts| - 1;
      var late := ClosedBy(acts[..n]);
      Submissions(acts[..n]) +
      match acts[n]
      case Execute(job) => if late then [] else [Accepted(job, false, false)]
      case MustExecute(job) => [Accepted(job, true, late)]
      case _ => []
  }

  /** On every interleaving, exactly these are accepted, and the connection is closed exactly by Close. */
  lemma {:induction false} AcceptedExact(acts: seq<Action>)
    ensures After(acts).closed <==> ClosedBy(acts)
    ensures After(acts).accepted == Submissions(acts)
  {
    if acts != [] {
      var n := |acts| - 1;
      var front, s := acts[..n], After(acts[..n]);
      AcceptedExact(front);
      assert ClosedBy(acts) <==> ClosedBy(front) || acts[n] == Close by {
        assert forall i :: 0 <= i < n ==> front[i] == acts[i];
      }
      hide ClosedBy;
      assert s.accepted + [] == s.accepted;
    }
  }

  /** A job submitted to an open connection is started by the runner, after all that was accepted before. */
  lemma SubmittedStarts(acts: seq<Action>, job: Job) returns (own: seq<Action>)
    requires !ClosedBy(acts)
    ensures forall i :: 0 <= i < |own| ==> OfRunner(own[i])
    ensures After(acts + [Execute(job)] + own).started == Jobs(Submissions(acts)) + [job]
  {
    var all := acts + [Execute(job)];
    AcceptedExact(acts);
    AfterSnoc(acts, Execute(job));
    own := Drains(all);
    var s := After(acts);
    assert Jobs(s.accepted + [Accepted(job, false, false)]) == Jobs(s.accepted) + [job];
  }
}
