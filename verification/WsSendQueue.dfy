/** The asynchronous send queue of a WebSocket connection: senders, the writer goroutine that the
    first of them starts, and CloseAndClean. Buffers are numbered in order of allocation; every
    locked section, and every write with the Free after it, is one step. */
module WsSendQueue {
  import opened Bytes
  import opened JobQueue

  /** A running writer: its index, and the buffer it has to write, if it is not at the lock. */
  datatype Writer = Writer(i: nat, held: Option<Job>)

  /** size is the bound on the queue, none when it is not positive; frames counts allocations;
      broken says that a writer has left after a failed write. */
  datatype State = State(size: int, queue: seq<Option<Job>>, writers: seq<Writer>, closed: bool, broken: bool,
                         frames: nat, accepted: seq<Job>, written: seq<Job>, freed: multiset<Job>)

  datatype Action = Send | WriteHeld(w: nat, ok: bool) | Proceed(w: nat) | CloseAndClean

  function Init(size: int): State { State(size, [], [], false, false, 0, [], [], multiset{}) }

  /** A frame of WriteMessage: refused when closed; laid out, then freed again when the queue is full;
      otherwise queued, and taken at once by the writer that it starts if it is the first. */
  function Sent(s: State): State
  {
    var b := s.frames;
    if s.closed then s
    else if s.size > 0 && |s.queue| >= s.size then s.(frames := b + 1, freed := s.freed + multiset{b})
    else if s.queue == [] then
      s.(frames := b + 1, accepted := s.accepted + [b], queue := [None], writers := s.writers + [Writer(0, Some(b))])
    else s.(frames := b + 1, accepted := s.accepted + [b], queue := s.queue + [Some(b)])
  }

  function Dropped(ws: seq<Writer>, w: nat): seq<Writer>
    requires w < |ws|
  {
    ws[..w] + ws[w + 1..]
  }

  /** The write and the Free; after an error the writer leaves, and leaves the queue as it is. */
  function Wrote(s: State, w: nat, ok: bool): State
    requires w < |s.writers| && s.writers[w].held.Some?
  {
    var b := s.writers[w].held.value;
    var t := s.(written := s.written + [b], freed := s.freed + multiset{b});
    if ok then t.(writers := s.writers[w := Writer(s.writers[w].i + 1, None)])
    else t.(writers := Dropped(s.writers, w), broken := true)
  }

  function Proceeded(s: State, w: nat): State
    requires w < |s.writers| && s.writers[w].held.None?
  {
    var i := s.writers[w].i;
    if s.closed then s.(writers := Dropped(s.writers, w))
    else if |s.queue| <= i then s.(queue := [], writers := Dropped(s.writers, w))
    else if s.queue[i].None? then s.(writers := Dropped(s.writers, w))
    else s.(queue := s.queue[i := None], writers := s.writers[w := Writer(i, s.queue[i])])
  }

  function Held(q: seq<Option<Job>>): multiset<Job>
  {
    if q == [] then multiset{} else (if q[0].Some? then multiset{q[0].value} else multiset{}) + Held(q[1..])
  }

  function Cleared(n: nat): (q: seq<Option<Job>>)
    ensures |q| == n && forall k :: 0 <= k < n ==> q[k] == None
  {
    seq(n, k requires 0 <= k < n => None)
  }

  function Cleaned(s: State): State
  {
    if s.closed then s
    else s.(closed := true, freed := s.freed + Held(s.queue), queue := Cleared(|s.queue|))
  }

  /** One step; an action that is not possible in the state leaves it as it is. */
  function Do(s: State, a: Action): State
  {
    match a
    case Send => Sent(s)
    case WriteHeld(w, ok) => if w < |s.writers| && s.writers[w].held.Some? then Wrote(s, w, ok) else s
    case Proceed(w) => if w < |s.writers| && s.writers[w].held.None? then Proceeded(s, w) else s
    case CloseAndClean => Cleaned(s)
  }

  function After(size: int, acts: seq<Action>): State
  {
    if acts == [] then Init(size) else Do(After(size, acts[..|acts| - 1]), acts[|acts| - 1])
  }

  function View(s: State): Fifo { Fifo(s.accepted, s.written) }

  function InHand(s: State): multiset<Job>
  {
    if s.writers != [] && s.writers[0].held.Some? then multiset{s.writers[0].held.value} else multiset{}
  }

  /** Every buffer ever allocated is freed, in the queue, or in the hand of the writer: once in all. */
  predicate Owned(s: State) { Balanced(s.freed, Held(s.queue), InHand(s), AllOf(s.frames)) }

  predicate Balanced(f: multiset<Job>, h: multiset<Job>, i: multiset<Job>, n: multiset<Job>) { f + h + i == n }

  /** The next index at which the queue still holds its buffer. */
  function Ahead(w: Writer): nat { if w.held.Some? then w.i + 1 else w.i }

  /** While open: taken buffers, then the buffers accepted last, not yet taken. */
  predicate Lined(s: State, from: nat)
  {
    && from <= |s.queue| <= |s.accepted|
    && (forall k :: 0 <= k < from ==> s.queue[k].None?)
    && (forall k :: from <= k < |s.queue| ==> s.queue[k] == Some(s.accepted[|s.accepted| - |s.queue| + k]))
  }

  predicate WriterAt(s: State, w: Writer)
  {
    && (!s.closed ==> Lined(s, Ahead(w)) && 0 < Ahead(w) && |s.written| == |s.accepted| - |s.queue| + w.i)
    && (w.held.Some? ==> |s.written| < |s.accepted| && w.held.value == s.accepted[|s.written|])
  }

  predicate Orderly(s: State)
  {
    && |s.writers| <= 1 && InOrder(View(s))
    && (s.closed ==> forall k :: 0 <= k < |s.queue| ==> s.queue[k].None?)
    && (s.writers != [] ==> s.queue != [] && WriterAt(s, s.writers[0]))
    && (s.writers == [] && !s.closed && !s.broken ==> s.queue == [] && s.written == s.accepted)
    && (s.broken ==> s.writers == [] && (!s.closed ==> s.queue != []))
  }

  predicate Inv(s: State) { Orderly(s) && Owned(s) }

  lemma {:induction false} HeldSnoc(q: seq<Option<Job>>, x: Option<Job>)
    ensures Held(q + [x]) == Held(q) + Held([x])
  {
    if q != [] {
      assert (q + [x])[1..] == q[1..] + [x];
      HeldSnoc(q[1..], x);
    } else {
      assert q + [x] == [x];
    }
  }

  lemma {:induction false} HeldTaken(q: seq<Option<Job>>, i: nat)
    requires i < |q| && q[i].Some?
    ensures Held(q) == Held(q[i := None]) + multiset{q[i].value}
  {
    if i > 0 {
      assert q[i := None][1..] == q[1..][i - 1 := None];
      HeldTaken(q[1..], i - 1);
    } else {
      assert q[i := None][1..] == q[1..];
    }
  }

  lemma {:induction false} HeldNothing(q: seq<Option<Job>>)
    requires forall k :: 0 <= k < |q| ==> q[k].None?
    ensures Held(q) == multiset{}
  {
    if q != [] { HeldNothing(q[1..]); }
  }

  /** One more buffer, in any of the three places. */
  lemma Placed(f: multiset<Job>, h: multiset<Job>, i: multiset<Job>, n: nat)
    requires Balanced(f, h, i, AllOf(n))
    ensures Balanced(f + multiset{n}, h, i, AllOf(n + 1))
    ensures Balanced(f, h + multiset{n}, i, AllOf(n + 1))
    ensures i == multiset{} ==> Balanced(f, h, multiset{n}, AllOf(n + 1))
  {
    var x := multiset{n};
    assert AllOf(n + 1) == AllOf(n) + x;
    hide AllOf;
    assert (f + x) + h + i == (f + h + i) + x && f + (h + x) + i == (f + h + i) + x;
    assert i == multiset{} ==> f + h + x == (f + h + i) + x;
  }

  lemma HeldOne(b: Job)
    ensures Held([Some(b)]) == multiset{b} && Held([None]) == Held([]) == multiset{}
  {
    HeldNothing([None]);
  }

  lemma SendOwned(s: State)
    requires Owned(s) && (s.queue == [] ==> s.writers == [])
    ensures Owned(Sent(s))
  {
    hide Held, AllOf, Balanced;
    var b, t := s.frames, Sent(s);
    Placed(s.freed, Held(s.queue), InHand(s), b);
    HeldSnoc(s.queue, Some(b));
    HeldOne(b);
    if t.frames != b {
      assert AllOf(t.frames) == AllOf(b + 1);
      if t.freed != s.freed {
        assert t.queue == s.queue && InHand(t) == InHand(s);
      } else if s.queue == [] {
        assert t.queue == [None] && Held(t.queue) == Held(s.queue) && InHand(t) == multiset{b};
      } else {
        assert t.queue == s.queue + [Some(b)] && InHand(t) == InHand(s);
      }
    }
  }

  lemma SendOrderly(s: State)
    requires Orderly(s)
    ensures Orderly(Sent(s))
  {
    if s.writers != [] && Sent(s).accepted != s.accepted {
      assert s.queue != [];
      assert WriterAt(Sent(s), s.writers[0]);
    }
  }

  lemma SendNext(s: State)
    ensures Next(View(s), View(Sent(s)))
  {
    if Sent(s).accepted != s.accepted {
      assert Accepts(View(s), View(Sent(s)), s.frames);
    }
  }

  lemma SendStep(s: State)
    requires Inv(s)
    ensures Inv(Sent(s)) && Next(View(s), View(Sent(s)))
  {
    assert s.queue == [] ==> s.writers == [];
    hide Owned, Orderly, Sent, Next, View;
    SendOwned(s);
    SendOrderly(s);
    SendNext(s);
  }

  lemma WriteOrderly(s: State, ok: bool)
    requires Orderly(s) && s.writers != [] && s.writers[0].held.Some?
    ensures Orderly(Wrote(s, 0, ok)) && Starts(View(s), View(Wrote(s, 0, ok)))
  {
    var t := Wrote(s, 0, ok);
    assert Starts(View(s), View(t));
    NextInOrder(View(s), View(t));
    hide Starts, Next, InOrder;
    assert s.writers == [s.writers[0]];
    assert ok ==> WriterAt(t, t.writers[0]);
  }

  lemma WriteStep(s: State, ok: bool)
    requires Inv(s) && s.writers != [] && s.writers[0].held.Some?
    ensures Inv(Wrote(s, 0, ok)) && Next(View(s), View(Wrote(s, 0, ok)))
  {
    AtMostOne(s);
    WriteOrderly(s, ok);
    hide Orderly, Held, AllOf;
    var t := Wrote(s, 0, ok);
    assert InHand(t) == multiset{};
    assert Owned(t) by {
      assert t.freed + Held(t.queue) + InHand(t) == s.freed + Held(s.queue) + InHand(s);
    }
  }

  lemma ProceedOrderly(s: State)
    requires Orderly(s) && s.writers != [] && s.writers[0].held.None?
    ensures Orderly(Proceeded(s, 0))
  {
    assert s.writers == [s.writers[0]];
  }

  lemma Handed(f: multiset<Job>, h: multiset<Job>, x: multiset<Job>, n: multiset<Job>)
    requires Balanced(f, h + x, multiset{}, n)
    ensures Balanced(f, h, x, n)
  {
    assert f + (h + x) + multiset{} == f + h + x;
  }

  lemma ProceedOwned(s: State)
    requires Inv(s) && s.writers != [] && s.writers[0].held.None?
    ensures Owned(Proceeded(s, 0))
  {
    var i, t := s.writers[0].i, Proceeded(s, 0);
    assert s.writers == [s.writers[0]];
    if !s.closed && i < |s.queue| {
      assert s.queue[i].Some?;
      HeldTaken(s.queue, i);
      hide Held, AllOf, Orderly;
      Handed(s.freed, Held(t.queue), multiset{s.queue[i].value}, AllOf(s.frames));
      hide Balanced;
    } else if !s.closed {
      HeldNothing(s.queue);
      HeldOne(0);
      hide Held, AllOf, Orderly, Balanced;
    } else {
      hide Held, AllOf, Orderly, Balanced;
    }
  }

  /** While open, the writer never finds a buffer that someone else has taken. */
  lemma ProceedStep(s: State)
    requires Inv(s) && s.writers != [] && s.writers[0].held.None?
    ensures !s.closed && s.writers[0].i < |s.queue| ==> s.queue[s.writers[0].i].Some?
    ensures Inv(Proceeded(s, 0)) && Next(View(s), View(Proceeded(s, 0)))
  {
    ProceedOrderly(s);
    ProceedOwned(s);
    assert !s.closed && s.writers[0].i < |s.queue| ==> s.queue[s.writers[0].i].Some?;
    hide Orderly, Owned;
  }

  lemma CleanStep(s: State)
    requires Inv(s)
    ensures Inv(Cleaned(s)) && Next(View(s), View(Cleaned(s)))
  {
    HeldNothing(Cleared(|s.queue|));
  }

  lemma AtMostOne(s: State)
    requires Inv(s)
    ensures |s.writers| <= 1
  {
  }

  lemma Stutter(s: State, t: State)
    requires View(s) == View(t)
    ensures Next(View(s), View(t))
  {
  }

  /** Every step keeps the invariant and is a step of a first-in first-out queue. */
  lemma StepKeeps(s: State, a: Action)
    requires Inv(s)
    ensures Inv(Do(s, a)) && Next(View(s), View(Do(s, a)))
  {
    hide Inv, View, Sent, Wrote, Proceeded, Cleaned, Next;
    AtMostOne(s);
    Stutter(s, s);
    match a
    case Send => SendStep(s);
    case WriteHeld(w, ok) => if w < |s.writers| && s.writers[w].held.Some? { WriteStep(s, ok); }
    case Proceed(w) => if w < |s.writers| && s.writers[w].held.None? { ProceedStep(s); }
    case CloseAndClean => CleanStep(s);
  }

  /** On every interleaving of senders, writer and close: at most one writer; frames go to the
      connection once each and in the order of their acceptance; no buffer is freed twice; and once
      the connection is closed and the writer gone, every buffer has been freed exactly once. */
  lemma {:induction false} EachOnce(size: int, acts: seq<Action>)
    ensures Inv(After(size, acts))
    ensures |After(size, acts).writers| <= 1
    ensures After(size, acts).written <= After(size, acts).accepted
    ensures forall b: Job :: After(size, acts).freed[b] <= 1
    ensures After(size, acts).closed && After(size, acts).writers == [] ==>
              After(size, acts).freed == AllOf(After(size, acts).frames)
  {
    if acts != [] {
      var front := acts[..|acts| - 1];
      EachOnce(size, front);
      StepKeeps(After(size, front), acts[|acts| - 1]);
    }
    var s := After(size, acts);
    if s.closed { HeldNothing(s.queue); }
    forall b: Job ensures s.freed[b] <= 1 {
      OnceEach(s.frames, b);
      assert (s.freed + Held(s.queue) + InHand(s))[b] <= 1;
    }
  }

  // ---- what the writer alone achieves ----

  predicate OfWriter(a: Action) { a.WriteHeld? || a.Proceed? }

  /** The steps that the writer still needs on an open connection, if all its writes succeed. */
  function Remaining(s: State): nat
  {
    if s.writers == [] || Ahead(s.writers[0]) > |s.queue| then 0
    else 2 * (|s.queue| - s.writers[0].i) + (if s.writers[0].held.Some? then 0 else 1)
  }

  function Alone(s: State): Action
  {
    if s.writers != [] && s.writers[0].held.Some? then WriteHeld(0, true) else Proceed(0)
  }

  lemma AloneProgress(s: State)
    requires Inv(s) && !s.closed && !s.broken && s.writers != []
    ensures var t := Do(s, Alone(s));
            && Inv(t) && !t.closed && !t.broken && t.accepted == s.accepted && Remaining(t) + 1 == Remaining(s)
    ensures OfWriter(Alone(s))
  {
    StepKeeps(s, Alone(s));
    AtMostOne(s);
    hide Owned, Inv, View, Next;
    if s.writers[0].held.Some? { WriteCloser(s); } else { ProceedCloser(s); }
  }

  lemma WriteCloser(s: State)
    requires Inv(s) && !s.closed && !s.broken && |s.writers| == 1 && s.writers[0].held.Some?
    ensures var t := Wrote(s, 0, true);
            !t.closed && !t.broken && t.accepted == s.accepted && Remaining(t) + 1 == Remaining(s)
  {
    assert Ahead(s.writers[0]) <= |s.queue|;
    hide Inv;
  }

  lemma ProceedCloser(s: State)
    requires Inv(s) && !s.closed && !s.broken && |s.writers| == 1 && s.writers[0].held.None?
    ensures var t := Proceeded(s, 0);
            !t.closed && !t.broken && t.accepted == s.accepted && Remaining(t) + 1 == Remaining(s)
  {
    assert Ahead(s.writers[0]) <= |s.queue|;
    ProceedStep(s);
    hide Inv, View, Next;
  }

  lemma AfterSnoc(size: int, acts: seq<Action>, a: Action)
    ensures After(size, acts + [a]) == Do(After(size, acts), a)
  {
    assert (acts + [a])[..|acts|] == acts;
  }

  lemma Idle(s: State)
    requires Inv(s) && s.writers == [] && !s.closed && !s.broken
    ensures Remaining(s) == 0 && s.queue == [] && s.written == s.accepted
  {
  }

  /** From any open state in which no write has failed, the writer's own steps, with writes that succeed,
      write every accepted frame and empty the queue. */
  lemma {:induction false} Drains(size: int, acts: seq<Action>) returns (own: seq<Action>)
    requires !After(size, acts).closed && !After(size, acts).broken
    ensures |own| == Remaining(After(size, acts)) && forall i :: 0 <= i < |own| ==> OfWriter(own[i])
    ensures After(size, acts + own).accepted == After(size, acts).accepted
    ensures After(size, acts + own).written == After(size, acts).accepted && After(size, acts + own).queue == []
    decreases Remaining(After(size, acts))
  {
    hide *;
    EachOnce(size, acts);
    var s := After(size, acts);
    if s.writers == [] {
      Idle(s);
      own := [];
      assert acts + own == acts;
    } else {
      AloneProgress(s);
      AfterSnoc(size, acts, Alone(s));
      var rest := Drains(size, acts + [Alone(s)]);
      own := [Alone(s)] + rest;
      assert acts + own == acts + [Alone(s)] + rest;
    }
  }

  /** After a failed write no frame is ever written again, on any continuation. */
  lemma {:induction false} BrokenStays(size: int, acts: seq<Action>, more: seq<Action>)
    requires After(size, acts).broken
    ensures After(size, acts + more).broken && After(size, acts + more).written == After(size, acts).written
  {
    hide After, Inv;
    if more == [] {
      assert acts + more == acts;
    } else {
      var n := |more| - 1;
      BrokenStays(size, acts, more[..n]);
      EachOnce(size, acts + more[..n]);
      AfterSnoc(size, acts + more[..n], more[n]);
      assert acts + more == acts + more[..n] + [more[n]];
      BrokenStep(After(size, acts + more[..n]), more[n]);
    }
  }

  lemma BrokenStep(s: State, a: Action)
    requires Inv(s) && s.broken
    ensures Do(s, a).broken && Do(s, a).written == s.written
  {
    assert s.writers == [];
  }

  /** On an open connection every accepted frame can still be written by the writer alone if and only if
      no write has failed, or none was left to be written. */
  lemma WrittenExact(size: int, acts: seq<Action>)
    requires !After(size, acts).closed
    ensures (exists own: seq<Action> :: (forall i :: 0 <= i < |own| ==> OfWriter(own[i])) &&
                                        After(size, acts + own).written == After(size, acts).accepted) <==>
            !After(size, acts).broken || After(size, acts).written == After(size, acts).accepted
  {
    hide After;
    var s := After(size, acts);
    if !s.broken {
      var own := Drains(size, acts);
      assert forall i :: 0 <= i < |own| ==> OfWriter(own[i]);
    } else {
      forall own: seq<Action> ensures After(size, acts + own).written == s.written {
        BrokenStays(size, acts, own);
      }
      assert acts + [] == acts;
    }
  }

  /** The first write fails; a frame accepted after it, before the close, is never written. */
  lemma AcceptedInVain()
    ensures var s := After(0, [Send, WriteHeld(0, false), Send]);
            s.broken && !s.closed && s.accepted == [0, 1] && s.written == [0]
  {
    var a, b := WriteHeld(0, false), Send;
    AfterSnoc(0, [], Send);
    AfterSnoc(0, [Send], a);
    AfterSnoc(0, [Send, a], b);
    assert [] + [Send] == [Send] && [Send] + [a] == [Send, a] && [Send, a] + [b] == [Send, a, b];
  }

  // ---- the end ----

  /** The close, and the steps that a writer still needs then. */
  function Ending(s: State, ok: bool): (acts: seq<Action>)
  {
    if s.writers == [] then [CloseAndClean]
    else if s.writers[0].held.Some? then [CloseAndClean, WriteHeld(0, ok), Proceed(0)]
    else [CloseAndClean, Proceed(0)]
  }

  /** From any reachable state, whatever becomes of a write under way, the close and at most two steps of
      the writer end it: no writer is left, and every buffer ever allocated is freed exactly once. */
  lemma Ends(size: int, acts: seq<Action>, ok: bool)
    ensures var s := After(size, acts + Ending(After(size, acts), ok));
            s.closed && s.writers == [] && s.freed == AllOf(s.frames) && s.frames == After(size, acts).frames
  {
    EndsIdle(size, acts, ok);
    hide *;
    EachOnce(size, acts + Ending(After(size, acts), ok));
  }

  lemma EndsIdle(size: int, acts: seq<Action>, ok: bool)
    ensures var s := After(size, acts + Ending(After(size, acts), ok));
            s.closed && s.writers == [] && s.frames == After(size, acts).frames
  {
    var s := After(size, acts);
    EachOnce(size, acts);
    AtMostOne(s);
    AfterSnoc(size, acts, CloseAndClean);
    CloseEffect(s);
    var t := Do(s, CloseAndClean);
    hide After, Do, Inv;
    if s.writers != [] {
      if s.writers[0].held.Some? {
        TwoSteps(size, acts + [CloseAndClean], t, ok);
        assert acts + Ending(s, ok) == acts + [CloseAndClean] + [WriteHeld(0, ok), Proceed(0)];
      } else {
        AfterSnoc(size, acts + [CloseAndClean], Proceed(0));
        assert acts + Ending(s, ok) == acts + [CloseAndClean] + [Proceed(0)];
        LastProceed(t);
      }
    }
  }

  lemma TwoSteps(size: int, acts: seq<Action>, s: State, ok: bool)
    requires s == After(size, acts) && s.closed && |s.writers| == 1 && s.writers[0].held.Some?
    ensures var t := After(size, acts + [WriteHeld(0, ok), Proceed(0)]);
            t.closed && t.writers == [] && t.frames == s.frames
  {
    LastSteps(s, ok);
    hide After, Do;
    AfterSnoc(size, acts, WriteHeld(0, ok));
    AfterSnoc(size, acts + [WriteHeld(0, ok)], Proceed(0));
    assert acts + [WriteHeld(0, ok), Proceed(0)] == acts + [WriteHeld(0, ok)] + [Proceed(0)];
  }

  lemma CloseEffect(s: State)
    ensures var t := Do(s, CloseAndClean); t.closed && t.writers == s.writers && t.frames == s.frames
  {
  }

  lemma LastProceed(s: State)
    requires s.closed && |s.writers| == 1 && s.writers[0].held.None?
    ensures var t := Do(s, Proceed(0)); t.closed && t.writers == [] && t.frames == s.frames
  {
  }

  lemma LastSteps(s: State, ok: bool)
    requires s.closed && |s.writers| == 1 && s.writers[0].held.Some?
    ensures var t := Do(Do(s, WriteHeld(0, ok)), Proceed(0)); t.closed && t.writers == [] && t.frames == s.frames
  {
    var t := Do(s, WriteHeld(0, ok));
    assert t.closed && t.frames == s.frames;
    if ok { LastProceed(t); }
  }
}
