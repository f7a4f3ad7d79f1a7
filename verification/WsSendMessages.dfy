/** Messages of several frames on a bounded send queue: WriteMessage queues its frames under one hold
    of the lock and stops at the first that finds the queue full. */
module WsSendMessages {
  import Q = WsSendQueue

  /** What is queued of a message of k frames: all of it, or as much as there is room for. */
  function Queued(s: Q.State, k: nat): (n: nat)
    ensures n <= k
  {
    if s.closed then 0
    else if s.size <= 0 || |s.queue| + k <= s.size then k
    else if |s.queue| < s.size then s.size - |s.queue| else 0
  }

  /** WriteMessage with k frames. */
  function WriteFrames(s: Q.State, k: nat): (t: Q.State)
    decreases k
  {
    if k == 0 then s
    else if |Q.Sent(s).accepted| == |s.accepted| then Q.Sent(s)
    else WriteFrames(Q.Sent(s), k - 1)
  }

  lemma {:induction false} QueuedExact(s: Q.State, k: nat)
    ensures |WriteFrames(s, k).accepted| == |s.accepted| + Queued(s, k)
    decreases k
  {
    if k > 0 && |Q.Sent(s).accepted| != |s.accepted| { QueuedExact(Q.Sent(s), k - 1); }
  }

  /** It is a run of single frames, so all that holds of such runs holds of it. */
  lemma {:induction false} FramesAreSends(size: int, acts: seq<Q.Action>, k: nat) returns (sends: seq<Q.Action>)
    ensures forall i :: 0 <= i < |sends| ==> sends[i].Send?
    ensures Q.After(size, acts + sends) == WriteFrames(Q.After(size, acts), k)
    decreases k
  {
    hide Q.Sent, Q.After;
    var s := Q.After(size, acts);
    if k == 0 {
      sends := [];
      assert acts + sends == acts;
    } else {
      Snoc(size, acts, Q.Send);
      if |Q.Sent(s).accepted| == |s.accepted| {
        sends := [Q.Send];
      } else {
        var more := FramesAreSends(size, acts + [Q.Send], k - 1);
        sends := [Q.Send] + more;
        assert acts + sends == acts + [Q.Send] + more;
      }
    }
  }

  lemma Snoc(size: int, acts: seq<Q.Action>, a: Q.Action)
    ensures Q.After(size, acts + [a]) == Q.Do(Q.After(size, acts), a)
  {
    assert (acts + [a])[..|acts|] == acts;
  }

  // ---- runs of whole messages and of everything else ----

  datatype Op = Message(frames: nat) | Other(act: Q.Action)

  function Perform(s: Q.State, op: Op): Q.State
  {
    match op
    case Message(k) => WriteFrames(s, k)
    case Other(a) => if a.Send? then s else Q.Do(s, a)
  }

  function Through(size: int, ops: seq<Op>): Q.State
  {
    if ops == [] then Q.Init(size) else Perform(Through(size, ops[..|ops| - 1]), ops[|ops| - 1])
  }

  /** The two marks of a frame: it starts its message, it ends it. */
  datatype Tag = Tag(first: bool, fin: bool)

  /** The first n frames of a message of k frames. */
  function Frames(k: nat, n: nat): (r: seq<Tag>)
    requires n <= k
  {
    seq(n, i requires 0 <= i < n => Tag(i == 0, i == k - 1))
  }

  function TagsOf(s: Q.State, op: Op): (r: seq<Tag>)
  {
    if op.Message? then Frames(op.frames, Queued(s, op.frames)) else []
  }

  /** The marks of the frames accepted in a run, in order. */
  function Tags(size: int, ops: seq<Op>): (r: seq<Tag>)
  {
    if ops == [] then []
    else
      var n := |ops| - 1;
      Tags(size, ops[..n]) + TagsOf(Through(size, ops[..n]), ops[n])
  }

  /** There is a mark for every frame accepted. */
  lemma {:induction false} TagsCount(size: int, ops: seq<Op>)
    ensures |Tags(size, ops)| == |Through(size, ops).accepted|
  {
    if ops != [] {
      var n := |ops| - 1;
      var s := Through(size, ops[..n]);
      TagsCount(size, ops[..n]);
      match ops[n]
      case Message(k) => QueuedExact(s, k);
      case Other(a) => if !a.Send? { OthersAccept(s, a); }
    }
  }

  lemma OthersAccept(s: Q.State, a: Q.Action)
    requires !a.Send?
    ensures Q.Do(s, a).accepted == s.accepted
  {
  }

  // ---- the framing of the stream of frames (section 5.4 of RFC 6455) ----

  /** Between two messages, inside one, or past a frame that does not belong where it stands. */
  datatype Place = Between | Inside | Wrong

  function Next(p: Place, t: Tag): Place
  {
    if p == Wrong || t.first != (p == Between) then Wrong else if t.fin then Between else Inside
  }

  function Scan(tags: seq<Tag>): Place
  {
    if tags == [] then Between else Next(Scan(tags[..|tags| - 1]), tags[|tags| - 1])
  }

  /** Where the first n of k frames lead. */
  lemma {:induction false} ScanFrames(tags: seq<Tag>, k: nat, n: nat)
    requires n <= k
    ensures Scan(tags + Frames(k, n)) ==
            if n == 0 then Scan(tags)
            else if Scan(tags) != Between then Wrong
            else if n == k then Between else Inside
  {
    if n == 0 {
      assert tags + Frames(k, n) == tags;
    } else {
      var all, last := tags + Frames(k, n), Tag(n == 1, n == k);
      ScanFrames(tags, k, n - 1);
      assert all == tags + Frames(k, n - 1) + [last];
      assert all[..|all| - 1] == tags + Frames(k, n - 1) && all[|all| - 1] == last;
    }
  }

  /** There is room for the first frame of the message but not for all. */
  predicate Torn(s: Q.State, op: Op)
  {
    op.Message? && !s.closed && 0 < s.size && |s.queue| < s.size < |s.queue| + op.frames
  }

  ghost predicate NoneTorn(size: int, ops: seq<Op>)
  {
    forall i :: 0 <= i < |ops| ==> !Torn(Through(size, ops[..i]), ops[i])
  }

  /** The frames accepted in a run are whole messages, one after the other, if and only if no message
      found room for its first frame and not for all. A message torn once is never mended. */
  lemma {:induction false} WholeMessages(size: int, ops: seq<Op>)
    ensures Scan(Tags(size, ops)) == Between <==> NoneTorn(size, ops)
  {
    if ops != [] {
      var n := |ops| - 1;
      var front, op := ops[..n], ops[n];
      WholeMessages(size, front);
      TornLast(size, ops);
      var s, tags := Through(size, front), Tags(size, front);
      assert Tags(size, ops) == tags + TagsOf(s, op);
      hide Through, Tags, NoneTorn;
      if op.Message? {
        ScanFrames(tags, op.frames, Queued(s, op.frames));
      } else {
        assert tags + [] == tags;
      }
    }
  }

  lemma TornLast(size: int, ops: seq<Op>)
    requires ops != []
    ensures var n := |ops| - 1;
            NoneTorn(size, ops) <==> NoneTorn(size, ops[..n]) && !Torn(Through(size, ops[..n]), ops[n])
  {
    var n := |ops| - 1;
    assert forall i :: 0 <= i < n ==> ops[..n][..i] == ops[..i] && ops[..n][i] == ops[i];
    hide Through, Torn;
  }

  /** A message of three frames on a queue of two: the peer gets two of them, and no end. */
  lemma ThreeOnTwo()
    ensures Tags(2, [Message(3)]) == [Tag(true, false), Tag(false, false)] && Scan(Tags(2, [Message(3)])) == Inside
  {
    var ops := [Message(3)];
    assert ops[..0] == [];
    assert Tags(2, ops) == [] + Frames(3, 2) == [Tag(true, false), Tag(false, false)];
    ScanFrames([], 3, 2);
    assert [] + Frames(3, 2) == Frames(3, 2);
  }
}
