/** The loop of flush as a function of the list and of the kernel's replies, and when it never ends. */
module FlushRun {
  import opened Bytes
  import opened Kernel
  import opened WriteList

  /** The list after one reply to a call for its head. */
  function Sending(l: seq<ToWrite>, r: Reply): (next: seq<ToWrite>)
    requires ValidList(l)
    ensures ValidList(next) && (NoneStuck(l) ==> NoneStuck(next))
  {
    if l == [] || Stuck(l[0]) then l
    else
      HeadUnsent(l);
      var n := Max(Took(r, |Unsent(l[0])|), 0);
      PopBytes(l, n, []);
      PopStuck(l, n);
      Popped(l, n)
  }

  function ListAfter(l: seq<ToWrite>, script: seq<Reply>, i: nat): (r: seq<ToWrite>)
    requires ValidList(l) && i <= |script|
    ensures ValidList(r) && (NoneStuck(l) ==> NoneStuck(r))
  {
    if i == 0 then l else Sending(ListAfter(l, script, i - 1), script[i - 1])
  }

  /** A file that has ended: sendfile takes nothing of the range and reports no error. */
  predicate Ended(t: ToWrite, r: Reply) { t.File? && r.errno == Done && r.n == 0 }

  /** The loop takes another turn after this reply, with something else to do than before. */
  predicate Passes(l: seq<ToWrite>, r: Reply)
  {
    l != [] && !Stuck(l[0]) && (r.errno == Interrupted || (r.errno == Done && !Ended(l[0], r)))
  }

  /** The loop comes to its call number i. */
  predicate Reaches(l: seq<ToWrite>, script: seq<Reply>, i: nat)
    requires ValidList(l)
  {
    i <= |script| && forall j :: 0 <= j < i ==> Passes(ListAfter(l, script, j), script[j])
  }

  /** There it has at its head a range of no bytes, or a range of a file that has ended. */
  predicate SpinsAt(l: seq<ToWrite>, script: seq<Reply>, i: nat)
    requires ValidList(l) && i <= |script|
  {
    var now := ListAfter(l, script, i);
    now != [] && (Stuck(now[0]) || (i < |script| && Ended(now[0], script[i])))
  }

  ghost predicate Hangs(l: seq<ToWrite>, script: seq<Reply>)
    requires ValidList(l)
  {
    exists i: nat :: Reaches(l, script, i) && SpinsAt(l, script, i)
  }

  /** There its call for the head of the list meets a broken socket. */
  predicate BreaksAt(l: seq<ToWrite>, script: seq<Reply>, i: nat)
    requires ValidList(l) && i <= |script|
  {
    var now := ListAfter(l, script, i);
    now != [] && !Stuck(now[0]) && i < |script| && script[i].errno == Broken
  }

  ghost predicate Breaks(l: seq<ToWrite>, script: seq<Reply>)
    requires ValidList(l)
  {
    exists i: nat :: Reaches(l, script, i) && BreaksAt(l, script, i)
  }

  /** There the list is empty or the socket is full. */
  predicate PausesAt(l: seq<ToWrite>, script: seq<Reply>, i: nat)
    requires ValidList(l) && i <= |script|
  {
    var now := ListAfter(l, script, i);
    now == [] || (!Stuck(now[0]) && (i == |script| || script[i].errno == WouldBlock))
  }

  /** The loop ends with this list: what the calls until then have left. */
  ghost predicate Leaves(l: seq<ToWrite>, script: seq<Reply>, left: seq<ToWrite>)
    requires ValidList(l)
  {
    exists i: nat :: Reaches(l, script, i) && PausesAt(l, script, i) &&
                     left == ListAfter(l, script, Min(i + 1, |script|))
  }

  /** A loop that ends at call i comes to no later call, so that call decides how it ends. */
  lemma Ends(l: seq<ToWrite>, script: seq<Reply>, i: nat)
    requires ValidList(l) && Reaches(l, script, i)
    requires i == |script| || !Passes(ListAfter(l, script, i), script[i])
    ensures Hangs(l, script) <==> SpinsAt(l, script, i)
    ensures Breaks(l, script) <==> BreaksAt(l, script, i)
  {
    hide ListAfter;
    forall k: nat | Reaches(l, script, k) && k != i ensures !SpinsAt(l, script, k) && !BreaksAt(l, script, k) {
      if k < i { assert Passes(ListAfter(l, script, k), script[k]); }
    }
  }

  /** Every loop ends in one of the three ways, and in one only. */
  lemma EndsOneWay(l: seq<ToWrite>, script: seq<Reply>) returns (i: nat)
    requires ValidList(l)
    ensures Reaches(l, script, i) && (SpinsAt(l, script, i) || BreaksAt(l, script, i) || PausesAt(l, script, i))
    ensures Hangs(l, script) ==> !Breaks(l, script)
    ensures (exists left :: Leaves(l, script, left)) <==> !Hangs(l, script) && !Breaks(l, script)
  {
    i := 0;
    StartsAt(l, script);
    hide ListAfter, Hangs, Breaks;
    while i < |script| && Passes(ListAfter(l, script, i), script[i])
      invariant i <= |script| && Reaches(l, script, i)
    {
      NextCall(l, script, i);
      i := i + 1;
    }
    Ends(l, script, i);
    if PausesAt(l, script, i) {
      assert Leaves(l, script, ListAfter(l, script, Min(i + 1, |script|)));
    }
    forall left | Leaves(l, script, left) ensures PausesAt(l, script, i) {
      var k: nat :| Reaches(l, script, k) && PausesAt(l, script, k);
      if k < i { assert Passes(ListAfter(l, script, k), script[k]); }
    }
  }

  /** Without an empty range on the list, only a file that ends while queued makes flush hang. */
  lemma HangsOnEnd(l: seq<ToWrite>, script: seq<Reply>)
    requires ValidList(l) && NoneStuck(l) && Hangs(l, script)
    ensures exists i :: 0 <= i < |script| && script[i].errno == Done && script[i].n == 0
  {
    var i: nat :| Reaches(l, script, i) && SpinsAt(l, script, i);
    hide ListAfter, Passes;
    assert !Stuck(ListAfter(l, script, i)[0]);
  }

  lemma StartsAt(l: seq<ToWrite>, script: seq<Reply>)
    requires ValidList(l)
    ensures ListAfter(l, script, 0) == l && Reaches(l, script, 0)
  {
  }

  lemma NextList(l: seq<ToWrite>, script: seq<Reply>, i: nat)
    requires ValidList(l) && i < |script|
    ensures ListAfter(l, script, i + 1) == Sending(ListAfter(l, script, i), script[i])
  {
  }

  /** Nothing is left to send. */
  lemma Emptied(l: seq<ToWrite>, script: seq<Reply>, i: nat)
    requires ValidList(l) && Reaches(l, script, i) && ListAfter(l, script, i) == []
    ensures !Hangs(l, script) && !Breaks(l, script) && Leaves(l, script, [])
  {
    Ends(l, script, i);
    if i < |script| { NextList(l, script, i); }
  }

  lemma NextCall(l: seq<ToWrite>, script: seq<Reply>, i: nat)
    requires ValidList(l) && i < |script| && Reaches(l, script, i) && Passes(ListAfter(l, script, i), script[i])
    ensures Reaches(l, script, i + 1)
    ensures ListAfter(l, script, i + 1) == Sending(ListAfter(l, script, i), script[i])
  {
    hide Passes;
  }

  lemma SendingPops(l: seq<ToWrite>, r: Reply)
    requires ValidList(l) && l != [] && !Stuck(l[0])
    ensures Unsent(l[0]) != [] && Sending(l, r) == Popped(l, Max(Took(r, |Unsent(l[0])|), 0))
  {
  }

  /** Nothing taken, nothing popped. */
  lemma NothingPopped(l: seq<ToWrite>)
    requires ValidList(l) && l != [] && !Stuck(l[0])
    ensures Popped(l, 0) == l
  {
    assert [l[0]] + l[1..] == l;
  }

  /** The socket is full: the loop ends with what this last call has left. */
  lemma Pauses(l: seq<ToWrite>, script: seq<Reply>, i: nat)
    requires ValidList(l) && Reaches(l, script, i) && PausesAt(l, script, i) && ListAfter(l, script, i) != []
    ensures !Hangs(l, script) && !Breaks(l, script)
    ensures i == |script| ==> Leaves(l, script, ListAfter(l, script, i))
    ensures i < |script| ==> Leaves(l, script, Sending(ListAfter(l, script, i), script[i]))
  {
    hide ListAfter, Hangs, Breaks, Sending;
    Ends(l, script, i);
    if i < |script| { NextList(l, script, i); }
  }

  /** The end of its file leaves the head, and the list, as it is. */
  lemma EndedStays(l: seq<ToWrite>, r: Reply)
    requires ValidList(l) && l != [] && !Stuck(l[0]) && Ended(l[0], r)
    ensures Sending(l, r) == l
  {
    assert [l[0]] + l[1..] == l;
  }

  /** Flush hangs on a list that starts with a range of no bytes, whatever the kernel replies. */
  lemma EmptyRangeHangs(fd: nat, content: Str, offset: nat, script: seq<Reply>)
    requires offset <= |content|
    ensures Hangs([File(fd, content, offset, 0)], script)
  {
    var l := [File(fd, content, offset, 0)];
    StartsAt(l, script);
    Ends(l, script, 0);
  }

  /** And on a file of which one byte was sent before it ended. */
  lemma EndedFileHangs(fd: nat, content: Str)
    requires |content| == 2
    ensures Hangs([File(fd, content, 0, 2)], [Reply(1, Done), Reply(0, Done)])
  {
    var l, script := [File(fd, content, 0, 2)], [Reply(1, Done), Reply(0, Done)];
    StartsAt(l, script);
    NextCall(l, script, 0);
    SendingPops(l, script[0]);
    assert ListAfter(l, script, 1) == [File(fd, content, 1, 1)];
    Ends(l, script, 1);
  }
}
