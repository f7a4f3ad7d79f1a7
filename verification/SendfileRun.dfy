/** The direct loop of Sendfile as a function of the kernel's replies, and the replies on which its
    report is true. */
module SendfileRun {
  import opened Kernel

  const MAX_SENDFILE: nat := 4_194_304

  /** How sending a file straight to the socket ends: all sent, at an early end of the file, at a
      full socket with bytes left, or with the socket broken. */
  datatype Direct = AllSent | EndOfFile(left: nat) | Blocked(left: nat) | Broke

  /** The bytes left after one reply to a call for the next part of the range. */
  function LeftAfter(r: Reply, remain: nat): (left: nat)
    requires remain > 0
    ensures left <= remain
  {
    remain - Max(Took(r, Min(MAX_SENDFILE, remain)), 0)
  }

  function DirectRun(script: seq<Reply>, remain: nat): (d: Direct)
    ensures d.EndOfFile? || d.Blocked? ==> 0 < d.left <= remain
    decreases |script|
  {
    if remain == 0 then AllSent
    else if script == [] then Blocked(remain)
    else
      var left := LeftAfter(script[0], remain);
      match script[0].errno
      case Broken => Broke
      case WouldBlock => Blocked(left)
      case Interrupted => DirectRun(script[1..], left)
      case Done =>
        if Took(script[0], Min(MAX_SENDFILE, remain)) == 0 then EndOfFile(remain) else DirectRun(script[1..], left)
  }

  /** The bytes that a Sendfile of `remain` bytes takes responsibility for, and those it reports. */
  function Taken(d: Direct, remain: nat, dupOk: bool): (k: nat)
    requires d.EndOfFile? || d.Blocked? ==> d.left <= remain
    ensures k <= remain
  {
    match d
    case AllSent => remain
    case EndOfFile(left) => remain - left
    case Blocked(left) => if dupOk then remain else remain - left
    case Broke => 0
  }

  function Reported(d: Direct, remain: nat): (n: nat) { if d.Broke? then 0 else remain }

  /** A socket that takes all it is offered, k times: the range is sent in calls of 4 MiB each, so it is
      sent completely if and only if k calls are enough for it. */
  lemma {:induction false} CallSize(k: nat, remain: nat)
    ensures DirectRun(seq(k, _ => Reply(4_194_304, Done)), remain) ==
            if remain <= k * 4_194_304 then AllSent else Blocked(remain - k * 4_194_304)
  {
    var script := seq(k, _ => Reply(4_194_304, Done));
    if remain > 0 && k > 0 {
      assert script[1..] == seq(k - 1, _ => Reply(4_194_304, Done));
      CallSize(k - 1, LeftAfter(script[0], remain));
    }
  }

  // ---- the same in terms of the replies ----

  /** The reply to a call; when the replies have run out, the socket is full. */
  function ReplyAt(script: seq<Reply>, i: nat): Reply { if i < |script| then script[i] else Reply(-1, WouldBlock) }

  predicate EndsFile(r: Reply) { r.errno == Done && r.n == 0 }

  predicate GoesOn(r: Reply) { r.errno == Interrupted || (r.errno == Done && !EndsFile(r)) }

  /** The bytes left after the first i replies. */
  function Left(script: seq<Reply>, remain: nat, i: nat): (left: nat)
    requires i <= |script|
    decreases i
  {
    if i == 0 || remain == 0 then remain else Left(script[1..], LeftAfter(script[0], remain), i - 1)
  }

  /** The loop comes to its call number i: no earlier reply ended it, and bytes are left. */
  predicate Meets(script: seq<Reply>, remain: nat, i: nat)
  {
    i <= |script| && (forall j :: 0 <= j < i ==> GoesOn(script[j])) && Left(script, remain, i) > 0
  }

  /** No call meets the end of the file, and a full socket is met only with a descriptor to spare. */
  ghost predicate Truthful(script: seq<Reply>, remain: nat, dupOk: bool)
  {
    forall i: nat :: Meets(script, remain, i) ==>
      !EndsFile(ReplyAt(script, i)) && (ReplyAt(script, i).errno == WouldBlock ==> dupOk)
  }

  ghost predicate Unbroken(script: seq<Reply>, remain: nat)
  {
    forall i: nat :: Meets(script, remain, i) ==> ReplyAt(script, i).errno != Broken
  }

  lemma MeetsNext(script: seq<Reply>, remain: nat, i: nat)
    requires script != [] && remain > 0 && GoesOn(script[0])
    ensures Meets(script, remain, i + 1) <==> Meets(script[1..], LeftAfter(script[0], remain), i)
    ensures ReplyAt(script, i + 1) == ReplyAt(script[1..], i)
  {
    if Meets(script[1..], LeftAfter(script[0], remain), i) {
      forall j | 0 <= j < i + 1 ensures GoesOn(script[j]) {
        if j > 0 { assert script[j] == script[1..][j - 1]; }
      }
    }
    if Meets(script, remain, i + 1) {
      forall j | 0 <= j < i ensures GoesOn(script[1..][j]) {
        assert script[1..][j] == script[j + 1];
      }
    }
  }

  /** The first reply settles the matter, or leaves it to the others. */
  lemma TruthfulNext(script: seq<Reply>, remain: nat, dupOk: bool)
    requires script != [] && remain > 0 && GoesOn(script[0])
    ensures Truthful(script, remain, dupOk) <==> Truthful(script[1..], LeftAfter(script[0], remain), dupOk)
    ensures Unbroken(script, remain) <==> Unbroken(script[1..], LeftAfter(script[0], remain))
  {
    var rest, left := script[1..], LeftAfter(script[0], remain);
    hide LeftAfter, Left, Meets;
    assert ReplyAt(script, 0) == script[0];
    forall i: nat ensures Meets(script, remain, i + 1) <==> Meets(rest, left, i)
                  ensures ReplyAt(script, i + 1) == ReplyAt(rest, i)
    {
      MeetsNext(script, remain, i);
    }
    if Truthful(rest, left, dupOk) {
      forall i: nat | Meets(script, remain, i)
        ensures !EndsFile(ReplyAt(script, i)) && (ReplyAt(script, i).errno == WouldBlock ==> dupOk)
      {
        if i > 0 { MeetsNext(script, remain, i - 1); }
      }
    }
    if Unbroken(rest, left) {
      forall i: nat | Meets(script, remain, i) ensures ReplyAt(script, i).errno != Broken {
        if i > 0 { MeetsNext(script, remain, i - 1); }
      }
    }
  }

  lemma {:induction false} RunExact(script: seq<Reply>, remain: nat, dupOk: bool)
    ensures var d := DirectRun(script, remain);
            && (Truthful(script, remain, dupOk) <==> !d.EndOfFile? && (d.Blocked? ==> dupOk))
            && (Unbroken(script, remain) <==> !d.Broke?)
    decreases |script|
  {
    if remain > 0 {
      if script != [] && GoesOn(script[0]) {
        TruthfulNext(script, remain, dupOk);
        RunExact(script[1..], LeftAfter(script[0], remain), dupOk);
      } else {
        assert Meets(script, remain, 0);
      }
    } else {
      forall i: nat ensures !Meets(script, 0, i) {
        if i <= |script| { assert Left(script, 0, i) == 0; }
      }
    }
  }

  /** Sendfile reports what it has taken if and only if its calls meet no end of the file, and a full
      socket only when the descriptor can be duplicated; it takes the whole range if and only if,
      besides, they meet no broken socket. */
  lemma KeepsWord(script: seq<Reply>, remain: nat, dupOk: bool)
    requires remain > 0
    ensures var d := DirectRun(script, remain);
            && (Taken(d, remain, dupOk) == Reported(d, remain) <==> Truthful(script, remain, dupOk))
            && (Taken(d, remain, dupOk) == remain <==> Truthful(script, remain, dupOk) && Unbroken(script, remain))
  {
    RunExact(script, remain, dupOk);
    hide DirectRun, Truthful, Unbroken;
  }
}
