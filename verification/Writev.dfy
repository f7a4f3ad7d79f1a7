/** Writev with several slices and a short write: what is queued, and what is not. */
module Writev {
  import opened Bytes

  /** The bytes that the requeue loop puts on the write list after the kernel took n > 0 bytes: the
      rest of the slice in which the write stopped. The loop ends there. */
  function Requeued(slices: seq<Str>, n: nat): (r: Str)
  {
    if slices == [] || n == 0 then []
    else if n < |slices[0]| then slices[0][n..]
    else Requeued(slices[1..], n - |slices[0]|)
  }

  method Requeue(slices: seq<Str>, nwrite: nat) returns (queued: Str)
    ensures queued == Requeued(slices, nwrite)
  {
    queued := [];
    var n, i := nwrite, 0;
    assert slices[0..] == slices;
    while i < |slices| && n > 0
      invariant 0 <= i <= |slices| && 0 <= n
      invariant Requeued(slices, nwrite) == queued + Requeued(slices[i..], n)
      invariant n > 0 ==> queued == []
    {
      var b := slices[i];
      assert slices[i..][0] == b && slices[i..][1..] == slices[i + 1..];
      if n < |b| {
        queued := b[n..];
        n := 0;
      } else {
        n := n - |b|;
      }
      i := i + 1;
    }
  }

  /** The length of the last slice that is not empty. */
  function LastLength(slices: seq<Str>): (n: nat)
  {
    if slices == [] then 0 else if Concat(slices[1..]) == [] then |slices[0]| else LastLength(slices[1..])
  }

  /** After a write of n bytes, sent and queued bytes are all the bytes if and only if the write reached
      into the last slice that is not empty; otherwise the slices after the one it stopped in are lost. */
  lemma {:induction false} ConservedIff(slices: seq<Str>, n: nat)
    requires 0 < n <= |Concat(slices)|
    ensures Concat(slices)[..n] + Requeued(slices, n) == Concat(slices) <==> n > |Concat(slices)| - LastLength(slices)
  {
    var all, first, rest := Concat(slices), slices[0], slices[1..];
    if Concat(rest) == [] {
      assert all == first + [] == first;
      if n == |first| { assert all[..n] == all && Requeued(slices, n) == Requeued(rest, 0) == []; }
    } else {
      LastBound(rest);
      if n < |first| {
        assert |all[..n] + first[n..]| == |first| < |all|;
      } else if n == |first| {
        assert Requeued(slices, n) == Requeued(rest, 0) == [];
        assert |all[..n]| == n < |all|;
      } else {
        var m := n - |first|;
        ConservedIff(rest, m);
        Skip(first, Concat(rest), m, Requeued(rest, m));
      }
    }
  }

  lemma Skip(first: Str, more: Str, m: nat, r: Str)
    requires m <= |more|
    ensures (first + more)[..|first| + m] + r == first + more <==> more[..m] + r == more
  {
    assert (first + more)[..|first| + m] + r == first + (more[..m] + r);
    assert (first + more)[|first|..] == more;
    assert (first + (more[..m] + r))[|first|..] == more[..m] + r;
  }

  lemma {:induction false} LastBound(slices: seq<Str>)
    ensures LastLength(slices) <= |Concat(slices)|
  {
    if slices != [] { LastBound(slices[1..]); }
  }

  /** Two slices of one byte each, of which the kernel takes one byte: the second is lost. */
  lemma SecondSliceLost(a: byte, b: byte)
    ensures var slices := [[a], [b]];
            Concat(slices) == [a, b] && Concat(slices)[..1] + Requeued(slices, 1) == [a]
  {
    var slices := [[a], [b]];
    assert slices[1..] == [[b]] && [[b]][1..] == [];
    assert Concat([[b]]) == [b];
    assert Requeued(slices, 1) == Requeued([[b]], 0) == [];
  }
}
