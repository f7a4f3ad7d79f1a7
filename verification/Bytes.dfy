/** Bytes, options, the concatenation of a list of pieces, and the numbering of resources. */
module Bytes {

  type byte = bv8
  type Str = seq<byte>

  const TWO_63: nat := 0x8000_0000_0000_0000

  datatype Option<+T> = None | Some(value: T)

  /** The byte with value n, by counting up from zero. */
  function ToByte(n: nat): (b: byte)
    requires n < 256
    ensures b as int == n
  {
    if n == 0 then 0 else ToByte(n - 1) + 1
  }

  /** The stream that a list of network reads carries. */
  function Concat(pieces: seq<Str>): (r: Str)
  {
    if pieces == [] then [] else pieces[0] + Concat(pieces[1..])
  }

  lemma {:induction false} ConcatAppend(a: seq<Str>, b: seq<Str>)
    ensures Concat(a + b) == Concat(a) + Concat(b)
  {
    if a == [] {
      assert a + b == b;
    } else {
      assert (a + b)[0] == a[0] && (a + b)[1..] == a[1..] + b;
      ConcatAppend(a[1..], b);
    }
  }

  lemma ConcatSnoc(a: seq<Str>, s: Str)
    ensures Concat(a + [s]) == Concat(a) + s
  {
    ConcatAppend(a, [s]);
    assert Concat([s]) == s + Concat([s][1..]) == s;
  }

  /** Each of the first n numbers, once. */
  function AllOf(n: nat): (r: multiset<nat>)
  {
    if n == 0 then multiset{} else AllOf(n - 1) + multiset{n - 1}
  }

  lemma {:induction false} OnceEach(n: nat, r: nat)
    ensures AllOf(n)[r] == if r < n then 1 else 0
  {
    if n > 0 { OnceEach(n - 1, r); }
  }
}
