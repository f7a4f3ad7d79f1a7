/** The size classes of the aligned allocator and the tables that its init builds. */
module SizeClass {

  const BUCKETS: nat := 11
  const MAX_SIZE: nat := 32768

  /** The size of class k: 32 shifted left by k. */
  function Size(k: nat): (n: nat)
    ensures n >= 32
  {
    if k == 0 then 32 else 2 * Size(k - 1)
  }

  lemma {:induction false} SizeMonotone(j: nat, k: nat)
    requires j < k
    ensures Size(j) < Size(k)
  {
    if j < k - 1 { SizeMonotone(j, k - 1); }
  }

  lemma {:induction false} SizeAligned(k: nat)
    ensures Size(k) % 32 == 0
  {
    if k > 0 { SizeAligned(k - 1); }
  }

  lemma SizeTop()
    ensures Size(BUCKETS - 1) == MAX_SIZE
  {
    assert Size(4) == 512 by { assert Size(2) == 128; }
    assert Size(8) == 8192 by { assert Size(6) == 2048; }
  }

  /** Class k is the least one that can hold n bytes. */
  predicate IsLeast(n: int, k: nat)
  {
    n <= Size(k) && forall j: nat :: j < k ==> Size(j) < n
  }

  /** The search of getPoolBySize; 255 stands for a size that no class can hold. */
  method PoolBySize(sizes: array<int>, size: int) returns (k: nat)
    requires sizes.Length == BUCKETS && forall j: nat :: j < BUCKETS ==> sizes[j] == Size(j)
    ensures size <= MAX_SIZE ==> k < BUCKETS && IsLeast(size, k)
    ensures size > MAX_SIZE ==> k == 255
  {
    SizeTop();
    k := 0;
    while k < sizes.Length
      invariant 0 <= k <= BUCKETS && forall j: nat :: j < k ==> Size(j) < size
    {
      if size <= sizes[k] {
        if k < BUCKETS - 1 { SizeMonotone(k, BUCKETS - 1); }
        return k;
      }
      k := k + 1;
    }
    assert Size(BUCKETS - 1) < size;
    k := 255;
  }

  /** The first loop of init. */
  method PoolSizes() returns (sizes: array<int>)
    ensures sizes.Length == BUCKETS && forall j: nat :: j < BUCKETS ==> sizes[j] == Size(j)
  {
    sizes := new int[BUCKETS];
    var i, size := 0, 32;
    while i < sizes.Length
      invariant 0 <= i <= BUCKETS && size == Size(i)
      invariant forall j: nat :: j < i ==> sizes[j] == Size(j)
    {
      sizes[i] := size;
      i, size := i + 1, size * 2;
    }
  }

  /** The loops of init: every size up to the maximum is mapped to the least class that holds it. */
  method InitTables() returns (sizes: array<int>, indexes: array<nat>)
    ensures sizes.Length == BUCKETS && forall j: nat :: j < BUCKETS ==> sizes[j] == Size(j)
    ensures indexes.Length == MAX_SIZE + 1
    ensures forall n: nat :: n <= MAX_SIZE ==> indexes[n] < BUCKETS && IsLeast(n, indexes[n])
  {
    hide Size, IsLeast;
    sizes := PoolSizes();
    indexes := new nat[MAX_SIZE + 1];
    var i := 0;
    while i < indexes.Length
      invariant 0 <= i <= indexes.Length
      invariant forall j: nat :: j < BUCKETS ==> sizes[j] == Size(j)
      invariant forall n: nat :: n < i ==> indexes[n] < BUCKETS && IsLeast(n, indexes[n])
    {
      var k := PoolBySize(sizes, i);
      indexes[i] := k;
      i := i + 1;
    }
  }

  /** The bucket that Free chooses for a buffer of capacity c, if it keeps the buffer at all. */
  predicate PooledIn(c: nat, k: nat) { c % 32 == 0 && c <= MAX_SIZE && k < BUCKETS && IsLeast(c, k) }

  /** The capacities that buckets are meant to hold. */
  ghost predicate IsClass(c: nat) { exists k: nat :: k < BUCKETS && c == Size(k) }

  /** Free puts every buffer it keeps into the bucket of its own capacity if and only if the capacity
      is that of a class, is not a multiple of 32, or is above the maximum. */
  lemma FreeExact(c: nat)
    ensures (forall k: nat :: PooledIn(c, k) ==> Size(k) == c) <==> IsClass(c) || c % 32 != 0 || c > MAX_SIZE
  {
    if IsClass(c) {
      var j: nat :| j < BUCKETS && c == Size(j);
      forall k: nat | PooledIn(c, k) ensures Size(k) == c {
        if j < k { assert false; }
        if k < j { SizeMonotone(k, j); }
      }
    } else if c % 32 == 0 && c <= MAX_SIZE {
      var k := Least(c, 0);
      assert PooledIn(c, k);
    }
  }

  lemma Least(c: int, from: nat) returns (k: nat)
    requires from < BUCKETS && c <= MAX_SIZE && forall j: nat :: j < from ==> Size(j) < c
    ensures k < BUCKETS && IsLeast(c, k)
    decreases BUCKETS - from
  {
    SizeTop();
    if c <= Size(from) { k := from; } else { k := Least(c, from + 1); }
  }

  /** A foreign buffer of 96 bytes is kept among those of 128, where an allocation of 100 bytes finds it. */
  lemma ForeignCapacity()
    ensures PooledIn(96, 2) && Size(2) != 96 && IsLeast(100, 2) && 96 < 100
  {
    assert Size(2) == 128 && Size(1) == 64;
    SizeMonotone(0, 1);
  }
}
