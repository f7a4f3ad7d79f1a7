/** The aligned allocator over an explicit memory of backing arrays: pools, buffers in the hands of
    callers, and what the pools may give back. */
module Allocator {
  import opened Bytes
  import opened SizeClass

  /** A slice from the start of a backing array. */
  datatype Slice = Slice(id: nat, len: nat)

  type Memory = map<nat, Str>

  /** Bucket k holds arrays of the size of class k, each once, and none that a caller holds. */
  predicate Bucket(mem: Memory, live: set<nat>, ids: seq<nat>, size: nat)
  {
    && (forall i :: 0 <= i < |ids| ==> ids[i] in mem && |mem[ids[i]]| == size && ids[i] !in live)
    && (forall i, j :: 0 <= i < j < |ids| ==> ids[i] != ids[j])
  }

  predicate Pools(mem: Memory, live: set<nat>, pools: seq<seq<nat>>)
  {
    |pools| == BUCKETS && forall k: nat :: k < BUCKETS ==> Bucket(mem, live, pools[k], Size(k))
  }

  /** Callers hold arrays of a class, or above the maximum. */
  ghost predicate Held(mem: Memory, live: set<nat>, next: nat)
  {
    && (forall id :: id in mem ==> id < next)
    && (forall id :: id in live ==> id in mem && (IsClass(|mem[id]|) || |mem[id]| > MAX_SIZE))
  }

  /** The arrays of a set are as they were. */
  predicate Kept(before: Memory, after: Memory, ids: set<nat>)
  {
    forall id :: id in ids ==> id in before && id in after && after[id] == before[id]
  }

  predicate Table(indexes: seq<nat>)
  {
    |indexes| == MAX_SIZE + 1 && forall n: nat :: n <= MAX_SIZE ==> indexes[n] < BUCKETS && IsLeast(n, indexes[n])
  }

  /** An array leaves its bucket for a caller. */
  lemma TakePools(mem: Memory, live: set<nat>, pools: seq<seq<nat>>, k: nat, i: nat)
    requires Pools(mem, live, pools) && k < BUCKETS && i < |pools[k]|
    ensures
      var id := pools[k][i];
      Pools(mem, live + {id}, pools[k := pools[k][..i] + pools[k][i + 1..]]) && id !in live &&
      id in mem && |mem[id]| == Size(k)
  {
    var id, rest := pools[k][i], pools[k][..i] + pools[k][i + 1..];
    assert Bucket(mem, live, pools[k], Size(k));
    assert Bucket(mem, live + {id}, rest, Size(k));
    forall j: nat | j < BUCKETS && j != k ensures Bucket(mem, live + {id}, pools[j], Size(j)) {
      assert Bucket(mem, live, pools[j], Size(j));
      Apart(j, k);
    }
  }

  lemma Apart(j: nat, k: nat)
    requires j != k
    ensures Size(j) != Size(k)
  {
    if j < k { SizeMonotone(j, k); } else { SizeMonotone(k, j); }
  }

  lemma ClassAligned(size: nat)
    requires IsClass(size)
    ensures size % 32 == 0
  {
    var k: nat :| k < BUCKETS && size == Size(k);
    SizeAligned(k);
  }

  /** A caller's array of class k goes into bucket k. */
  lemma GivePools(mem: Memory, live: set<nat>, pools: seq<seq<nat>>, k: nat, id: nat)
    requires Pools(mem, live, pools) && k < BUCKETS && id in live && id in mem && |mem[id]| == Size(k)
    ensures Pools(mem, live - {id}, pools[k := pools[k] + [id]])
  {
    forall j: nat | j < BUCKETS ensures Bucket(mem, live - {id}, pools[k := pools[k] + [id]][j], Size(j)) {
      assert Bucket(mem, live, pools[j], Size(j));
    }
  }

  lemma DropPools(mem: Memory, live: set<nat>, pools: seq<seq<nat>>, id: nat)
    requires Pools(mem, live, pools)
    ensures Pools(mem, live - {id}, pools)
  {
    forall j: nat | j < BUCKETS ensures Bucket(mem, live - {id}, pools[j], Size(j)) {
      assert Bucket(mem, live, pools[j], Size(j));
    }
  }

  /** Memory that grows by an array of a caller, or changes such an array, leaves the pools in order. */
  lemma WritePools(mem: Memory, live: set<nat>, pools: seq<seq<nat>>, id: nat, data: Str)
    requires Pools(mem, live, pools) && (id in live || id !in mem)
    ensures Pools(mem[id := data], live + {id}, pools)
  {
    forall j: nat | j < BUCKETS ensures Bucket(mem[id := data], live + {id}, pools[j], Size(j)) {
      assert Bucket(mem, live, pools[j], Size(j));
    }
  }

  lemma SameClass(size: nat, k: nat, j: nat)
    requires IsLeast(size, k) && Size(j) == size
    ensures k == j
  {
    if k < j { SizeMonotone(k, j); }
    assert j < k ==> Size(j) < size;
  }

  class Aligned {
    const indexes: seq<nat>
    var mem: Memory
    var pools: seq<seq<nat>>
    var live: set<nat>
    var next: nat

    ghost predicate Valid()
      reads this
    {
      Table(indexes) && Pools(mem, live, pools) && Held(mem, live, next)
    }

    /** A slice that a caller holds, within its capacity. */
    predicate Owns(s: Slice)
      reads this
    {
      s.id in live && s.id in mem && s.len <= |mem[s.id]|
    }

    function Contents(s: Slice): Str
      requires Owns(s)
      reads this
    {
      mem[s.id][..s.len]
    }

    constructor ()
      ensures Valid() && live == {} && forall k: nat :: k < BUCKETS ==> pools[k] == []
    {
      var sizes, table := InitTables();
      indexes := table[..];
      mem, live, next := map[], {}, 0;
      pools := seq(BUCKETS, k requires 0 <= k < BUCKETS => []);
    }

    /** Get of the pool of a class: any array of the bucket, or a new one, as pick says. */
    method Get(k: nat, pick: nat) returns (id: nat)
      requires Valid() && k < BUCKETS
      modifies this
      ensures Valid() && id !in old(live) && live == old(live) + {id}
      ensures id in mem && |mem[id]| == Size(k) && Kept(old(mem), mem, old(live))
      ensures pick < |old(pools[k])| ==>
                && id == old(pools[k])[pick] && mem == old(mem)
                && pools == old(pools)[k := old(pools[k])[..pick] + old(pools[k])[pick + 1..]]
      ensures pick >= |old(pools[k])| ==> id !in old(mem) && pools == old(pools)
    {
      assert IsClass(Size(k));
      if pick < |pools[k]| {
        id := pools[k][pick];
        TakePools(mem, live, pools, k, pick);
        hide Pools;
        pools := pools[k := pools[k][..pick] + pools[k][pick + 1..]];
        live := live + {id};
      } else {
        id := next;
        var data := seq(Size(k), i => 0);
        WritePools(mem, live, pools, id, data);
        hide Pools;
        mem := mem[id := data];
        live := live + {id};
        next := next + 1;
      }
    }

    /** Malloc: a buffer of the length asked for, in an array that nobody else holds, of the least class
        that fits or of the exact length when that is above the maximum; none for a negative length. */
    method Malloc(size: int, pick: nat) returns (r: Option<Slice>)
      requires Valid()
      modifies this
      ensures Valid() && (r.None? <==> size < 0) && Kept(old(mem), mem, old(live))
      ensures r.None? ==> live == old(live)
      ensures r.Some? ==> r.value.id !in old(live) && live == old(live) + {r.value.id}
      ensures r.Some? ==> Owns(r.value) && r.value.len == size
      ensures r.Some? && size > MAX_SIZE ==> |mem[r.value.id]| == size
      ensures r.Some? && size <= MAX_SIZE ==>
                exists k: nat :: k < BUCKETS && IsLeast(size, k) && |mem[r.value.id]| == Size(k) &&
                                 (pick < |old(pools[k])| ==> r.value.id == old(pools[k])[pick]) &&
                                 (pick >= |old(pools[k])| ==> r.value.id !in old(mem))
    {
      if size < 0 { return None; }
      if size <= MAX_SIZE {
        var k := indexes[size];
        assert IsLeast(size, k);
        hide Pools, Held;
        var id := Get(k, pick);
        r := Some(Slice(id, size));
      } else {
        var id, data := next, seq(size, i => 0);
        WritePools(mem, live, pools, id, data);
        hide Pools;
        mem := mem[id := data];
        live := live + {id};
        next := next + 1;
        r := Some(Slice(id, size));
      }
    }

    /** Free of a buffer that the caller holds: nobody holds its array any more. */
    method Free(s: Slice)
      requires Valid() && Owns(s)
      modifies this
      ensures Valid() && live == old(live) - {s.id} && mem == old(mem)
      ensures |mem[s.id]| > 32768 ==> pools == old(pools)
      ensures |mem[s.id]| <= 32768 ==>
                exists k: nat :: k < BUCKETS && Size(k) == |mem[s.id]| &&
                                 pools == old(pools)[k := old(pools[k]) + [s.id]]
    {
      var size := |mem[s.id]|;
      if size <= MAX_SIZE { ClassAligned(size); }
      if size % 32 != 0 || size > MAX_SIZE {
        DropPools(mem, live, pools, s.id);
        hide Pools;
        live := live - {s.id};
        return;
      }
      var k := indexes[size];
      FreeExact(size);
      assert PooledIn(size, k);
      GivePools(mem, live, pools, k, s.id);
      hide Pools, PooledIn, IsLeast, Table;
      pools := pools[k := pools[k] + [s.id]];
      live := live - {s.id};
    }

    /** A buffer within the maximum that is freed can be given out again, to the next caller who asks for
        as much as it holds. */
    method FreeThenMalloc(s: Slice) returns (r: Option<Slice>)
      requires Valid() && Owns(s) && |mem[s.id]| <= 32768
      modifies this
      ensures Valid() && live == old(live)
      ensures r == Some(Slice(s.id, |old(mem)[s.id]|))
    {
      var size := |mem[s.id]|;
      var k := indexes[size];
      var pick := |pools[k]|;
      Free(s);
      ghost var freed: nat :|
        freed < BUCKETS && Size(freed) == size && pools == old(pools)[freed := old(pools[freed]) + [s.id]];
      forall j: nat | IsLeast(size, j) ensures j == freed { SameClass(size, j, freed); }
      hide Pools, Held, Table, IsLeast;
      r := Malloc(size, pick);
      assert live == old(live);
    }

    /** Bytes written into a buffer that the caller holds, from offset at on. */
    method Store(id: nat, at: nat, data: Str)
      requires Valid() && id in live && id in mem && at + |data| <= |mem[id]|
      modifies this
      ensures Valid() && live == old(live) && Kept(old(mem), mem, live - {id})
      ensures id in mem && |mem[id]| == old(|mem[id]|)
      ensures mem[id][..at] == old(mem[id][..at]) && mem[id][at..at + |data|] == data
    {
      var whole := mem[id][..at] + data + mem[id][at + |data|..];
      WritePools(mem, live, pools, id, whole);
      hide Pools;
      assert live + {id} == live;
      mem := mem[id := whole];
    }

    /** Realloc: the array stays when it is large enough; otherwise the contents move to a new one and
        the old one is freed. As much of the contents as fits is kept. */
    method Realloc(s: Slice, size: nat, pick: nat) returns (r: Slice)
      requires Valid() && Owns(s)
      modifies this
      ensures Valid() && Owns(r) && r.len == size
      ensures live == old(live) - {s.id} + {r.id} && (r.id == s.id || r.id !in old(live))
      ensures Kept(old(mem), mem, old(live) - {s.id})
      ensures r.id == s.id <==> size <= old(|mem[s.id]|)
      ensures size <= s.len ==> Contents(r) == old(Contents(s))[..size]
      ensures s.len < size ==> Contents(r)[..s.len] == old(Contents(s))
    {
      assert Kept(mem, mem, live);
      hide Pools, Held, Table, IsLeast;
      if size <= |mem[s.id]| {
        assert live - {s.id} + {s.id} == live;
        return Slice(s.id, size);
      }
      var was := mem[s.id][..s.len];
      var got := Malloc(size, pick);
      r := got.value;
      Store(r.id, 0, was);
      Free(s);
      assert mem[r.id][..s.len] == was;
    }

    /** Append: in place when there is room, otherwise in a new array, the old one being freed. */
    method Append(s: Slice, more: Str, pick: nat) returns (r: Slice)
      requires Valid() && Owns(s)
      modifies this
      ensures Valid() && Owns(r) && Contents(r) == old(Contents(s)) + more
      ensures r.id == s.id <==> s.len + |more| <= old(|mem[s.id]|)
      ensures live == old(live) - {s.id} + {r.id} && (r.id == s.id || r.id !in old(live))
      ensures Kept(old(mem), mem, old(live) - {s.id})
    {
      hide Pools, Held, Table, IsLeast;
      var was := mem[s.id][..s.len];
      if |mem[s.id]| - s.len >= |more| {
        Store(s.id, s.len, more);
        r := Slice(s.id, s.len + |more|);
        assert live - {s.id} + {s.id} == live;
      } else {
        var got := Malloc(s.len + |more|, pick);
        r := got.value;
        Store(r.id, 0, was);
        Store(r.id, s.len, more);
        Free(s);
        assert mem[r.id][..s.len] == was;
      }
      assert mem[r.id][..s.len + |more|] == was + more;
    }
  }
}
