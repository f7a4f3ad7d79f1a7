/** WebSocket masking (section 5.3 of RFC 6455) and the word-at-a-time loop that does it. */
module WsMask {
  import opened Bytes

  predicate IsKey(key: Str) { |key| == 4 }

  function Xor(a: byte, k: byte): (r: byte) { a ^ k }

  /** The definition: byte i is combined with key byte i mod 4. */
  function Masked(s: Str, key: Str): (r: Str)
    requires IsKey(key)
    ensures |r| == |s|
  {
    seq(|s|, i requires 0 <= i < |s| => Xor(s[i], key[i % 4]))
  }

  /** Masking is its own inverse. */
  lemma MaskedTwice(s: Str, key: Str)
    requires IsKey(key)
    ensures Masked(Masked(s, key), key) == s
  {
    forall i | 0 <= i < |s| ensures Masked(Masked(s, key), key)[i] == s[i] {
      XorTwice(s[i], key[i % 4]);
    }
  }

  lemma XorTwice(a: byte, k: byte)
    ensures Xor(Xor(a, k), k) == a
  {
  }

  // ---- little-endian words ----

  function Pack(a0: byte, a1: byte, a2: byte, a3: byte, a4: byte, a5: byte, a6: byte, a7: byte): (v: bv64)
  {
    (a0 as bv64) | ((a1 as bv64) << 8) | ((a2 as bv64) << 16) | ((a3 as bv64) << 24) |
    ((a4 as bv64) << 32) | ((a5 as bv64) << 40) | ((a6 as bv64) << 48) | ((a7 as bv64) << 56)
  }

  /** The key as a 32-bit word, doubled. */
  function Key64(k0: byte, k1: byte, k2: byte, k3: byte): (v: bv64)
  {
    var w := (k0 as bv64) | ((k1 as bv64) << 8) | ((k2 as bv64) << 16) | ((k3 as bv64) << 24);
    w | (w << 32)
  }

  lemma KeyIsPack(k0: byte, k1: byte, k2: byte, k3: byte)
    ensures Key64(k0, k1, k2, k3) == Pack(k0, k1, k2, k3, k0, k1, k2, k3)
  {
  }

  lemma XorPack(a0: byte, a1: byte, a2: byte, a3: byte, a4: byte, a5: byte, a6: byte, a7: byte,
                b0: byte, b1: byte, b2: byte, b3: byte, b4: byte, b5: byte, b6: byte, b7: byte)
    ensures Pack(a0, a1, a2, a3, a4, a5, a6, a7) ^ Pack(b0, b1, b2, b3, b4, b5, b6, b7) ==
            Pack(Xor(a0, b0), Xor(a1, b1), Xor(a2, b2), Xor(a3, b3), Xor(a4, b4), Xor(a5, b5), Xor(a6, b6), Xor(a7, b7))
  {
  }

  function At(v: bv64, i: nat): (b: byte)
    requires i < 8
  {
    if i == 0 then (v & 0xFF) as bv8 else if i == 1 then ((v >> 8) & 0xFF) as bv8
    else if i == 2 then ((v >> 16) & 0xFF) as bv8 else if i == 3 then ((v >> 24) & 0xFF) as bv8
    else if i == 4 then ((v >> 32) & 0xFF) as bv8 else if i == 5 then ((v >> 40) & 0xFF) as bv8
    else if i == 6 then ((v >> 48) & 0xFF) as bv8 else ((v >> 56) & 0xFF) as bv8
  }

  lemma Unpack(a0: byte, a1: byte, a2: byte, a3: byte, a4: byte, a5: byte, a6: byte, a7: byte)
    ensures var v := Pack(a0, a1, a2, a3, a4, a5, a6, a7);
            && At(v, 0) == a0 && At(v, 1) == a1 && At(v, 2) == a2 && At(v, 3) == a3
            && At(v, 4) == a4 && At(v, 5) == a5 && At(v, 6) == a6 && At(v, 7) == a7
  {
  }

  /** What a word of the buffer becomes: read, combined with the doubled key, put back. */
  lemma WordXor(a: Str, k: Str)
    requires |a| == 8 && |k| == 4
    ensures var v := Pack(a[0], a[1], a[2], a[3], a[4], a[5], a[6], a[7]) ^ Key64(k[0], k[1], k[2], k[3]);
            forall i :: 0 <= i < 8 ==> At(v, i) == Xor(a[i], k[i % 4])
  {
    hide Pack, Key64, At, Xor;
    KeyIsPack(k[0], k[1], k[2], k[3]);
    XorPack(a[0], a[1], a[2], a[3], a[4], a[5], a[6], a[7], k[0], k[1], k[2], k[3], k[0], k[1], k[2], k[3]);
    Unpack(Xor(a[0], k[0]), Xor(a[1], k[1]), Xor(a[2], k[2]), Xor(a[3], k[3]),
           Xor(a[4], k[0]), Xor(a[5], k[1]), Xor(a[6], k[2]), Xor(a[7], k[3]));
  }

  method XorWord(b: array<byte>, j: nat, k: Str)
    requires j + 8 <= b.Length && IsKey(k)
    modifies b
    ensures forall i :: 0 <= i < b.Length && !(j <= i < j + 8) ==> b[i] == old(b[i])
    ensures forall i :: 0 <= i < 8 ==> b[j + i] == Xor(old(b[j + i]), k[i % 4])
  {
    hide Pack, Key64, At, Xor;
    var a := b[j..j + 8];
    var v := Pack(a[0], a[1], a[2], a[3], a[4], a[5], a[6], a[7]) ^ Key64(k[0], k[1], k[2], k[3]);
    WordXor(a, k);
    forall i | 0 <= i < 8 {
      b[j + i] := At(v, i);
    }
  }

  /** The bytes up to j are masked, the others are as they were. */
  ghost predicate Progress(now: Str, was: Str, lo: nat, j: nat, key: Str)
    requires IsKey(key)
  {
    && |now| == |was| && lo <= j <= |was|
    && (forall i :: lo <= i < j ==> now[i] == Xor(was[i], key[(i - lo) % 4]))
    && (forall i :: 0 <= i < |was| && !(lo <= i < j) ==> now[i] == was[i])
  }

  method MaskWord(b: array<byte>, lo: nat, j: nat, key: Str, ghost was: Str)
    requires IsKey(key) && j + 8 <= b.Length && Progress(b[..], was, lo, j, key) && (j - lo) % 8 == 0
    modifies b
    ensures Progress(b[..], was, lo, j + 8, key) && (j + 8 - lo) % 8 == 0
  {
    hide Xor;
    ghost var before := b[..];
    XorWord(b, j, key);
    ghost var now := b[..];
    forall i | lo <= i < j + 8 ensures now[i] == Xor(was[i], key[(i - lo) % 4]) {
      if i < j {
        assert now[i] == before[i];
      } else {
        assert b[j + (i - j)] == Xor(before[i], key[(i - j) % 4]);
        SamePhase(i, j, lo);
      }
    }
  }

  lemma SamePhase(i: int, j: int, lo: int)
    requires lo <= j <= i && (j - lo) % 8 == 0
    ensures (i - lo) % 4 == (i - j) % 4
  {
  }

  method MaskBlock(b: array<byte>, lo: nat, start: nat, key: Str, ghost was: Str)
    requires IsKey(key) && start + 64 <= b.Length && Progress(b[..], was, lo, start, key) && (start - lo) % 8 == 0
    modifies b
    ensures Progress(b[..], was, lo, start + 64, key)
  {
    var j := start;
    for w := 0 to 8
      invariant j == start + 8 * w
      invariant Progress(b[..], was, lo, j, key)
    {
      MaskWord(b, lo, j, key, was);
      j := j + 8;
    }
  }

  method MaskTail(b: array<byte>, lo: nat, start: nat, hi: nat, key: Str, ghost was: Str)
    requires IsKey(key) && start <= hi <= b.Length && Progress(b[..], was, lo, start, key) && (start - lo) % 8 == 0
    modifies b
    ensures Progress(b[..], was, lo, hi, key)
  {
    hide Xor;
    for i := 0 to hi - start
      invariant Progress(b[..], was, lo, start + i, key)
    {
      var j := start + i;
      SamePhase(j, start, lo);
      ghost var before := b[..];
      b[j] := Xor(b[j], key[i % 4]);
      assert b[..] == before[j := Xor(before[j], key[i % 4])];
    }
  }

  /** maskXOR on b[lo..hi]: blocks of eight words, then words, then bytes. */
  method MaskXOR(b: array<byte>, lo: nat, hi: nat, key: Str)
    requires IsKey(key) && lo <= hi <= b.Length
    modifies b
    ensures b[lo..hi] == Masked(old(b[lo..hi]), key)
    ensures b[..lo] == old(b[..lo]) && b[hi..] == old(b[hi..])
  {
    hide Xor, Progress;
    ghost var was := b[..];
    NoProgress(was, lo, key);
    var j := lo;
    while hi - j >= 64
      invariant lo <= j <= hi && (j - lo) % 8 == 0
      invariant Progress(b[..], was, lo, j, key)
    {
      MaskBlock(b, lo, j, key, was);
      j := j + 64;
    }
    while hi - j >= 8
      invariant lo <= j <= hi && (j - lo) % 8 == 0
      invariant Progress(b[..], was, lo, j, key)
    {
      MaskWord(b, lo, j, key, was);
      j := j + 8;
    }
    MaskTail(b, lo, j, hi, key, was);
    AllProgress(b[..], was, lo, hi, key);
    assert b[lo..hi] == b[..][lo..hi] && b[..lo] == b[..][..lo] && b[hi..] == b[..][hi..];
  }

  lemma NoProgress(s: Str, lo: nat, key: Str)
    requires IsKey(key) && lo <= |s|
    ensures Progress(s, s, lo, lo, key)
  {
  }

  lemma AllProgress(now: Str, was: Str, lo: nat, hi: nat, key: Str)
    requires IsKey(key) && Progress(now, was, lo, hi, key)
    ensures |now| == |was| && lo <= hi <= |was| && now[lo..hi] == Masked(was[lo..hi], key)
    ensures now[..lo] == was[..lo] && now[hi..] == was[hi..]
  {
    hide Xor;
  }
}
