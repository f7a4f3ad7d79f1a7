/** The body of an HTTP message, kept in pooled buffers: appended to by the parser, read by the
    handler, in any order. It is a queue of bytes. */
module BodyReader {
  import opened Bytes

  /** A pooled buffer: its number in order of allocation, its contents, and its capacity. */
  datatype Buffer = Buffer(id: nat, data: Str, cap: nat)

  function Contents(bs: seq<Buffer>): Str
  {
    if bs == [] then [] else bs[0].data + Contents(bs[1..])
  }

  /** What is left to read when the first buffer has been read up to index. */
  function Unread(bs: seq<Buffer>, index: nat): Str
  {
    if bs == [] || index > |bs[0].data| then [] else bs[0].data[index..] + Contents(bs[1..])
  }

  lemma EmptyUnread()
    ensures Unread([], 0) == []
  {
  }

  lemma {:induction false} ContentsSnoc(bs: seq<Buffer>, b: Buffer)
    ensures Contents(bs + [b]) == Contents(bs) + b.data
  {
    if bs == [] {
      assert bs + [b] == [b];
      assert Contents([b]) == b.data + Contents([]);
    } else {
      assert (bs + [b])[1..] == bs[1..] + [b];
      ContentsSnoc(bs[1..], b);
    }
  }

  lemma UnreadSnoc(bs: seq<Buffer>, index: nat, b: Buffer)
    requires if bs == [] then index == 0 else index <= |bs[0].data|
    ensures Unread(bs + [b], index) == Unread(bs, index) + b.data
  {
    if bs == [] {
      assert bs + [b] == [b] && b.data[0..] == b.data && Contents([]) == [];
      assert Unread([b], 0) == b.data + [];
    } else {
      assert (bs + [b])[1..] == bs[1..] + [b];
      ContentsSnoc(bs[1..], b);
    }
  }

  /** Bytes put at the end of the last buffer go to the end of what is left to read. */
  lemma UnreadGrow(bs: seq<Buffer>, index: nat, more: Str)
    requires bs != [] && index <= |bs[0].data|
    ensures
      var last := bs[|bs| - 1];
      Unread(bs[|bs| - 1 := last.(data := last.data + more)], index) == Unread(bs, index) + more
  {
    var n := |bs| - 1;
    var last, front := bs[n], bs[..n];
    var grown := last.(data := last.data + more);
    assert bs == front + [last] && bs[n := grown] == front + [grown];
    if n == 0 {
      assert bs[1..] == [] && bs[n := grown][1..] == [];
      assert grown.data[index..] == last.data[index..] + more;
    } else {
      UnreadSnoc(front, index, last);
      UnreadSnoc(front, index, grown);
    }
  }

  /** Reading k bytes off the first buffer. */
  lemma UnreadAdvance(bs: seq<Buffer>, index: nat, k: nat)
    requires bs != [] && index + k <= |bs[0].data|
    ensures Unread(bs, index) == bs[0].data[index..index + k] + Unread(bs, index + k)
  {
    var d, rest := bs[0].data, Contents(bs[1..]);
    hide Contents;
    assert d[index..] == d[index..index + k] + d[index + k..];
    assert (d[index..index + k] + d[index + k..]) + rest == d[index..index + k] + (d[index + k..] + rest);
  }

  lemma UnreadNext(bs: seq<Buffer>)
    requires bs != []
    ensures Unread(bs, |bs[0].data|) == Unread(bs[1..], 0)
  {
    if bs[1..] != [] { assert bs[1..][0].data[0..] == bs[1..][0].data; }
  }

  /** The buffers freed so far, then those in use, in the order of their allocation. */
  predicate Numbered(freed: seq<nat>, bs: seq<Buffer>, mallocs: nat)
  {
    && |freed| + |bs| == mallocs
    && (forall i :: 0 <= i < |freed| ==> freed[i] == i)
    && (forall i :: 0 <= i < |bs| ==> bs[i].id == |freed| + i)
  }

  /** No buffer in use is empty or fully read. */
  predicate Filled(bs: seq<Buffer>, index: nat)
  {
    && (forall i :: 0 <= i < |bs| ==> 0 < |bs[i].data| <= bs[i].cap)
    && (if bs == [] then index == 0 else index < |bs[0].data|)
  }

  predicate Shaped(freed: seq<nat>, bs: seq<Buffer>, mallocs: nat, index: nat)
  {
    Numbered(freed, bs, mallocs) && Filled(bs, index)
  }

  lemma NothingLeft(freed: seq<nat>, bs: seq<Buffer>, mallocs: nat, index: nat)
    requires Shaped(freed, bs, mallocs, index) && Unread(bs, index) != []
    ensures bs != [] && index < |bs[0].data|
  {
  }

  lemma PushBack(freed: seq<nat>, bs: seq<Buffer>, mallocs: nat, index: nat, b: Buffer)
    requires Shaped(freed, bs, mallocs, index) && b.id == mallocs && 0 < |b.data| <= b.cap
    ensures Shaped(freed, bs + [b], mallocs + 1, index)
    ensures Unread(bs + [b], index) == Unread(bs, index) + b.data
  {
    UnreadSnoc(bs, index, b);
  }

  lemma GrowBack(freed: seq<nat>, bs: seq<Buffer>, mallocs: nat, index: nat, more: Str)
    requires Shaped(freed, bs, mallocs, index) && bs != [] && |bs[|bs| - 1].data + more| <= bs[|bs| - 1].cap
    ensures
      var last := bs[|bs| - 1];
      var grown := bs[|bs| - 1 := last.(data := last.data + more)];
      Shaped(freed, grown, mallocs, index) && Unread(grown, index) == Unread(bs, index) + more
  {
    UnreadGrow(bs, index, more);
  }

  lemma ShapedAdvance(freed: seq<nat>, bs: seq<Buffer>, mallocs: nat, index: nat, k: nat)
    requires Shaped(freed, bs, mallocs, index) && bs != [] && index + k <= |bs[0].data|
    ensures index + k < |bs[0].data| ==> Shaped(freed, bs, mallocs, index + k)
    ensures index + k == |bs[0].data| ==> Shaped(freed + [bs[0].id], bs[1..], mallocs, 0)
  {
  }

  class Reader {
    const max: int          // MaxHTTPBodySize, no limit when not positive
    var buffers: seq<Buffer>
    var index: nat
    var left: int
    var closed: bool
    var mallocs: nat            // buffers allocated so far
    ghost var accepted: Str     // appended so far
    ghost var consumed: Str     // read so far
    ghost var discarded: Str    // unread when closed
    ghost var freed: seq<nat>   // buffers given back, in order

    /** Bytes accepted are the bytes read, then those a Close threw away, then those left to read;
        left counts the last; and each buffer allocated is in use or has been freed, once. */
    ghost predicate Valid()
      reads this
    {
      && Shaped(freed, buffers, mallocs, index)
      && left == |Unread(buffers, index)|
      && (max > 0 ==> left <= max)
      && accepted == consumed + discarded + Unread(buffers, index)
      && (!closed ==> discarded == [])
    }

    constructor (maxBody: int)
      ensures Valid() && max == maxBody && !closed && accepted == [] && freed == []
    {
      max, buffers, index, left, closed, mallocs := maxBody, [], 0, 0, false, 0;
      accepted, consumed, discarded, freed := [], [], [], [];
    }

    /** The part of data that fits into the last buffer goes there. */
    method FillTail(data: Str) returns (rest: Str)
      requires Shaped(freed, buffers, mallocs, index)
      modifies this`buffers
      ensures Shaped(freed, buffers, mallocs, index)
      ensures Unread(buffers, index) + rest == old(Unread(buffers, index)) + data
    {
      hide Unread, Shaped;
      rest := data;
      if buffers != [] {
        var i := |buffers| - 1;
        var b := buffers[i];
        var room := b.cap - |b.data|;
        if room > 0 {
          var nc := if room > |data| then |data| else room;
          GrowBack(freed, buffers, mallocs, index, data[..nc]);
          buffers := buffers[i := b.(data := b.data + data[..nc])];
          rest := data[nc..];
          assert data == data[..nc] + rest;
        }
      }
    }

    /** Append, with spare the room that the allocator gives beyond the size asked for. */
    method Append(data: Str, spare: nat) returns (ok: bool)
      requires Valid()
      modifies this
      ensures Valid() && closed == old(closed) && consumed == old(consumed) && freed == old(freed)
      ensures ok <==> data == [] || max <= 0 || |data| + old(left) <= max
      ensures accepted == old(accepted) + (if ok then data else [])
      ensures Unread(buffers, index) == old(Unread(buffers, index)) + (if ok then data else [])
    {
      hide Unread, Shaped;
      if data == [] { return true; }
      if max > 0 && |data| + left > max { return false; }
      ghost var unread := Unread(buffers, index);
      left := left + |data|;
      accepted := accepted + data;
      var rest := FillTail(data);
      if rest != [] {
        var b := Buffer(mallocs, rest, |rest| + spare);
        PushBack(freed, buffers, mallocs, index, b);
        buffers := buffers + [b];
        mallocs := mallocs + 1;
      }
      assert Unread(buffers, index) == unread + data;
      ok := true;
    }

    /** Read into a slice of length need: the next bytes, as many as there are up to need; end of file
        when closed or nothing is left. */
    method Read(need: nat) returns (got: Str, eof: bool)
      requires Valid()
      modifies this
      ensures Valid() && closed == old(closed) && accepted == old(accepted)
      ensures eof <==> old(closed) || old(left) == 0
      ensures |got| == if eof then 0 else if need < old(left) then need else old(left)
      ensures old(Unread(buffers, index)) == got + Unread(buffers, index)
      ensures consumed == old(consumed) + got
    {
      hide Unread, Shaped;
      got := [];
      if closed { return got, true; }
      if left <= 0 { return got, true; }
      eof := false;
      ghost var unread := Unread(buffers, index);
      while |got| < need && left > 0
        invariant Shaped(freed, buffers, mallocs, index)
        invariant left == |Unread(buffers, index)|
        invariant unread == got + Unread(buffers, index)
        invariant |got| <= need
        invariant closed == old(closed) && accepted == old(accepted) && consumed == old(consumed)
        invariant discarded == old(discarded)
        decreases left
      {
        NothingLeft(freed, buffers, mallocs, index);
        // neither an empty list nor an exhausted first buffer is ever met here
        assert buffers != [] && index < |buffers[0].data|;
        var b := buffers[0];
        var nc := if need - |got| < |b.data| - index then need - |got| else |b.data| - index;
        UnreadAdvance(buffers, index, nc);
        UnreadNext(buffers);
        ShapedAdvance(freed, buffers, mallocs, index, nc);
        got := got + b.data[index..index + nc];
        if nc + index >= |b.data| {
          freed := freed + [b.id];
          buffers := buffers[1..];
          index := 0;
        } else {
          index := index + nc;
        }
        left := left - nc;
      }
      consumed := consumed + got;
    }

    method Close()
      requires Valid()
      modifies this
      ensures Valid() && closed && consumed == old(consumed) && accepted == old(accepted)
      ensures !old(closed) ==> buffers == [] && left == 0 && discarded == old(Unread(buffers, index))
      ensures !old(closed) ==> |freed| == mallocs
      ensures old(closed) ==> buffers == old(buffers) && index == old(index) && left == old(left)
    {
      hide Unread, Contents;
      if closed { return; }
      closed := true;
      discarded := Unread(buffers, index);
      ghost var before := freed;
      var i := 0;
      while i < |buffers|
        invariant 0 <= i <= |buffers| && |freed| == |before| + i
        invariant forall k :: 0 <= k < |freed| ==> freed[k] == k
        invariant closed && mallocs == old(mallocs) && buffers == old(buffers)
        invariant index == old(index) && left == old(left)
        invariant consumed == old(consumed) && accepted == old(accepted)
        invariant discarded == old(Unread(buffers, index))
      {
        freed := freed + [buffers[i].id];
        i := i + 1;
      }
      buffers, left, index := [], 0, 0;
      EmptyUnread();
    }

    /** The rest of the body as slices of the buffers. */
    method RawBodyBuffers() returns (r: seq<Str>)
      requires Valid()
      ensures Concat(r) == Unread(buffers, index)
      ensures |r| == |buffers| && forall i :: 0 <= i < |r| ==> r[i] != []
    {
      r := [];
      var i := 0;
      while i < |buffers|
        invariant 0 <= i <= |buffers| && |r| == i
        invariant forall k :: 0 <= k < i ==> r[k] != []
        invariant Concat(r) == Unread(buffers[..i], index)
      {
        var b := buffers[i];
        assert buffers[..i + 1] == buffers[..i] + [b];
        var piece := if i == 0 then b.data[index..] else b.data;
        ConcatSnoc(r, piece);
        if i > 0 { UnreadSnoc(buffers[..i], index, b); }
        r := r + [piece];
        i := i + 1;
      }
      assert buffers[..i] == buffers;
    }
  }
}
