/** The list of buffers and file ranges that a connection still has to send. */
module WriteList {
  import opened Bytes

  /** A cached buffer, of which `offset` bytes are sent, or the rest of a file range. Buffers and
      duplicated descriptors are resources, known by a number each. */
  datatype ToWrite =
    | Buf(id: nat, data: Str, cap: nat, offset: nat)
    | File(fd: nat, content: Str, offset: nat, remain: int)

  predicate ValidEntry(t: ToWrite)
  {
    match t
    case Buf(_, data, cap, offset) => offset < |data| <= cap
    case File(_, content, offset, remain) => offset + remain <= |content|
  }

  function Unsent(t: ToWrite): (r: Str)
    requires ValidEntry(t)
  {
    match t
    case Buf(_, data, _, offset) => data[offset..]
    case File(_, content, offset, remain) => if remain > 0 then content[offset..offset + remain] else []
  }

  /** A file range of no bytes: nothing will ever take it off the list. */
  predicate Stuck(t: ToWrite) { t.File? && t.remain <= 0 }

  function ResourceOf(t: ToWrite): (r: nat) { if t.Buf? then t.id else t.fd }

  predicate ValidList(l: seq<ToWrite>) { forall i :: 0 <= i < |l| ==> ValidEntry(l[i]) }

  predicate NoneStuck(l: seq<ToWrite>) { forall i :: 0 <= i < |l| ==> !Stuck(l[i]) }

  /** All bytes on the list, in the order they will be sent. */
  function Queued(l: seq<ToWrite>): (r: Str)
    requires ValidList(l)
  {
    if l == [] then [] else Unsent(l[0]) + Queued(l[1..])
  }

  /** How many of them are in buffers. */
  function Buffered(l: seq<ToWrite>): (n: nat)
    requires ValidList(l)
  {
    if l == [] then 0 else (if l[0].Buf? then |Unsent(l[0])| else 0) + Buffered(l[1..])
  }

  function Resources(l: seq<ToWrite>): (r: multiset<nat>)
  {
    if l == [] then multiset{} else multiset{ResourceOf(l[0])} + Resources(l[1..])
  }

  /** Every resource acquired so far is on the list or released, and only once. */
  ghost predicate Owned(l: seq<ToWrite>, released: seq<nat>, acquired: nat)
  {
    Resources(l) + multiset(released) == AllOf(acquired)
  }

  lemma {:induction false} SnocList(l: seq<ToWrite>, t: ToWrite)
    requires ValidList(l) && ValidEntry(t)
    ensures ValidList(l + [t]) && Queued(l + [t]) == Queued(l) + Unsent(t)
    ensures Buffered(l + [t]) == Buffered(l) + if t.Buf? then |Unsent(t)| else 0
    ensures Resources(l + [t]) == Resources(l) + multiset{ResourceOf(t)}
  {
    hide Unsent;
    if l == [] {
      assert l + [t] == [t] && [t][1..] == [];
    } else {
      assert (l + [t])[1..] == l[1..] + [t] && (l + [t])[0] == l[0];
      SnocList(l[1..], t);
    }
  }

  lemma FileEntry(t: ToWrite)
    requires t.File? && t.offset + t.remain <= |t.content|
    ensures ValidEntry(t) && (Stuck(t) <==> t.remain <= 0) && ResourceOf(t) == t.fd
    ensures Unsent(t) == if t.remain > 0 then t.content[t.offset..t.offset + t.remain] else []
  {
  }

  lemma SnocStuck(l: seq<ToWrite>, t: ToWrite)
    ensures NoneStuck(l + [t]) <==> NoneStuck(l) && !Stuck(t)
  {
    assert (l + [t])[|l|] == t && forall i :: 0 <= i < |l| ==> (l + [t])[i] == l[i];
  }

  /** The tail buffer with the new bytes, in place or in a larger buffer. */
  function Grown(tail: ToWrite, id: nat, cap: nat, buf: Str): (t: ToWrite)
    requires tail.Buf? && ValidEntry(tail) && |tail.data| + |buf| <= cap
    ensures ValidEntry(t) && Unsent(t) == Unsent(tail) + buf && t.Buf? && ResourceOf(t) == id
  {
    Buf(id, tail.data + buf, cap, tail.offset)
  }

  lemma GrowLast(front: seq<ToWrite>, tail: ToWrite, t: ToWrite, buf: Str)
    requires ValidList(front) && ValidEntry(tail) && ValidEntry(t) && tail.Buf? && t.Buf?
    requires Unsent(t) == Unsent(tail) + buf
    ensures ValidList(front + [t]) && ValidList(front + [tail])
    ensures Queued(front + [t]) == Queued(front + [tail]) + buf
    ensures Buffered(front + [t]) == Buffered(front + [tail]) + |buf|
    ensures NoneStuck(front + [t]) == NoneStuck(front + [tail])
  {
    hide Queued, Buffered, Resources, NoneStuck, Unsent, ValidList, ValidEntry;
    SnocList(front, tail);
    SnocList(front, t);
    SnocStuck(front, tail);
    SnocStuck(front, t);
    assert Queued(front) + (Unsent(tail) + buf) == Queued(front) + Unsent(tail) + buf;
  }

  lemma HeadList(l: seq<ToWrite>, t: ToWrite)
    requires l != [] && ValidList(l) && ValidEntry(t)
    ensures ValidList([t] + l[1..]) && ValidList(l[1..])
    ensures Queued([t] + l[1..]) == Unsent(t) + Queued(l[1..])
    ensures Buffered([t] + l[1..]) == (if t.Buf? then |Unsent(t)| else 0) + Buffered(l[1..])
    ensures Resources([t] + l[1..]) == multiset{ResourceOf(t)} + Resources(l[1..])
  {
    assert ([t] + l[1..])[1..] == l[1..];
  }

  /** A new entry with a new resource. */
  lemma PushOwned(l: seq<ToWrite>, t: ToWrite, released: seq<nat>, acquired: nat)
    requires ValidList(l) && ValidEntry(t) && Owned(l, released, acquired) && ResourceOf(t) == acquired
    ensures Owned(l + [t], released, acquired + 1)
  {
    hide Queued, Buffered, NoneStuck, Unsent, ValidList;
    SnocList(l, t);
  }

  /** The last entry is replaced by one with the same resource, or with a new one. */
  lemma SwapOwned(l: seq<ToWrite>, t: ToWrite, u: ToWrite, released: seq<nat>, acquired: nat)
    requires ValidList(l) && ValidEntry(t) && ValidEntry(u) && Owned(l + [t], released, acquired)
    ensures ResourceOf(u) == ResourceOf(t) ==> Owned(l + [u], released, acquired)
    ensures ResourceOf(u) == acquired ==> Owned(l + [u], released + [ResourceOf(t)], acquired + 1)
  {
    hide Queued, Buffered, NoneStuck, Unsent, ValidList;
    SnocList(l, t);
    SnocList(l, u);
  }

  lemma HeadUnsent(l: seq<ToWrite>)
    requires ValidList(l) && l != []
    ensures ValidEntry(l[0]) && (!Stuck(l[0]) ==> Unsent(l[0]) != [])
  {
  }

  /** The entry after n of its bytes have gone. */
  function Advanced(t: ToWrite, n: nat): (r: ToWrite)
    requires ValidEntry(t) && n < |Unsent(t)|
    ensures ValidEntry(r) && Unsent(r) == Unsent(t)[n..] && ResourceOf(r) == ResourceOf(t) && r.Buf? == t.Buf?
    ensures Stuck(r) == Stuck(t)
  {
    match t
    case Buf(id, data, cap, offset) => Buf(id, data, cap, offset + n)
    case File(fd, content, offset, remain) => File(fd, content, offset + n, remain - n)
  }

  /** The list after n bytes of its head have gone: the head advances, or leaves. */
  function Popped(l: seq<ToWrite>, n: nat): (r: seq<ToWrite>)
    requires ValidList(l) && l != [] && n <= |Unsent(l[0])|
  {
    if n < |Unsent(l[0])| then [Advanced(l[0], n)] + l[1..] else l[1..]
  }

  function FreedBy(l: seq<ToWrite>, n: nat): (r: seq<nat>)
    requires ValidList(l) && l != [] && n <= |Unsent(l[0])|
  {
    if n < |Unsent(l[0])| then [] else [ResourceOf(l[0])]
  }

  /** Bytes that leave the list are the bytes that go out. */
  lemma PopBytes(l: seq<ToWrite>, n: nat, wire: Str)
    requires ValidList(l) && l != [] && n <= |Unsent(l[0])|
    ensures ValidList(Popped(l, n)) && wire + Unsent(l[0])[..n] + Queued(Popped(l, n)) == wire + Queued(l)
    ensures n < |Unsent(l[0])| ==> Popped(l, n) != []
  {
    hide Unsent, ValidEntry;
    Regroup(Unsent(l[0]), n, Queued(l[1..]), wire);
    if n < |Unsent(l[0])| { HeadList(l, Advanced(l[0], n)); }
  }

  lemma Regroup(u: Str, n: nat, q: Str, wire: Str)
    requires n <= |u|
    ensures wire + u[..n] + (u[n..] + q) == wire + (u + q)
    ensures n == |u| ==> wire + u[..n] + q == wire + (u + q)
  {
  }

  lemma PopCount(l: seq<ToWrite>, n: nat)
    requires ValidList(l) && l != [] && n <= |Unsent(l[0])| && ValidList(Popped(l, n))
    ensures Buffered(Popped(l, n)) == Buffered(l) - if l[0].Buf? then n else 0
  {
    hide Queued, Resources;
    if n < |Unsent(l[0])| { HeadList(l, Advanced(l[0], n)); }
  }

  /** Sending never retires a stuck entry, nor makes one. */
  lemma PopStuck(l: seq<ToWrite>, n: nat)
    requires ValidList(l) && l != [] && n <= |Unsent(l[0])| && !Stuck(l[0])
    ensures NoneStuck(Popped(l, n)) == NoneStuck(l)
  {
    hide ValidEntry, Unsent;
    assert NoneStuck(l) == NoneStuck(l[1..]) by {
      assert forall i :: 1 <= i < |l| ==> l[i] == l[1..][i - 1];
    }
    if n < |Unsent(l[0])| {
      var r := [Advanced(l[0], n)] + l[1..];
      assert forall i :: 1 <= i < |r| ==> r[i] == l[i];
      assert !Stuck(r[0]);
    }
  }

  /** An entry that leaves the list is released. */
  lemma PopOwned(l: seq<ToWrite>, n: nat, released: seq<nat>, acquired: nat)
    requires ValidList(l) && l != [] && n <= |Unsent(l[0])| && Owned(l, released, acquired)
    ensures Owned(Popped(l, n), released + FreedBy(l, n), acquired)
  {
    hide Queued, Buffered, AllOf;
    if n < |Unsent(l[0])| {
      HeadList(l, Advanced(l[0], n));
      assert released + [] == released;
    }
  }
}
