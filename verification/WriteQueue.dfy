/** The non-blocking write path of a stream connection: Write, Sendfile, flush and close, under
    any replies of the kernel. */
module WriteQueue {
  import opened Bytes
  import opened WriteList
  import opened Kernel
  import opened SendfileRun
  import opened FlushRun

  const MAX_CACHE: nat := 65536

  datatype Error = NetClosed | Overflow | SocketError | DupFailed

  /** What flush returns; `Spins` stands for a loop that never ends. */
  datatype Flushed = Returned(err: Option<Error>) | Spins

  /** The capacity of an acquired buffer: any size that holds the request. */
  function Capacity(slack: nat -> nat, id: nat, n: nat): (c: nat)
    ensures c >= n
  {
    n + slack(id)
  }

  /** The last entry is a buffer that the bytes still fit into. */
  predicate Joins(l: seq<ToWrite>, buf: Str)
  {
    l != [] && l[|l| - 1].Buf? && |l[|l| - 1].data| + |buf| <= 65536
  }

  /** The list with the bytes added: in its last entry when they join it, else in one more. */
  predicate Grows(l: seq<ToWrite>, next: seq<ToWrite>, buf: Str)
  {
    var n := if Joins(l, buf) then |l| - 1 else |l|;
    && |next| == n + 1 && next[..n] == l[..n] && next[n].Buf?
    && next[n].data == (if Joins(l, buf) then l[n].data else []) + buf
    && next[n].offset == if Joins(l, buf) then l[n].offset else 0
  }

  lemma NewBuffer(t: ToWrite)
    requires t.Buf? && t.data != [] && |t.data| <= t.cap && t.offset == 0
    ensures ValidEntry(t) && Unsent(t) == t.data && !Stuck(t) && ResourceOf(t) == t.id
  {
  }

  lemma GrowsByOne(l: seq<ToWrite>, t: ToWrite, buf: Str)
    requires t.Buf? && t.data == buf && t.offset == 0 && !Joins(l, buf)
    ensures Grows(l, l + [t], buf)
  {
  }

  /** How many bytes a write sends at once: what the first reply takes when nothing is queued. */
  function AtOnce(l: seq<ToWrite>, script: seq<Reply>, b: Str): (n: nat)
    ensures n <= |b|
  {
    if l == [] && script != [] && b != [] then Max(Took(script[0], |b|), 0) else 0
  }

  /** And whether that reply is an error. */
  predicate BreaksAtOnce(l: seq<ToWrite>, script: seq<Reply>, b: Str)
  {
    l == [] && script != [] && b != [] && script[0].errno == Broken
  }

  class Conn {
    const socket: Socket
    const maxWriteBufferSize: int
    const slack: nat -> nat

    var left: int
    var writeList: seq<ToWrite>
    var closed: bool
    var isWAdded: bool
    /** Whether the poller watches for writability, and how often onClose was called. */
    var interest: bool
    var closeCalls: nat
    /** Resources acquired so far, and those released. */
    var acquired: nat
    var released: seq<nat>
    /** The payloads accepted so far. */
    ghost var accepted: Str

    /** Conservation, accounting, ownership: kept by every step inside a critical section. */
    ghost predicate Inv()
      reads this, socket
    {
      && ValidList(writeList)
      && Owned(writeList, released, acquired)
      && closeCalls == (if closed then 1 else 0)
      && (closed ==> writeList == [])
      && (!closed ==> socket.wire + Queued(writeList) == accepted && left == Buffered(writeList))
      && (!closed ==> interest == isWAdded && (maxWriteBufferSize > 0 ==> left <= maxWriteBufferSize))
    }

    /** What closing needs: the entries and who owns them. */
    ghost predicate Closable()
      reads this
    {
      ValidList(writeList) && Owned(writeList, released, acquired) && closeCalls == 0 && !closed
    }

    /** Between critical sections: data waiting is data the poller watches for. */
    ghost predicate Valid()
      reads this, socket
    {
      Inv() && (!closed ==> (isWAdded <==> writeList != []))
    }

    constructor (socket: Socket, maxWriteBufferSize: int, slack: nat -> nat)
      requires socket.wire == []
      ensures Valid() && !closed && accepted == [] && writeList == [] && acquired == 0 && released == []
      ensures this.socket == socket && this.maxWriteBufferSize == maxWriteBufferSize
    {
      this.socket, this.maxWriteBufferSize, this.slack := socket, maxWriteBufferSize, slack;
      left, writeList, closed, isWAdded, interest, closeCalls := 0, [], false, false, false, 0;
      acquired, released, accepted := 0, [], [];
    }

    /** Everything but the list, the count and the resources is as it was. */
    twostate predicate OnlyQueueChanged()
      reads this, socket
    {
      && closed == old(closed) && isWAdded == old(isWAdded) && interest == old(interest)
      && closeCalls == old(closeCalls) && accepted == old(accepted)
      && socket.wire == old(socket.wire) && socket.script == old(socket.script)
    }

    /** newToWriteBuf: appended to the tail buffer when it stays small enough. */
    method NewToWriteBuf(buf: Str)
      requires buf != [] && !closed && ValidList(writeList)
      requires Owned(writeList, released, acquired)
      modifies this
      ensures OnlyQueueChanged() && left == old(left) + |buf|
      ensures ValidList(writeList) && writeList != [] && Queued(writeList) == old(Queued(writeList)) + buf
      ensures Buffered(writeList) == old(Buffered(writeList)) + |buf|
      ensures Owned(writeList, released, acquired)
      ensures NoneStuck(writeList) == old(NoneStuck(writeList)) && Grows(old(writeList), writeList, buf)
    {
      hide Queued, Buffered, Owned, NoneStuck, Unsent;
      left := left + |buf|;
      if |writeList| == 0 || writeList[|writeList| - 1].File? ||
         |writeList[|writeList| - 1].data| + |buf| > MAX_CACHE {
        AppendBuffer(buf);
        ghost var t: ToWrite :| t.Buf? && t.data == buf && t.offset == 0 && writeList == old(writeList) + [t];
        GrowsByOne(old(writeList), t, buf);
        return;
      }
      GrowTail(buf);
    }

    method AppendBuffer(buf: Str)
      requires buf != [] && ValidList(writeList)
      requires Owned(writeList, released, acquired)
      modifies this`writeList, this`acquired
      ensures ValidList(writeList) && writeList != [] && Queued(writeList) == old(Queued(writeList)) + buf
      ensures Buffered(writeList) == old(Buffered(writeList)) + |buf|
      ensures Owned(writeList, released, acquired)
      ensures NoneStuck(writeList) == old(NoneStuck(writeList))
      ensures exists t: ToWrite :: t.Buf? && t.data == buf && t.offset == 0 && writeList == old(writeList) + [t]
    {
      var t := Buf(acquired, buf, Capacity(slack, acquired, |buf|), 0);
      NewBuffer(t);
      hide Queued, Buffered, Owned, NoneStuck, Unsent, ValidList, ValidEntry, Stuck, Capacity;
      SnocList(writeList, t);
      SnocStuck(writeList, t);
      PushOwned(writeList, t, released, acquired);
      acquired := acquired + 1;
      writeList := writeList + [t];
    }

    /** The bytes join the tail buffer, which moves to a larger one when it must. */
    method GrowTail(buf: Str)
      requires buf != [] && ValidList(writeList) && writeList != [] && writeList[|writeList| - 1].Buf?
      requires Owned(writeList, released, acquired)
      modifies this`writeList, this`acquired, this`released
      ensures ValidList(writeList) && writeList != [] && Queued(writeList) == old(Queued(writeList)) + buf
      ensures Buffered(writeList) == old(Buffered(writeList)) + |buf|
      ensures Owned(writeList, released, acquired)
      ensures NoneStuck(writeList) == old(NoneStuck(writeList))
      ensures Joins(old(writeList), buf) ==> Grows(old(writeList), writeList, buf)
      ensures var tail := old(writeList)[|old(writeList)| - 1];
              acquired == old(acquired) + if tail.cap < |tail.data| + |buf| then 1 else 0
    {
      hide Queued, Buffered, Owned, NoneStuck, Unsent, Capacity;
      var n := |writeList| - 1;
      var front, tail := writeList[..n], writeList[n];
      assert writeList == front + [tail];
      var move := tail.cap < |tail.data| + |buf|;
      var id := if move then acquired else tail.id;
      var cap := if move then Capacity(slack, acquired, |tail.data| + |buf|) else tail.cap;
      var grown := Grown(tail, id, cap, buf);
      GrowLast(front, tail, grown, buf);
      SwapOwned(front, tail, grown, released, acquired);
      if move { acquired, released := acquired + 1, released + [tail.id]; }
      writeList := front + [grown];
    }

    method NewToWriteFile(content: Str, offset: nat, remain: int)
      requires ValidList(writeList) && offset + remain <= |content|
      requires Owned(writeList, released, acquired)
      modifies this`writeList, this`acquired
      ensures ValidList(writeList) && writeList != []
      ensures Queued(writeList) == old(Queued(writeList)) + if remain > 0 then content[offset..offset + remain] else []
      ensures Buffered(writeList) == old(Buffered(writeList))
      ensures Owned(writeList, released, acquired)
      ensures NoneStuck(writeList) == (old(NoneStuck(writeList)) && remain > 0)
    {
      hide Queued, Buffered, Owned, NoneStuck, Unsent, ValidList, Stuck, ValidEntry;
      var t := File(acquired, content, offset, remain);
      FileEntry(t);
      SnocList(writeList, t);
      SnocStuck(writeList, t);
      PushOwned(writeList, t, released, acquired);
      acquired := acquired + 1;
      writeList := writeList + [t];
    }

    /** closeWithErrorWithoutLock: every entry is released and onClose is called. */
    method CloseNow()
      requires Closable()
      modifies this
      ensures Inv() && closed && writeList == []
      ensures accepted == old(accepted) && acquired == old(acquired)
    {
      hide Queued, Buffered, Owned;
      closed := true;
      released := ReleaseAll(writeList, released, acquired);
      writeList := [];
      closeCalls := closeCalls + 1;
    }

    static method ReleaseAll(list: seq<ToWrite>, before: seq<nat>, ghost acquired: nat) returns (released: seq<nat>)
      requires Owned(list, before, acquired)
      ensures Owned([], released, acquired)
    {
      hide AllOf;
      released := before;
      var i := 0;
      assert list[0..] == list;
      while i < |list|
        invariant 0 <= i <= |list|
        invariant Owned(list[i..], released, acquired)
      {
        assert list[i..][1..] == list[i + 1..];
        released := released + [ResourceOf(list[i])];
        i := i + 1;
      }
      assert list[i..] == [];
    }

    /** closeWithError: a second close does nothing. */
    method CloseWithError()
      requires Valid()
      modifies this
      ensures Valid() && closed && accepted == old(accepted)
      ensures old(closed) ==> unchanged(this)
    {
      if !closed { CloseNow(); }
    }

    method ModWrite()
      requires !closed && interest == isWAdded
      modifies this`isWAdded, this`interest
      ensures isWAdded && interest
    {
      if !closed && !isWAdded {
        isWAdded := true;
        interest := true;
      }
    }

    method ResetRead()
      requires !closed && interest == isWAdded
      modifies this`isWAdded, this`interest
      ensures !isWAdded && !interest
    {
      if !closed && isWAdded {
        isWAdded := false;
        interest := false;
      }
    }

    predicate Overflows(n: nat)
      reads this
    {
      maxWriteBufferSize > 0 && left + n > maxWriteBufferSize
    }

    /** One write of the head of the list, buffer or file, and the bookkeeping after it. */
    method SendHead() returns (n: int, errno: Errno)
      requires Inv() && !closed && writeList != [] && !Stuck(writeList[0])
      modifies this, socket
      ensures Inv() && !closed && isWAdded == old(isWAdded) && accepted == old(accepted)
      ensures NoneStuck(writeList) == old(NoneStuck(writeList))
      ensures errno != Done ==> writeList != []
      ensures old(socket.script) == [] ==>
                errno == WouldBlock && socket.script == [] && writeList == old(writeList)
      ensures old(socket.script) != [] ==>
                var r := old(socket.script)[0];
                && errno == r.errno && (errno == Done ==> (n == 0 <==> r.n == 0))
                && socket.script == old(socket.script)[1..] && writeList == Sending(old(writeList), r)
    {
      hide Queued, Buffered, Unsent, ValidEntry, ValidList, NoneStuck, Owned, Popped, FreedBy, Sending;
      if socket.script != [] { SendingPops(writeList, socket.script[0]); } else { NothingPopped(writeList); }
      HeadUnsent(writeList);
      var head := writeList[0];
      n, errno := socket.Send(Unsent(head));
      var taken := Max(n, 0);
      PopBytes(writeList, taken, old(socket.wire));
      PopCount(writeList, taken);
      PopStuck(writeList, taken);
      PopOwned(writeList, taken, released, acquired);
      if head.Buf? { left := left - taken; }
      released := released + FreedBy(writeList, taken);
      writeList := Popped(writeList, taken);
    }

    /** flush: sends until the list is empty, the socket is full or it breaks. It closes the connection
        if and only if its run meets a broken socket, and never returns if and only if, in its run, a
        range of no bytes or a range of a file that has ended is at the head; else it leaves the list
        that its calls have left. */
    method Flush() returns (r: Flushed)
      requires Valid()
      modifies this, socket
      ensures r.Returned? ==> Valid()
      ensures old(closed) ==> r == Returned(Some(NetClosed)) && unchanged(this) && unchanged(socket)
      ensures !old(closed) ==> socket.wire <= accepted
      ensures !old(closed) ==> (closed <==> r == Returned(Some(SocketError)))
      ensures r == Returned(Some(SocketError)) <==> !old(closed) && Breaks(old(writeList), old(socket.script))
      ensures !old(closed) && r != Spins && r != Returned(Some(SocketError)) ==>
                r == Returned(None) && Leaves(old(writeList), old(socket.script), writeList)
      ensures accepted == old(accepted)
      ensures r == Spins <==> !old(closed) && Hangs(old(writeList), old(socket.script))
      ensures !closed ==> NoneStuck(writeList) == old(NoneStuck(writeList))
      ensures r == Spins ==> !closed && Inv() && writeList != [] && writeList[0].File?
      ensures Later(old(socket.script), socket.script)
    {
      hide Queued, Buffered, ValidList, Owned, Sending, ListAfter, Hangs, Breaks, Leaves, NoneStuck;
      ghost var l, script, i := writeList, socket.script, 0;
      assert ListAfter(l, script, 0) == l by { StartsAt(l, script); }
      assert script[0..] == script;
      if closed { return Returned(Some(NetClosed)); }
      if |writeList| == 0 {
        Emptied(l, script, 0);
        return Returned(None);
      }
      while |writeList| > 0
        invariant Inv() && !closed && isWAdded && accepted == old(accepted)
        invariant NoneStuck(writeList) == old(NoneStuck(writeList))
        invariant 0 <= i <= |script| && Reaches(l, script, i)
        invariant writeList == ListAfter(l, script, i) && socket.script == script[i..]
        decreases |socket.script|
      {
        if Stuck(writeList[0]) {
          Ends(l, script, i);
          return Spins;
        }
        ghost var before := writeList;
        var file := writeList[0].File?;
        var n, errno := SendHead();
        if i < |script| { assert script[i..][0] == script[i] && script[i..][1..] == script[i + 1..]; }
        if errno == Done || errno == Interrupted {
          if file && n == 0 && errno == Done {
            Ends(l, script, i);
            EndedStays(before, script[i]);
            return Spins;
          }
          NextCall(l, script, i);
          i := i + 1;
        } else {
          if errno == WouldBlock {
            Pauses(l, script, i);
            return Returned(None);
          }
          Ends(l, script, i);
          CloseNow();
          return Returned(Some(SocketError));
        }
      }
      Emptied(l, script, i);
      ResetRead();
      return Returned(None);
    }

    /** Write: all of b is accepted, sent now or queued, or the connection closes. */
    method Write(b: Str) returns (n: int, err: Option<Error>)
      requires Valid()
      modifies this, socket
      ensures Valid() && Later(old(socket.script), socket.script)
      ensures old(closed) ==> (n, err) == (-1, Some(NetClosed)) && unchanged(this) && unchanged(socket)
      ensures !old(closed) && b != [] && old(Overflows(|b|)) ==>
                (n, err) == (-1, Some(Overflow)) && closed && unchanged(socket)
      ensures !old(closed) && (b == [] || !old(Overflows(|b|))) ==> err == None || err == Some(SocketError)
      ensures !old(closed) && (b == [] || !old(Overflows(|b|))) ==>
                && (err == Some(SocketError) <==> BreaksAtOnce(old(writeList), old(socket.script), b))
                && socket.wire == old(socket.wire) + b[..AtOnce(old(writeList), old(socket.script), b)]
      ensures err == None && b[AtOnce(old(writeList), old(socket.script), b)..] != [] ==>
                Grows(old(writeList), writeList, b[AtOnce(old(writeList), old(socket.script), b)..])
      ensures err == None && b[AtOnce(old(writeList), old(socket.script), b)..] == [] ==> writeList == old(writeList)
      ensures err == None ==> !closed && n == |b| && accepted == old(accepted) + b
      ensures err != None ==> closed && accepted == old(accepted)
      ensures !old(closed) && closed ==> socket.wire <= old(accepted) + b
      ensures old(NoneStuck(writeList)) ==> NoneStuck(writeList)
    {
      hide Queued, Buffered, ValidList, Owned, NoneStuck;
      if closed { return -1, Some(NetClosed); }
      n, err := WriteLocked(b);
      if err.Some? {
        CloseNow();
        NothingStuck();
        return;
      }
      if |writeList| > 0 { ModWrite(); }
    }

    /** write: straight to the socket when nothing is queued, else to the queue. */
    method WriteLocked(b: Str) returns (n: int, err: Option<Error>)
      requires Valid() && !closed
      modifies this, socket
      ensures Closable() && Later(old(socket.script), socket.script)
      ensures b != [] && old(Overflows(|b|)) ==> (n, err) == (-1, Some(Overflow)) && unchanged(socket)
      ensures (b == [] || !old(Overflows(|b|))) ==> err == None || err == Some(SocketError)
      ensures b == [] || !old(Overflows(|b|)) ==>
                && (err == Some(SocketError) <==> BreaksAtOnce(old(writeList), old(socket.script), b))
                && socket.wire == old(socket.wire) + b[..AtOnce(old(writeList), old(socket.script), b)]
      ensures err == None && b[AtOnce(old(writeList), old(socket.script), b)..] != [] ==>
                Grows(old(writeList), writeList, b[AtOnce(old(writeList), old(socket.script), b)..])
      ensures err == None && b[AtOnce(old(writeList), old(socket.script), b)..] == [] ==> writeList == old(writeList)
      ensures err == None ==> Inv() && n == |b| && accepted == old(accepted) + b
      ensures err != None ==> accepted == old(accepted) && socket.wire <= accepted + b
      ensures writeList == [] ==> !isWAdded
      ensures old(NoneStuck(writeList)) ==> NoneStuck(writeList)
    {
      hide Buffered, ValidEntry, Owned, NoneStuck, Unsent;
      if |b| == 0 {
        assert accepted + b == accepted;
        return 0, None;
      }
      if Overflows(|b|) { return -1, Some(Overflow); }
      var rest := b;
      ghost var wire := socket.wire;
      if |writeList| == 0 {
        var got, errno := socket.Send(b);
        if errno == Broken { return got, Some(SocketError); }
        rest := b[Max(got, 0)..];
        wire := socket.wire;
        assert wire + rest == old(socket.wire) + b;
      }
      ghost var queued := Queued(writeList);
      if |rest| > 0 { NewToWriteBuf(rest); }
      Joined(old(socket.wire), wire, queued, rest, b, accepted);
      accepted := accepted + b;
      return |b|, None;
    }

    /** How many bytes of a file of `size` bytes a call asks for. */
    static function Range(size: nat, offset: nat, remain: int): (r: int)
      ensures offset + r <= size
    {
      if remain <= 0 || remain > size - offset then size - offset else remain
    }

    /** The bytes that a Sendfile asks for. */
    static function Wanted(content: Str, offset: nat, remain: int): (r: Str)
      ensures offset >= |content| ==> r == []
      ensures offset < |content| ==> r <= content[offset..] && |r| == Range(|content|, offset, remain)
      ensures offset < |content| && (remain <= 0 || remain > |content| - offset) ==> r == content[offset..]
      ensures offset < |content| && 0 < remain <= |content| - offset ==> |r| == remain
    {
      var n := Range(|content|, offset, remain);
      if n > 0 then content[offset..offset + n] else []
    }

    /** Sendfile. It reports the whole range as sent or queued; k bytes of it really are. */
    method Sendfile(content: Str, offset: nat, remain: int, dupOk: bool)
        returns (n: int, err: Option<Error>, ghost k: nat)
      requires Valid()
      modifies this, socket
      ensures Valid() && Later(old(socket.script), socket.script)
      ensures old(closed) ==> (n, err) == (0, Some(NetClosed)) && unchanged(this) && unchanged(socket)
      ensures offset + k <= |content| || k == 0
      ensures err == None ==> !closed && n == Range(|content|, offset, remain)
      ensures err == None ==> accepted == old(accepted) + if k == 0 then [] else content[offset..offset + k]
      ensures err == None && n > 0 && old(writeList) == [] ==> k == Taken(DirectRun(old(socket.script), n), n, dupOk)
      ensures err == None && n > 0 && old(writeList) != [] ==> k == n
      ensures !old(closed) && old(writeList) == [] && Range(|content|, offset, remain) > 0 ==>
                (err == None <==> !DirectRun(old(socket.script), Range(|content|, offset, remain)).Broke?)
      ensures !old(closed) ==>
                (closed <==> && old(writeList) == [] && Range(|content|, offset, remain) > 0
                             && DirectRun(old(socket.script), Range(|content|, offset, remain)).Broke?)
      ensures !old(closed) && old(writeList) == [] && Range(|content|, offset, remain) > 0 ==>
                (n == k <==> Truthful(old(socket.script), Range(|content|, offset, remain), dupOk))
      ensures err != None ==> accepted == old(accepted) && k == 0 && n == 0
      ensures err != None ==> err == Some(DupFailed) || closed
      ensures !old(closed) && closed ==> socket.wire <= accepted + Wanted(content, offset, remain)
      ensures err == None && n <= 0 ==> k == 0
      ensures err == Some(DupFailed) ==> unchanged(this) && unchanged(socket)
      ensures !old(closed) ==> (err == Some(DupFailed) <==> old(writeList) != [] && !dupOk)
      ensures !old(closed) && old(NoneStuck(writeList)) && err == None ==>
                (NoneStuck(writeList) <==> old(writeList) == [] || n > 0)
    {
      hide Queued, Buffered, ValidList, Owned, NoneStuck;
      k := 0;
      if closed { return 0, Some(NetClosed), 0; }
      var range := Range(|content|, offset, remain);
      if |writeList| > 0 {
        if !dupOk { return 0, Some(DupFailed), 0; }
        ghost var part := if range > 0 then content[offset..offset + range] else [];
        Joined(socket.wire, socket.wire, Queued(writeList), part, part, accepted);
        NewToWriteFile(content, offset, range);
        accepted := accepted + part;
        return range, None, Max(range, 0);
      }
      NothingStuck();
      if range <= 0 {
        assert accepted + [] == accepted;
        return range, None, 0;
      }
      KeepsWord(socket.script, range, dupOk);
      hide DirectRun, Taken, Truthful;
      err, k := SendDirect(content, offset, range, dupOk);
      n := if err == None then range else 0;
    }

    method SendDirect(content: Str, offset: nat, total: nat, dupOk: bool) returns (err: Option<Error>, ghost k: nat)
      requires Valid() && !closed && writeList == [] && 0 < total && offset + total <= |content|
      modifies this, socket
      ensures Valid() && k <= total && Later(old(socket.script), socket.script)
      ensures err == None || err == Some(SocketError)
      ensures err == None <==> !DirectRun(old(socket.script), total).Broke?
      ensures err == None ==> !closed && k == Taken(DirectRun(old(socket.script), total), total, dupOk)
      ensures err == None ==> accepted == old(accepted) + if k == 0 then [] else content[offset..offset + k]
      ensures err != None ==> closed && accepted == old(accepted) && k == 0
      ensures err != None ==> socket.wire <= accepted + content[offset..offset + total]
      ensures NoneStuck(writeList)
    {
      hide Queued, Buffered, ValidEntry, ValidList, Owned, NoneStuck, DirectRun, Unsent, Later;
      NothingStuck();
      SameLater(socket.script);
      err, k := None, total;
      var remain, at := total, offset;
      assert content[offset..at] == [];
      while remain > 0
        invariant 0 <= remain <= total && at == offset + (total - remain)
        invariant Closable() && writeList == [] && left == 0 && !isWAdded && !interest
        invariant accepted == old(accepted) && socket.wire == old(socket.wire) + content[offset..at]
        invariant DirectRun(old(socket.script), total) == DirectRun(socket.script, remain)
        invariant Later(old(socket.script), socket.script)
        decreases |socket.script|
      {
        LaterStill(old(socket.script), socket.script);
        var n, errno := SendSome(content, offset, at, remain, old(socket.wire));
        if n > 0 {
          remain, at := remain - n, at + n;
        } else if n == 0 && errno == Done {
          k := total - remain;
          break;
        }
        if errno == Broken {
          CloseNow();
          NothingStuck();
          return Some(SocketError), 0;
        }
        if errno == WouldBlock {
          if dupOk {
            QueueRest(content, offset, at, remain);
          } else {
            k := total - remain;
            Settle(content, offset, at);
          }
          return;
        }
      }
      if remain == 0 { FinishedRun(socket.script); }
      Settle(content, offset, at);
    }

    /** One sendfile call of at most the maximal size. */
    method SendSome(content: Str, ghost offset: nat, at: nat, remain: nat, ghost before: Str)
      returns (n: int, errno: Errno)
      requires offset <= at && 0 < remain && at + remain <= |content|
      requires socket.wire == before + content[offset..at]
      modifies socket
      ensures -1 <= n <= remain && socket.wire == before + content[offset..at + Max(n, 0)]
      ensures |socket.script| < old(|socket.script|) || errno == WouldBlock
      ensures Later(old(socket.script), socket.script)
      ensures DirectRun(old(socket.script), remain) ==
              match errno
              case Broken => Broke
              case WouldBlock => Blocked(remain - Max(n, 0))
              case Interrupted => DirectRun(socket.script, remain - Max(n, 0))
              case Done => if n == 0 then EndOfFile(remain) else DirectRun(socket.script, remain - Max(n, 0))
    {
      DirectStep(socket.script, remain);
      hide DirectRun;
      var want := Min(MAX_SENDFILE, remain);
      n, errno := socket.Send(content[at..at + want]);
      var end := at + Max(n, 0);
      assert content[at..at + want][..Max(n, 0)] == content[at..end];
      assert content[offset..at] + content[at..end] == content[offset..end];
    }

    /** What has been sent is what has been accepted. */
    ghost method Settle(content: Str, offset: nat, at: nat)
      requires Closable() && writeList == [] && offset <= at <= |content|
      requires socket.wire == accepted + content[offset..at]
      requires left == 0 && !isWAdded && !interest
      modifies this`accepted
      ensures Valid() && accepted == old(accepted) + if at == offset then [] else content[offset..at]
    {
      accepted := accepted + content[offset..at];
      assert socket.wire + [] == socket.wire;
    }

    /** The socket is full: the rest of the file waits, and the poller watches. */
    method QueueRest(content: Str, offset: nat, at: nat, remain: nat)
      requires Closable() && writeList == [] && offset <= at && 0 < remain && at + remain <= |content|
      requires left == 0 && !isWAdded && !interest && socket.wire == accepted + content[offset..at]
      modifies this
      ensures Valid() && !closed && NoneStuck(writeList)
      ensures accepted == old(accepted) + content[offset..at + remain]
    {
      hide ValidEntry, Owned, NoneStuck, Unsent;
      NothingStuck();
      NewToWriteFile(content, at, remain);
      ModWrite();
      assert content[offset..at] + content[at..at + remain] == content[offset..at + remain];
      ghost var wire, sent, rest := socket.wire, content[offset..at], content[at..at + remain];
      assert [] + rest == rest;
      assert accepted + sent + rest == accepted + (sent + rest);
      accepted := accepted + content[offset..at + remain];
    }
  }

  lemma EndsAtOnce(n: nat)
    requires n > 0
    ensures DirectRun([Reply(0, Done)], n) == EndOfFile(n)
  {
  }

  /** A file that has ended when it is sent: the call reports the whole of it, and has taken nothing. */
  method EarlyEndLoses(content: Str) returns (n: int, err: Option<Error>, ghost k: nat, ghost sent: Str)
    requires content != []
    ensures n == |content| && err == None && k == 0 && sent == []
  {
    var socket := new Socket([Reply(0, Done)]);
    var c := new Conn(socket, 0, i => 0);
    EndsAtOnce(|content|);
    hide Queued, ValidList, Owned, Truthful, DirectRun;
    n, err, k := c.Sendfile(content, 0, |content|, true);
    sent := socket.wire;
  }

  datatype Op =
    | DoWrite(b: Str)
    | DoSendfile(content: Str, offset: nat, remain: int, dupOk: bool)
    | DoFlush
    | DoClose

  /** What an operation met: the list, the replies to come, and whether the connection was closed. */
  datatype Met = Met(list: seq<ToWrite>, script: seq<Reply>, closed: bool)

  /** The bytes that a Sendfile takes out of a range of n bytes: what the replies allow when nothing is
      queued, else all of them, if the descriptor can be duplicated. */
  function Share(n: int, dupOk: bool, met: Met): (k: nat)
    ensures k == 0 || k <= n
  {
    if n <= 0 then 0
    else if met.list == [] then Taken(DirectRun(met.script, n), n, dupOk)
    else if dupOk then n else 0
  }

  /** What the log of a run says about one operation of it. */
  predicate Logged(op: Op, entry: Str, met: Met)
  {
    match op
    case DoWrite(b) => entry == b
    case DoSendfile(content, offset, remain, dupOk) =>
      var k := Share(Conn.Range(|content|, offset, remain), dupOk, met);
      entry == if k == 0 then [] else content[offset..offset + k]
    case DoFlush => entry == []
    case DoClose => true
  }

  /** The bytes that an operation offers. */
  function Offered(op: Op): (r: Str)
  {
    match op
    case DoWrite(b) => b
    case DoSendfile(content, offset, remain, _) => Conn.Wanted(content, offset, remain)
    case DoFlush => []
    case DoClose => []
  }

  /** A flush that would not return. */
  ghost predicate Hung(op: Op, met: Met)
  {
    op.DoFlush? && !met.closed && ValidList(met.list) && Hangs(met.list, met.script)
  }

  /** An operation that closes an open connection: a write beyond the limit, a call that meets a broken
      socket, a close. */
  ghost predicate Closes(op: Op, met: Met, max: int)
    requires ValidList(met.list)
  {
    match op
    case DoWrite(b) =>
      b != [] && ((max > 0 && Buffered(met.list) + |b| > max) || BreaksAtOnce(met.list, met.script, b))
    case DoSendfile(content, offset, remain, _) =>
      var n := Conn.Range(|content|, offset, remain);
      met.list == [] && n > 0 && DirectRun(met.script, n).Broke?
    case DoFlush => Breaks(met.list, met.script)
    case DoClose => true
  }

  /** What the next operation meets, as far as this one decides it. */
  ghost predicate Follows(op: Op, met: Met, next: Met, max: int)
  {
    && ValidList(met.list) && ValidList(next.list)
    && (next.closed <==> met.closed || Closes(op, met, max))
    && (next.closed ==> next.list == [])
    && (op.DoFlush? && !next.closed ==> Leaves(met.list, met.script, next.list))
  }

  predicate EmptyRange(op: Op)
  {
    op.DoSendfile? && Conn.Range(|op.content|, op.offset, op.remain) <= 0
  }

  predicate FileEnds(script: seq<Reply>)
  {
    exists i :: 0 <= i < |script| && script[i].errno == Done && script[i].n == 0
  }

  /** Any run of calls on a new connection. As long as it is open, the bytes on the wire and the bytes
      queued are the payloads accepted, in order; once a call has closed it, the wire is a start of the
      payloads accepted before and of what that call offered, for good. A call closes it if and only if
      it is one that `Closes`. The run stops at the first flush that hangs, if there is one, which takes
      an empty file range or a reply that a file has ended. */
  method Drive(c: Conn, ops: seq<Op>) returns (ghost log: seq<Str>, ghost met: seq<Met>, hung: bool)
    requires c.Valid() && !c.closed && c.accepted == [] && NoneStuck(c.writeList)
    modifies c, c.socket
    ensures !hung ==> c.Valid() && |met| == |ops| + 1 && forall i :: 0 <= i < |ops| ==> !Hung(ops[i], met[i])
    ensures !hung ==> met[|ops|] == Met(c.writeList, c.socket.script, c.closed)
    ensures hung ==> 0 < |met| <= |ops| && Hung(ops[|met| - 1], met[|met| - 1])
    ensures met != [] && met[0] == Met(old(c.writeList), old(c.socket.script), false)
    ensures forall i :: 0 <= i < |met| - 1 ==> Follows(ops[i], met[i], met[i + 1], c.maxWriteBufferSize)
    ensures hung ==> (exists i :: 0 <= i < |ops| && EmptyRange(ops[i])) || FileEnds(old(c.socket.script))
    ensures !hung && !c.closed ==>
              && |log| == |ops| && (forall i :: 0 <= i < |ops| ==> Logged(ops[i], log[i], met[i]))
              && c.socket.wire + Queued(c.writeList) == Concat(log)
              && (c.writeList != [] <==> c.interest)
    ensures !hung && c.closed ==>
              && |log| < |ops| && (forall i :: 0 <= i < |log| ==> Logged(ops[i], log[i], met[i]))
              && c.socket.wire <= Concat(log) + Offered(ops[|log|])
  {
    hide Queued, Buffered, ValidList, Owned, NoneStuck, Concat, Offered, Logged, Hung, FileEnds, EmptyRange, Later,
      Follows;
    log, met, hung := [], [Met(c.writeList, c.socket.script, c.closed)], false;
    ghost var script := c.socket.script;
    SameLater(script);
    NoPieces();
    for k := 0 to |ops|
      invariant c.Valid() && !hung && |met| == k + 1 && met[k] == Met(c.writeList, c.socket.script, c.closed)
      invariant met[0] == Met(old(c.writeList), old(c.socket.script), false)
      invariant forall i :: 0 <= i < k ==> Follows(ops[i], met[i], met[i + 1], c.maxWriteBufferSize)
      invariant |log| <= k && (forall i :: 0 <= i < |log| ==> Logged(ops[i], log[i], met[i]))
      invariant !c.closed ==> |log| == k
      invariant c.closed ==> |log| < k && c.socket.wire <= Concat(log) + Offered(ops[|log|])
      invariant !c.closed ==> c.accepted == Concat(log)
      invariant !c.closed ==> NoneStuck(c.writeList) || exists i :: 0 <= i < k && EmptyRange(ops[i])
      invariant forall i :: 0 <= i < k ==> !Hung(ops[i], met[i])
      invariant Later(script, c.socket.script)
    {
      ghost var entry;
      HungLater(script, ops[k], met[k]);
      LaterStill(script, c.socket.script);
      entry, hung := Perform(c, ops[k]);
      if hung { return; }
      met := met + [Met(c.writeList, c.socket.script, c.closed)];
      if !c.closed {
        ConcatSnoc(log, entry);
        log := log + [entry];
      }
    }
  }

  /** One operation of a run. */
  method Perform(c: Conn, op: Op) returns (ghost entry: Str, hung: bool)
    requires c.Valid()
    modifies c, c.socket
    ensures hung <==> Hung(op, Met(old(c.writeList), old(c.socket.script), old(c.closed)))
    ensures !hung ==> c.Valid() && (old(c.closed) ==> c.closed)
    ensures !hung ==>
              Follows(op, Met(old(c.writeList), old(c.socket.script), old(c.closed)),
                      Met(c.writeList, c.socket.script, c.closed), c.maxWriteBufferSize)
    ensures Later(old(c.socket.script), c.socket.script)
    ensures old(c.closed) ==> c.socket.wire == old(c.socket.wire)
    ensures !hung && !old(c.closed) && c.closed ==> c.socket.wire <= old(c.accepted) + Offered(op)
    ensures !hung && !c.closed ==>
              && Logged(op, entry, Met(old(c.writeList), old(c.socket.script), old(c.closed)))
              && c.accepted == old(c.accepted) + entry
              && (old(NoneStuck(c.writeList)) ==> NoneStuck(c.writeList) || EmptyRange(op))
  {
    hide Queued, Buffered, ValidList, Owned, NoneStuck, DirectRun, Taken, Hangs, Truthful, Later, Breaks,
      Leaves, Grows, AtOnce;
    SameLater(c.socket.script);
    entry, hung := [], false;
    assert c.accepted + [] == c.accepted;
    match op {
      case DoWrite(b) =>
        var n, err := c.Write(b);
        entry := b;
      case DoSendfile(content, offset, remain, dupOk) =>
        ghost var taken;
        var n, err;
        n, err, taken := c.Sendfile(content, offset, remain, dupOk);
        if taken > 0 { entry := content[offset..offset + taken]; }
      case DoFlush =>
        var r := c.Flush();
        hung := r == Spins;
      case DoClose =>
        c.CloseWithError();
    }
  }

  lemma NoPieces()
    ensures Concat([]) == []
  {
  }

  lemma SameLater(script: seq<Reply>)
    ensures Later(script, script)
  {
  }

  lemma LaterStill(script: seq<Reply>, rest: seq<Reply>)
    requires Later(script, rest)
    ensures forall last :: Later(rest, last) ==> Later(script, last)
  {
  }

  /** A flush hangs with an empty range on the list, or on a reply that a file has ended. */
  lemma HungLater(script: seq<Reply>, op: Op, met: Met)
    requires Later(script, met.script)
    ensures Hung(op, met) ==> !met.closed && (NoneStuck(met.list) ==> FileEnds(script))
  {
    if Hung(op, met) && NoneStuck(met.list) { HangsLater(script, met.list, met.script); }
  }

  lemma HangsLater(script: seq<Reply>, l: seq<ToWrite>, rest: seq<Reply>)
    requires Later(script, rest) && ValidList(l) && NoneStuck(l)
    ensures Hangs(l, rest) ==> FileEnds(script)
  {
    if Hangs(l, rest) {
      HangsOnEnd(l, rest);
      var i :| 0 <= i < |rest| && rest[i].errno == Done && rest[i].n == 0;
      assert script[|script| - |rest| + i] == rest[i];
    }
  }

  lemma DirectStep(script: seq<Reply>, remain: nat)
    requires remain > 0
    ensures script == [] ==> DirectRun(script, remain) == Blocked(remain)
    ensures script != [] ==>
              var n := Took(script[0], Min(MAX_SENDFILE, remain));
              var left := remain - Max(n, 0);
              DirectRun(script, remain) ==
                match script[0].errno
                case Broken => Broke
                case WouldBlock => Blocked(left)
                case Interrupted => DirectRun(script[1..], left)
                case Done => if n == 0 then EndOfFile(remain) else DirectRun(script[1..], left)
  {
  }

  lemma FinishedRun(script: seq<Reply>)
    ensures DirectRun(script, 0) == AllSent
  {
  }

  /** Bytes sent at once, and the rest behind what was queued. */
  lemma Joined(before: Str, wire: Str, queued: Str, rest: Str, b: Str, accepted: Str)
    requires before + queued == accepted
    requires (wire == before && rest == b) || (queued == [] && wire + rest == before + b)
    ensures wire + (queued + rest) == accepted + b && (rest == [] ==> wire + queued == accepted + b)
  {
    assert wire + (queued + rest) == wire + queued + rest;
    if queued == [] {
      assert before + queued == before && wire + queued == wire;
    }
    assert rest == [] ==> wire + queued + rest == wire + queued;
  }

  lemma NothingStuck()
    ensures NoneStuck([]) && Buffered([]) == 0 && Queued([]) == []
  {
  }
}
