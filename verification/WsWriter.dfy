/** The writing side: a message cut into frames, each laid out in one buffer and masked in
    place by a client, and the reader as its inverse. */
module WsWriter {
  import opened Bytes
  import opened WsMask
  import opened WsFrame

  /** Where the masking keys come from: a server does not mask, a client draws a key per frame. */
  datatype Role = Server | Client(keys: nat -> Str)

  ghost predicate ValidRole(role: Role) { role.Client? ==> forall i: nat :: IsKey(KeyAt(role, i)) }

  function KeyAt(role: Role, i: nat): (k: Str)
    requires role.Client?
  {
    role.keys(i)
  }

  function Key(role: Role, i: nat): (k: Option<Str>)
  {
    if role.Client? then Some(KeyAt(role, i)) else None
  }

  /** The frames of a message: all but the last hold `max` bytes, only the first carries the
      opcode and only the last has FIN. */
  ghost function Written(role: Role, i: nat, opcode: byte, first: bool, data: Str, max: nat): (r: seq<Str>)
    requires ValidRole(role) && max >= 1 && |data| < TWO_63
    decreases |data|
  {
    if |data| <= max then [Encode(opcode, first, true, data, Key(role, i))]
    else [Encode(opcode, first, false, data[..max], Key(role, i))] +
         Written(role, i + 1, opcode, false, data[max..], max)
  }

  /** Whether the i-th write to the connection fails. */
  predicate Fails(broken: nat -> bool, i: nat) { broken(i) }

  /** How many of the n writes from number i on are made: up to the first that fails, which is made. */
  function Made(broken: nat -> bool, i: nat, n: nat): (k: nat)
    ensures k <= n
    decreases n
  {
    if n == 0 then 0 else if Fails(broken, i) then 1 else 1 + Made(broken, i + 1, n - 1)
  }

  predicate AnyFails(broken: nat -> bool, i: nat, n: nat) { exists j: nat :: i <= j < i + n && Fails(broken, j) }

  /** If none of the writes fails all are made; otherwise the last one made fails, and only that. */
  lemma {:induction false} MadeExact(broken: nat -> bool, i: nat, n: nat)
    ensures !AnyFails(broken, i, n) ==> Made(broken, i, n) == n
    ensures AnyFails(broken, i, n) ==> Made(broken, i, n) > 0 && Fails(broken, i + Made(broken, i, n) - 1)
    ensures forall j: nat :: i <= j < i + Made(broken, i, n) - 1 ==> !Fails(broken, j)
    decreases n
  {
    if n > 0 && !Fails(broken, i) { MadeExact(broken, i + 1, n - 1); }
  }

  // ---- the writer ----

  class Writer {
    const role: Role
    const maxFrame: nat
    /** Which writes to the connection fail. */
    const broken: nat -> bool
    var closed: bool
    /** How many frames have been laid out, and what has been passed to the connection. */
    var drawn: nat
    var sent: seq<Str>

    ghost predicate Valid()
      reads this
    {
      ValidRole(role) && maxFrame >= 1
    }

    constructor (role: Role, maxFrame: nat, broken: nat -> bool)
      requires ValidRole(role) && maxFrame >= 1
      ensures Valid() && !closed && sent == [] && drawn == 0
      ensures this.role == role && this.maxFrame == maxFrame && this.broken == broken
    {
      this.role, this.maxFrame, this.broken := role, maxFrame, broken;
      closed, drawn, sent := false, 0, [];
    }

    /** Lays out one frame and writes it; the error is that of the write. */
    method WriteFrame(opcode: byte, sendOpcode: bool, fin: bool, data: Str) returns (err: Option<Error>)
      requires Valid() && |data| < TWO_63 - 14
      modifies this`drawn, this`sent
      ensures drawn == old(drawn) + 1
      ensures err == if Fails(broken, old(drawn)) then Some(WriteFailed) else None
      ensures sent == old(sent) + [Encode(opcode, sendOpcode, fin, data, Key(role, old(drawn)))]
    {
      hide LengthBytes, FirstByte, Tail;
      var head := LengthBytes(|data|, role.Client?);
      var pbuf;
      if role.Client? {
        pbuf := LayOutMasked(FirstByte(opcode, sendOpcode, fin), head, KeyAt(role, drawn), data);
      } else {
        pbuf := LayOut(FirstByte(opcode, sendOpcode, fin), head, data);
      }
      err := if Fails(broken, drawn) then Some(WriteFailed) else None;
      drawn := drawn + 1;
      sent := sent + [pbuf];
    }

    /** Length fields and payload are put in their places, the first byte last. */
    static method LayOut(first: byte, head: Str, data: Str) returns (r: Str)
      ensures r == [first] + head + Tail(data, None)
    {
      var pbuf := new byte[1 + |head| + |data|];
      Fill(pbuf, 1, head);
      Fill(pbuf, 1 + |head|, data);
      assert pbuf[..] == pbuf[..1 + |head| + |data|];
      Laid(pbuf[..], head, [], data);
      assert [] + data == data;
      r := Seal(pbuf, first, head + data);
    }

    /** The same with a key, by which the payload is masked where it lies. */
    static method LayOutMasked(first: byte, head: Str, key: Str, data: Str) returns (r: Str)
      requires IsKey(key)
      ensures r == [first] + head + Tail(data, Some(key))
    {
      hide Masked;
      var headLen := 1 + |head| + 4;
      var pbuf := new byte[headLen + |data|];
      Fill(pbuf, 1, head);
      Fill(pbuf, headLen - 4, key);
      ghost var before := pbuf[..headLen];
      Fill(pbuf, headLen, data);
      assert pbuf[..headLen] == before;
      MaskXOR(pbuf, headLen, pbuf.Length, key);
      Laid(pbuf[..], head, key, Masked(data, key));
      r := Seal(pbuf, first, head + (key + Masked(data, key)));
    }

    /** The first byte is put in last. */
    static method Seal(pbuf: array<byte>, first: byte, ghost rest: Str) returns (r: Str)
      requires pbuf.Length > 0 && pbuf[..][1..] == rest
      modifies pbuf
      ensures r == [first] + rest
    {
      ghost var before := pbuf[..];
      pbuf[0] := first;
      r := pbuf[..];
      assert r[1..] == before[1..];
    }

    static lemma Laid(whole: Str, head: Str, key: Str, body: Str)
      requires |whole| == 1 + |head| + |key| + |body|
      requires whole[..1 + |head| + |key|] == whole[..1] + head + key && whole[1 + |head| + |key|..] == body
      ensures whole[1..] == head + (key + body)
    {
      assert whole == whole[..1 + |head| + |key|] + whole[1 + |head| + |key|..];
    }

    static method Fill(buf: array<byte>, at: nat, s: Str)
      requires at + |s| <= buf.Length
      modifies buf
      ensures buf[at..at + |s|] == s && buf[..at + |s|] == old(buf[..at]) + s
    {
      forall i | 0 <= i < |s| {
        buf[at + i] := s[i];
      }
    }

    /** WriteMessage without compression: the frames of the message, up to the first write that fails. */
    method WriteMessage(opcode: byte, data: Str) returns (err: Option<Error>)
      requires Valid() && |data| < TWO_63 - 14
      modifies this`drawn, this`sent
      ensures closed ==> err == Some(NetClosed) && sent == old(sent)
      ensures !closed && IsControl(opcode as int) && |data| > 125 ==>
                err == Some(ControlTooBig) && sent == old(sent)
      ensures !closed && !(IsControl(opcode as int) && |data| > 125) ==>
                var w := Written(role, old(drawn), opcode, true, data, maxFrame);
                && err == (if AnyFails(broken, old(drawn), |w|) then Some(WriteFailed) else None)
                && sent == old(sent) + w[..Made(broken, old(drawn), |w|)]
    {
      hide Encode, Made, AnyFails;
      if closed { return Some(NetClosed); }
      if IsControl(opcode as int) && |data| > MAX_CONTROL { return Some(ControlTooBig); }
      ghost var w := Written(role, drawn, opcode, true, data, maxFrame);
      if |data| > 0 {
        var sendOpcode, rest := true, data;
        ghost var k := 0;
        assert sent + w[..0] == sent && w[0..] == w;
        while |rest| > 0
          invariant |rest| < TWO_63 - 14 && k <= |w| && drawn == old(drawn) + k
          invariant sent == old(sent) + w[..k] && (rest == [] ==> k == |w|)
          invariant forall j: nat :: old(drawn) <= j < drawn ==> !Fails(broken, j)
          invariant rest != [] ==> w[k..] == Written(role, drawn, opcode, sendOpcode, rest, maxFrame)
        {
          var n := |rest|;
          if n > maxFrame { n := maxFrame; }
          NextWritten(role, drawn, opcode, sendOpcode, rest, maxFrame, w, k);
          err := WriteFrame(opcode, sendOpcode, n == |rest|, rest[..n]);
          k := k + 1;
          if err.Some? {
            Stopped(broken, old(drawn), k, |w|);
            return;
          }
          sendOpcode, rest := false, rest[n..];
        }
        AllMade(broken, old(drawn), |w|);
        assert w[..|w|] == w;
        return None;
      }
      err := WriteFrame(opcode, true, true, []);
      assert |w| == 1 && w[..1] == w;
      if err.Some? { Stopped(broken, old(drawn), 1, 1); } else { AllMade(broken, old(drawn), 1); }
    }
  }

  /** The next frame of a message, and the frames after it. */
  lemma NextWritten(role: Role, i: nat, opcode: byte, first: bool, data: Str, max: nat, w: seq<Str>, k: nat)
    requires ValidRole(role) && max >= 1 && 0 < |data| < TWO_63 && k <= |w|
    requires w[k..] == Written(role, i, opcode, first, data, max)
    ensures var n := if |data| > max then max else |data|;
            && k < |w| && w[..k + 1] == w[..k] + [Encode(opcode, first, n == |data|, data[..n], Key(role, i))]
            && (n == |data| ==> k + 1 == |w|)
            && (n < |data| ==> w[k + 1..] == Written(role, i + 1, opcode, false, data[n..], max))
  {
    hide Encode;
    var n := if |data| > max then max else |data|;
    if n == |data| { assert data[..n] == data; }
    var r := Written(role, i, opcode, first, data, max);
    assert r[0] == w[k] && w[k + 1..] == r[1..];
  }

  /** The writes went well up to number k, which failed. */
  lemma Stopped(broken: nat -> bool, i: nat, k: nat, n: nat)
    requires 0 < k <= n && Fails(broken, i + k - 1) && forall j: nat :: i <= j < i + k - 1 ==> !Fails(broken, j)
    ensures AnyFails(broken, i, n) && Made(broken, i, n) == k
  {
    MadeExact(broken, i, n);
  }

  lemma AllMade(broken: nat -> bool, i: nat, n: nat)
    requires forall j: nat :: i <= j < i + n ==> !Fails(broken, j)
    ensures !AnyFails(broken, i, n) && Made(broken, i, n) == n
  {
    MadeExact(broken, i, n);
  }
}
