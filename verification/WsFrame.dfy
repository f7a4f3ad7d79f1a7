/** WebSocket frames (section 5.2 of RFC 6455): taking one off the front of the cached
    bytes, and laying one out. */
module WsFrame {
  import opened Bytes
  import opened WsMask

  const TWO_64: nat := 0x1_0000_0000_0000_0000

  const FRAGMENT: nat := 0
  const TEXT: nat := 1
  const BINARY: nat := 2
  const CLOSE: nat := 8
  const PING: nat := 9
  const PONG: nat := 10
  const MAX_CONTROL: nat := 125

  datatype Error =
    | NetClosed | TooLong
    | ReserveBitSet | ReservedMessageType | ControlFragmented | DataInsideFragments
    | InvalidFragment | MessageTooLarge | ControlTooBig
    | ParsePanic | WriteFailed

  predicate IsData(opcode: nat) { opcode == FRAGMENT || opcode == TEXT || opcode == BINARY }
  predicate IsControl(opcode: nat) { opcode == PING || opcode == PONG || opcode == CLOSE }

  // ---- big-endian numbers ----

  function BE(s: Str): (n: nat)
  {
    if s == [] then 0 else BE(s[..|s| - 1]) * 256 + s[|s| - 1] as int
  }

  function PutBE(n: nat, width: nat): (s: Str)
    ensures |s| == width
  {
    if width == 0 then [] else PutBE(n / 256, width - 1) + [ToByte(n % 256)]
  }

  function Power256(k: nat): (n: nat)
  {
    if k == 0 then 1 else 256 * Power256(k - 1)
  }

  lemma {:induction false} PutGet(n: nat, width: nat)
    requires n < Power256(width)
    ensures BE(PutBE(n, width)) == n
  {
    if width > 0 {
      PutGet(n / 256, width - 1);
      var s := PutBE(n, width);
      assert s[..|s| - 1] == PutBE(n / 256, width - 1);
    }
  }

  // ---- the frame header ----

  function Opcode(b0: byte): (n: nat) { (b0 & 0x0F) as int }
  predicate Fin(b0: byte) { b0 & 0x80 != 0 }
  predicate Res1(b0: byte) { b0 & 0x40 != 0 }
  predicate Res23(b0: byte) { b0 & 0x30 != 0 }
  predicate HasMask(b1: byte) { b1 & 0x80 != 0 }
  function ShortLength(b1: byte): (n: nat) { (b1 & 0x7F) as int }

  /** What the first bytes say about the payload length and the header's own length. */
  datatype Length = Unknown | Negative | Known(body: nat, head: nat)

  function FrameLength(x: Str): (l: Length)
    requires |x| >= 2
    ensures l.Known? ==> 2 <= l.head <= |x|
  {
    var p := ShortLength(x[1]);
    if p == 126 then (if |x| >= 4 then Known(BE(x[2..4]), 4) else Unknown)
    else if p == 127 then
      if |x| < 10 then Unknown
      else if BE(x[2..10]) >= TWO_63 then Negative
      else Known(BE(x[2..10]), 10)
    else Known(p, 2)
  }

  /** Addition of two non-negative 64-bit integers. */
  function Wrap64(n: nat): (r: int)
  {
    if n < TWO_63 then n else n - TWO_64
  }

  predicate IsMessageTooLarge(limit: int, n: int) { limit > 0 && n > limit }

  /** validFrame, for a connection without compression. */
  function ValidFrame(b0: byte, expecting: bool): (e: Option<Error>)
  {
    var op := Opcode(b0);
    if Res1(b0) || Res23(b0) then Some(ReserveBitSet)
    else if BINARY < op < CLOSE then Some(ReservedMessageType)
    else if !Fin(b0) && !IsData(op) then Some(ControlFragmented)
    else if expecting && (op == TEXT || op == BINARY) then Some(DataInsideFragments)
    else None
  }

  datatype Next = More | Bad(error: Error) | Frame(total: nat, opcode: nat, fin: bool, body: Str)

  function HeaderLength(x: Str, head: nat): (n: nat)
    requires |x| >= 2
  {
    head + if HasMask(x[1]) then 4 else 0
  }

  /** The payload of a frame that is complete in x. */
  function Payload(x: Str, head: nat, n: nat): (r: Str)
    requires |x| >= 2 && HeaderLength(x, head) + n <= |x|
  {
    var h := HeaderLength(x, head);
    if HasMask(x[1]) then Masked(x[h..h + n], x[h - 4..h]) else x[h..h + n]
  }

  /** nextFrame, on the cached bytes x and a partial message of ml bytes. */
  function NextFrame(limit: int, ml: nat, expecting: bool, x: Str): (r: Next)
    ensures r.Frame? ==> 0 < r.total <= |x|
  {
    if |x| < 2 then More
    else
      match FrameLength(x)
      case Negative => Bad(InvalidFragment)
      case Unknown => if IsMessageTooLarge(limit, ml as int - 1) then Bad(MessageTooLarge) else More
      case Known(n, head) =>
        if IsMessageTooLarge(limit, Wrap64(ml + n)) then Bad(MessageTooLarge)
        else if n > MAX_CONTROL && IsControl(Opcode(x[0])) then Bad(ControlTooBig)
        else
          var total := HeaderLength(x, head) + n;
          if Wrap64(total) < 0 then Bad(ParsePanic)
          else if |x| < total then More
          else
            match ValidFrame(x[0], expecting)
            case Some(e) => Bad(e)
            case None => Frame(total, Opcode(x[0]), Fin(x[0]), Payload(x, head, n))
  }

  /** More bytes do not change what the first ones decided: a frame that was complete is the
      same frame, and an error is the same error. */
  lemma NextFrameMonotone(limit: int, ml: nat, expecting: bool, x: Str, y: Str)
    requires limit > 0 ==> ml <= limit
    requires !NextFrame(limit, ml, expecting, x).More?
    ensures NextFrame(limit, ml, expecting, x + y) == NextFrame(limit, ml, expecting, x)
  {
    hide FrameLength, Payload, HasMask, Opcode, Fin, ValidFrame, IsControl, Wrap64;
    assert (x + y)[0] == x[0] && (x + y)[1] == x[1];
    LengthMonotone(x, y);
    if FrameLength(x).Known? {
      var head, n := FrameLength(x).head, FrameLength(x).body;
      if HeaderLength(x, head) + n <= |x| { PayloadMonotone(x, y, head, n); }
    }
  }

  lemma LengthMonotone(x: Str, y: Str)
    requires |x| >= 2
    ensures !FrameLength(x).Unknown? ==> FrameLength(x + y) == FrameLength(x)
  {
    hide BE, ShortLength;
    assert (x + y)[1] == x[1];
    if |x| >= 4 { assert (x + y)[2..4] == x[2..4]; }
    if |x| >= 10 { assert (x + y)[2..10] == x[2..10]; }
  }

  lemma PayloadMonotone(x: Str, y: Str, head: nat, n: nat)
    requires |x| >= 2 && head >= 2 && HeaderLength(x, head) + n <= |x|
    ensures HeaderLength(x + y, head) == HeaderLength(x, head)
    ensures Payload(x + y, head, n) == Payload(x, head, n)
  {
    hide HasMask, Masked;
    assert (x + y)[1] == x[1];
    var h := HeaderLength(x, head);
    assert (x + y)[h..h + n] == x[h..h + n];
    if HasMask(x[1]) { assert (x + y)[h - 4..h] == x[h - 4..h]; }
  }

  // ---- writing a frame ----

  /** The length fields for a payload of n bytes; the mask bit shares their first byte. */
  function LengthBytes(n: nat, masked: bool): (r: Str)
    requires n < TWO_63
  {
    var bit: byte := if masked then 0x80 else 0;
    if n < 126 then [bit | ToByte(n)]
    else if n <= 65535 then [bit | 126] + PutBE(n, 2)
    else [bit | 127] + PutBE(n, 8)
  }

  function FirstByte(opcode: byte, sendOpcode: bool, fin: bool): (b: byte)
  {
    (if sendOpcode then opcode else 0) | (if fin then 0x80 else 0)
  }

  /** What follows the length fields: the key and the masked payload, or the payload. */
  function Tail(data: Str, key: Option<Str>): (r: Str)
    requires key.Some? ==> IsKey(key.value)
  {
    match key
    case None => data
    case Some(k) => k + Masked(data, k)
  }

  /** A frame as writeFrame lays it out; only a client masks. */
  function Encode(opcode: byte, sendOpcode: bool, fin: bool, data: Str, key: Option<Str>): (r: Str)
    requires |data| < TWO_63
    requires key.Some? ==> IsKey(key.value)
  {
    [FirstByte(opcode, sendOpcode, fin)] + LengthBytes(|data|, key.Some?) + Tail(data, key)
  }

  lemma LengthByteBits(n: nat, masked: bool)
    requires n <= 127
    ensures var bit: byte := if masked then 0x80 else 0;
            ShortLength(bit | ToByte(n)) == n && HasMask(bit | ToByte(n)) == masked
  {
    hide ToByte;
    var b := ToByte(n);
    assert b < 0x80;
    assert (0x80 | b) & 0x7F == b && (0 | b) & 0x7F == b;
  }

  /** The reader sees the length and the header length the writer chose. */
  lemma LengthRead(b0: byte, n: nat, masked: bool, rest: Str)
    requires n < TWO_63
    ensures var x := [b0] + LengthBytes(n, masked) + rest;
            && |x| >= 2 && FrameLength(x) == Known(n, 1 + |LengthBytes(n, masked)|)
            && HasMask(x[1]) == masked
  {
    hide ShortLength, HasMask, BE, PutBE, ToByte;
    var lb := LengthBytes(n, masked);
    var x := [b0] + lb + rest;
    var bit: byte := if masked then 0x80 else 0;
    assert x[1] == lb[0];
    if n < 126 {
      LengthByteBits(n, masked);
    } else if n <= 65535 {
      LengthByteBits(126, masked);
      assert Power256(2) == 65536;
      PutGet(n, 2);
      assert ToByte(126) == 126;
      assert x[2..4] == PutBE(n, 2);
    } else {
      LengthByteBits(127, masked);
      PowerEight();
      PutGet(n, 8);
      assert ToByte(127) == 127;
      assert x[2..10] == PutBE(n, 8);
    }
  }

  lemma PowerEight()
    ensures Power256(8) == TWO_64
  {
    assert Power256(2) == 65536 && Power256(4) == 4_294_967_296;
    assert Power256(6) == 281_474_976_710_656;
  }

  lemma FirstByteBits(opcode: byte, sendOpcode: bool, fin: bool)
    requires opcode <= 0x0F
    ensures var b := FirstByte(opcode, sendOpcode, fin);
            && Opcode(b) == (if sendOpcode then opcode as int else 0)
            && Fin(b) == fin && !Res1(b) && !Res23(b)
  {
  }

  /** The frame that a writer with this opcode byte sends is acceptable to the reader. */
  predicate Acceptable(limit: int, ml: nat, expecting: bool, opcode: nat, fin: bool, n: nat)
  {
    && (limit > 0 ==> ml + n <= limit) && ml + n < TWO_63 - 14
    && (IsData(opcode) || (IsControl(opcode) && fin && n <= MAX_CONTROL))
    && (expecting ==> opcode != TEXT && opcode != BINARY)
  }

  /** What writeFrame lays out, nextFrame takes off: the same opcode, FIN bit and payload,
      masked or not, whatever follows. */
  lemma ReadWritten(limit: int, ml: nat, expecting: bool, opcode: byte, sendOpcode: bool, fin: bool,
                    data: Str, key: Option<Str>, rest: Str)
    requires opcode <= 0x0F && (key.Some? ==> IsKey(key.value)) && |data| < TWO_63
    requires Acceptable(limit, ml, expecting, if sendOpcode then opcode as int else 0, fin, |data|)
    ensures var x := Encode(opcode, sendOpcode, fin, data, key);
            NextFrame(limit, ml, expecting, x + rest) ==
              Frame(|x|, if sendOpcode then opcode as int else 0, fin, data)
  {
    hide LengthBytes, FrameLength, FirstByte, Masked, Opcode, Fin, Res1, Res23, HasMask, Payload;
    var x, lb := Encode(opcode, sendOpcode, fin, data, key), LengthBytes(|data|, key.Some?);
    FirstByteBits(opcode, sendOpcode, fin);
    PayloadWritten(FirstByte(opcode, sendOpcode, fin), data, key, rest);
    LengthSize(|data|, key.Some?);
  }

  /** A frame, of data or of control, that together with the partial message passes the limit is refused. */
  lemma ReadRefused(limit: int, ml: nat, expecting: bool, opcode: byte, sendOpcode: bool, fin: bool,
                    data: Str, key: Option<Str>, rest: Str)
    requires (key.Some? ==> IsKey(key.value)) && |data| < TWO_63 && 0 < limit < ml + |data| < TWO_63
    ensures NextFrame(limit, ml, expecting, Encode(opcode, sendOpcode, fin, data, key) + rest) == Bad(MessageTooLarge)
  {
    hide LengthBytes, FrameLength, FirstByte, Masked, Opcode, Fin, HasMask, Payload, ValidFrame;
    PayloadWritten(FirstByte(opcode, sendOpcode, fin), data, key, rest);
  }

  /** A control frame without FIN is refused. */
  lemma ReadFragmented(limit: int, ml: nat, expecting: bool, opcode: byte, data: Str, key: Option<Str>, rest: Str)
    requires (key.Some? ==> IsKey(key.value)) && IsControl(opcode as int) && |data| <= MAX_CONTROL
    requires (limit > 0 ==> ml + |data| <= limit) && ml + |data| < TWO_63 - 14
    ensures NextFrame(limit, ml, expecting, Encode(opcode, true, false, data, key) + rest) == Bad(ControlFragmented)
  {
    hide LengthBytes, FrameLength, FirstByte, Masked, Opcode, Fin, Res1, Res23, HasMask, Payload;
    assert opcode <= 0x0F by { assert opcode as int <= 10; }
    FirstByteBits(opcode, true, false);
    PayloadWritten(FirstByte(opcode, true, false), data, key, rest);
    LengthSize(|data|, key.Some?);
  }

  lemma PayloadWritten(b0: byte, data: Str, key: Option<Str>, rest: Str)
    requires (key.Some? ==> IsKey(key.value)) && |data| < TWO_63
    ensures var lb := LengthBytes(|data|, key.Some?);
            var x := [b0] + lb + Tail(data, key) + rest;
            && |x| >= 2 && FrameLength(x) == Known(|data|, 1 + |lb|) && HasMask(x[1]) == key.Some?
            && HeaderLength(x, 1 + |lb|) + |data| == |x| - |rest|
            && Payload(x, 1 + |lb|, |data|) == data
  {
    hide LengthBytes, FrameLength, Masked, HasMask;
    var lb, tail := LengthBytes(|data|, key.Some?), Tail(data, key);
    var x, h := [b0] + lb + tail + rest, 1 + |lb|;
    assert x == [b0] + lb + (tail + rest);
    LengthRead(b0, |data|, key.Some?, tail + rest);
    match key {
      case None =>
        assert x[h..h + |data|] == data;
      case Some(k) =>
        assert x[h..h + 4] == k;
        assert x[h + 4..h + 4 + |data|] == Masked(data, k);
        MaskedTwice(data, k);
    }
  }

  lemma LengthSize(n: nat, masked: bool)
    requires n < TWO_63
    ensures 1 <= |LengthBytes(n, masked)| <= 9
  {
  }
}
