/** Every frame that section 5.2 of RFC 6455 can lay out, with any bits in its header and its length in any
    of the three forms, and what the reader makes of it. */
module WsAnyFrame {
  import opened Bytes
  import opened WsMask
  import opened WsFrame
  import opened WsReader

  /** How the length is written: in seven bits, in sixteen, or in sixty-four. */
  datatype Form = Seven | Sixteen | SixtyFour

  datatype Wire = Wire(fin: bool, rsv1: bool, rsv2: bool, rsv3: bool, opcode: byte, form: Form, data: Str,
                       key: Option<Str>)

  predicate ValidWire(w: Wire)
  {
    && w.opcode < 16 && (w.key.Some? ==> IsKey(w.key.value))
    && match w.form
       case Seven => |w.data| <= 125
       case Sixteen => |w.data| <= 65535
       case SixtyFour => |w.data| < TWO_63
  }

  function Bit(on: bool, value: byte): (b: byte) { if on then value else 0 }

  function First(w: Wire): (b: byte)
  {
    Bit(w.fin, 128) + Bit(w.rsv1, 64) + Bit(w.rsv2, 32) + Bit(w.rsv3, 16) + w.opcode
  }

  function Lengths(w: Wire): (r: Str)
    requires ValidWire(w)
    ensures 1 <= |r| <= 9
  {
    var mask := Bit(w.key.Some?, 128);
    match w.form
    case Seven => [mask + ToByte(|w.data|)]
    case Sixteen => [mask + 126] + PutBE(|w.data|, 2)
    case SixtyFour => [mask + 127] + PutBE(|w.data|, 8)
  }

  function Layout(w: Wire): (r: Str)
    requires ValidWire(w)
  {
    [First(w)] + Lengths(w) + Tail(w.data, w.key)
  }

  lemma FirstRead(w: Wire)
    requires w.opcode < 16
    ensures
      var b := First(w);
      && Opcode(b) == w.opcode as int && Fin(b) == w.fin
      && Res1(b) == w.rsv1 && Res23(b) == (w.rsv2 || w.rsv3)
  {
    var b := First(w);
    assert b & 0x0F == w.opcode;
  }

  lemma SecondRead(masked: bool, n: byte)
    requires n <= 127
    ensures ShortLength(Bit(masked, 128) + n) == n as int && HasMask(Bit(masked, 128) + n) == masked
  {
    assert (Bit(masked, 128) + n) & 0x7F == n;
  }

  lemma LengthsRead(w: Wire, rest: Str)
    requires ValidWire(w)
    ensures
      var x := [First(w)] + Lengths(w) + rest;
      && |x| >= 2 && FrameLength(x) == Known(|w.data|, 1 + |Lengths(w)|) && HasMask(x[1]) == w.key.Some?
  {
    hide ShortLength, HasMask, BE, PutBE, ToByte, First;
    var n, masked := |w.data|, w.key.Some?;
    var x := [First(w)] + Lengths(w) + rest;
    assert x[1] == Lengths(w)[0];
    match w.form {
      case Seven =>
        SecondRead(masked, ToByte(n));
      case Sixteen =>
        SecondRead(masked, 126);
        assert Power256(2) == 65536;
        PutGet(n, 2);
        assert x[2..4] == PutBE(n, 2);
      case SixtyFour =>
        SecondRead(masked, 127);
        PowerEight();
        PutGet(n, 8);
        assert x[2..10] == PutBE(n, 8);
    }
  }

  lemma WireRead(w: Wire, rest: Str)
    requires ValidWire(w)
    ensures
      var x, head := Layout(w) + rest, 1 + |Lengths(w)|;
      && |x| >= 2 && x[0] == First(w) && FrameLength(x) == Known(|w.data|, head) && HasMask(x[1]) == w.key.Some?
      && HeaderLength(x, head) + |w.data| == |Layout(w)| && Payload(x, head, |w.data|) == w.data
  {
    hide Lengths, FrameLength, Masked, HasMask, First;
    var tail := Tail(w.data, w.key);
    var x, h := Layout(w) + rest, 1 + |Lengths(w)|;
    assert x == [First(w)] + Lengths(w) + (tail + rest);
    LengthsRead(w, tail + rest);
    match w.key {
      case None =>
        assert x[h..h + |w.data|] == w.data;
      case Some(k) =>
        assert x[h..h + 4] == k;
        assert x[h + 4..h + 4 + |w.data|] == Masked(w.data, k);
        MaskedTwice(w.data, k);
    }
  }

  /** The first thing that is wrong with a frame, if anything is: the message is too long; a close, ping
      or pong carries more than 125 bytes; a reserved bit is set; the opcode is one of the reserved 3 to
      7; an opcode from 8 on comes without FIN; a new text or binary message starts inside another. */
  function Wrong(limit: int, ml: nat, expecting: bool, w: Wire): (e: Option<Error>)
  {
    var op := w.opcode as int;
    if limit > 0 && ml + |w.data| > limit then Some(MessageTooLarge)
    else if 8 <= op <= 10 && |w.data| > 125 then Some(ControlTooBig)
    else WrongHeader(expecting, w)
  }

  function WrongHeader(expecting: bool, w: Wire): (e: Option<Error>)
  {
    var op := w.opcode as int;
    if w.rsv1 || w.rsv2 || w.rsv3 then Some(ReserveBitSet)
    else if 3 <= op <= 7 then Some(ReservedMessageType)
    else if op >= 8 && !w.fin then Some(ControlFragmented)
    else if expecting && 1 <= op <= 2 then Some(DataInsideFragments)
    else None
  }

  lemma HeaderJudged(expecting: bool, w: Wire)
    requires w.opcode < 16
    ensures ValidFrame(First(w), expecting) == WrongHeader(expecting, w)
  {
    FirstRead(w);
    hide First, Opcode, Fin, Res1, Res23;
  }

  /** The order in which a complete frame is judged. */
  lemma NextJudged(limit: int, ml: nat, expecting: bool, x: Str, n: nat, head: nat)
    requires |x| >= 2 && FrameLength(x) == Known(n, head) && head <= 10 && ml + n < TWO_63 - 14
    requires HeaderLength(x, head) + n <= |x|
    ensures
      NextFrame(limit, ml, expecting, x) ==
      if limit > 0 && ml + n > limit then Bad(MessageTooLarge)
      else if n > 125 && IsControl(Opcode(x[0])) then Bad(ControlTooBig)
      else match ValidFrame(x[0], expecting)
           case Some(e) => Bad(e)
           case None => Frame(HeaderLength(x, head) + n, Opcode(x[0]), Fin(x[0]), Payload(x, head, n))
  {
    hide FrameLength, Payload, HasMask, Opcode, Fin, ValidFrame;
  }

  /** A frame that is there completely is taken, with its opcode, FIN bit and payload, if and only if
      nothing is wrong with it; otherwise the first thing that is wrong is the error. */
  lemma AnyFrame(limit: int, ml: nat, expecting: bool, w: Wire, rest: Str)
    requires ValidWire(w) && ml + |w.data| < TWO_63 - 14
    ensures
      NextFrame(limit, ml, expecting, Layout(w) + rest) ==
      match Wrong(limit, ml, expecting, w)
      case Some(e) => Bad(e)
      case None => Frame(|Layout(w)|, w.opcode as int, w.fin, w.data)
  {
    FirstRead(w);
    HeaderJudged(expecting, w);
    WireRead(w, rest);
    hide Layout, Lengths, First, FrameLength, Payload, HasMask, Opcode, Fin, Res1, Res23, ValidFrame, WrongHeader,
      NextFrame, HeaderLength;
    NextJudged(limit, ml, expecting, Layout(w) + rest, |w.data|, 1 + |Lengths(w)|);
  }

  /** A part of a frame with which nothing is wrong is no frame yet. */
  lemma PartOfFrame(limit: int, ml: nat, expecting: bool, w: Wire, n: nat)
    requires ValidWire(w) && ml + |w.data| < TWO_63 - 14 && n < |Layout(w)|
    requires Wrong(limit, ml, expecting, w) == None
    ensures NextFrame(limit, ml, expecting, Layout(w)[..n]) == More
  {
    AnyFrame(limit, ml, expecting, w, []);
    hide NextFrame, Layout;
    var x := Layout(w);
    assert x + [] == x && x[..n] + x[n..] == x;
    if !NextFrame(limit, ml, expecting, x[..n]).More? {
      NextFrameMonotone(limit, ml, expecting, x[..n], x[n..]);
    }
  }

  /** What the reader does with a frame: an error ends the connection, after a close frame with code 1009
      when something is too long; a ping, pong or close is passed on at once; an opcode from 11 on is an
      invalid fragment; data joins the message, which FIN delivers, and is passed on if it is not empty and
      data frames are asked for. */
  lemma AnyFrameDrained(cfg: Config, st: State, w: Wire, rest: Str)
    requires ValidWire(w) && |st.message| + |w.data| < TWO_63 - 14
    ensures
      Drain(cfg, st.(cache := Layout(w) + rest)) ==
      match Wrong(cfg.limit, |st.message|, st.expecting, w)
      case Some(e) =>
        Failed(e, st.trace + if e == MessageTooLarge || e == ControlTooBig then [CloseSent(1009)] else [])
      case None =>
        if w.opcode as int > 10 then Failed(InvalidFragment, st.trace)
        else if w.opcode as int >= 8 then
          Drain(cfg, st.(cache := rest, trace := st.trace + [Control(w.opcode as int, w.data)]))
        else
          var kind := if st.msgType == 0 then w.opcode as int else st.msgType;
          var message := st.message + w.data;
          var whole := if w.fin && message != [] then [Message(kind, message)] else [];
          var frame := if cfg.frames && w.data != [] then [DataFrame(kind, w.fin, w.data)] else [];
          Drain(cfg, if w.fin then State(rest, [], 0, false, st.trace + whole + frame)
                     else State(rest, message, kind, true, st.trace + frame))
  {
    AnyFrame(cfg.limit, |st.message|, st.expecting, w, rest);
    hide NextFrame, Layout;
    assert (Layout(w) + rest)[|Layout(w)|..] == rest;
    assert st.trace + [] == st.trace;
  }

  // ---- the frames that a writer lays out ----

  function Minimal(n: nat): Form { if n < 126 then Seven else if n <= 65535 then Sixteen else SixtyFour }

  /** What writeFrame lays out is the frame with no reserved bit set and its length in the shortest form. */
  lemma EncodeIsLayout(opcode: byte, sendOpcode: bool, fin: bool, data: Str, key: Option<Str>)
    requires opcode < 16 && |data| < TWO_63 && (key.Some? ==> IsKey(key.value))
    ensures
      var w := Wire(fin, false, false, false, if sendOpcode then opcode else 0, Minimal(|data|), data, key);
      ValidWire(w) && Encode(opcode, sendOpcode, fin, data, key) == Layout(w)
  {
    var w := Wire(fin, false, false, false, if sendOpcode then opcode else 0, Minimal(|data|), data, key);
    FirstLaid(w);
    LengthsLaid(w);
    hide Tail, Lengths, LengthBytes, First, FirstByte;
  }

  lemma FirstLaid(w: Wire)
    requires w.opcode < 16 && !w.rsv1 && !w.rsv2 && !w.rsv3
    ensures First(w) == FirstByte(w.opcode, true, w.fin)
    ensures w.opcode == 0 ==> forall opcode :: First(w) == FirstByte(opcode, false, w.fin)
  {
    LowBits(Bit(w.fin, 128), w.opcode);
    assert w.opcode | Bit(w.fin, 128) == Bit(w.fin, 128) | w.opcode;
  }

  lemma LengthsLaid(w: Wire)
    requires ValidWire(w) && w.form == Minimal(|w.data|)
    ensures Lengths(w) == LengthBytes(|w.data|, w.key.Some?)
  {
    hide ToByte, PutBE;
    var bit := Bit(w.key.Some?, 128);
    match w.form
    case Seven => LowBits(bit, ToByte(|w.data|));
    case Sixteen => LowBits(bit, 126);
    case SixtyFour => LowBits(bit, 127);
  }

  lemma LowBits(bit: byte, n: byte)
    requires (bit == 0x80 || bit == 0) && n < 128
    ensures bit | n == bit + n
  {
  }

  /** A close, ping or pong of more than 125 bytes, from either side and with any key, is refused. */
  lemma LongControlRefused(cfg: Config, st: State, opcode: byte, fin: bool, data: Str, key: Option<Str>, rest: Str)
    requires 8 <= opcode as int <= 10 && (key.Some? ==> IsKey(key.value)) && 125 < |data|
    requires |st.message| + |data| < TWO_63 - 14 && (cfg.limit > 0 ==> |st.message| + |data| <= cfg.limit)
    ensures
      var x := Encode(opcode, true, fin, data, key) + rest;
      && NextFrame(cfg.limit, |st.message|, st.expecting, x) == Bad(ControlTooBig)
      && Drain(cfg, st.(cache := x)) == Failed(ControlTooBig, st.trace + [CloseSent(1009)])
  {
    var w := Wire(fin, false, false, false, opcode, Minimal(|data|), data, key);
    assert opcode < 16;
    EncodeIsLayout(opcode, true, fin, data, key);
    hide Encode, Layout, NextFrame, Drain, ValidWire;
    AnyFrame(cfg.limit, |st.message|, st.expecting, w, rest);
    AnyFrameDrained(cfg, st, w, rest);
  }

  // ---- lengths that do not fit ----

  lemma {:induction false} BEHead(s: Str)
    requires s != []
    ensures BE(s) == s[0] as int * Power256(|s| - 1) + BE(s[1..]) && BE(s[1..]) < Power256(|s| - 1)
  {
    if |s| > 1 {
      var t, last := s[..|s| - 1], s[|s| - 1] as int;
      BEHead(t);
      assert t[1..] == s[1..][..|s| - 2] && s[1..][|s| - 2] == s[|s| - 1];
      assert BE(s) == BE(t) * 256 + last && BE(s[1..]) == BE(t[1..]) * 256 + last;
      hide BE;
      assert Power256(|s| - 1) == 256 * Power256(|s| - 2);
      Shifted(s[0] as int, Power256(|s| - 2), BE(t[1..]), last);
    }
  }

  lemma PowerSeven()
    ensures Power256(7) == 72_057_594_037_927_936
  {
    assert Power256(2) == 65536 && Power256(4) == 4_294_967_296 && Power256(6) == 281_474_976_710_656;
  }

  lemma TopBit(s: Str)
    requires |s| == 8
    ensures BE(s) >= TWO_63 <==> s[0] >= 128
  {
    BEHead(s);
    PowerSeven();
    assert s[0] >= 128 <==> s[0] as int >= 128;
    hide BE, Power256;
  }

  lemma Shifted(first: nat, power: nat, rest: nat, last: nat)
    requires rest < power && last < 256
    ensures (first * power + rest) * 256 + last == first * (256 * power) + (rest * 256 + last)
    ensures rest * 256 + last < 256 * power
  {
  }

  /** A length in sixty-four bits of which the first is set is refused, whatever else the frame says. */
  lemma NegativeLength(limit: int, ml: nat, expecting: bool, x: Str)
    requires |x| >= 10 && ShortLength(x[1]) == 127
    ensures FrameLength(x) == Negative <==> x[2] >= 128
    ensures x[2] >= 128 ==> NextFrame(limit, ml, expecting, x) == Bad(InvalidFragment)
  {
    TopBit(x[2..10]);
    hide BE, ShortLength;
  }
}
