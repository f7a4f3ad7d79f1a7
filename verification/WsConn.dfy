/** The connection object: the cache is unmasked in place, frame by frame. */
module WsConn {
  import opened Bytes
  import opened WsMask
  import opened WsFrame
  import opened WsReader

  class Reader {
    const cfg: Config
    var closed: bool
    var bytesCached: Str
    var message: Str
    var msgType: nat
    var expecting: bool
    var trace: seq<Event>

    ghost function Abs(): (st: State)
      reads this
    {
      State(bytesCached, message, msgType, expecting, trace)
    }

    /** The object after a call that should have led to c. */
    ghost predicate Reached(c: Conn, err: Option<Error>)
      reads this
    {
      match c
      case Open(st) => err == None && Abs() == st
      case Failed(e, t) => err == Some(e) && trace == t
    }

    constructor (cfg: Config)
      ensures this.cfg == cfg && !closed && Abs() == FRESH
    {
      this.cfg := cfg;
      closed, bytesCached, message, msgType, expecting, trace := false, [], [], 0, false, [];
    }

    /** Takes the next frame's payload out of the cache, unmasking it where it lies. The bytes
        after the frame are untouched, so nothing is ever unmasked twice. */
    method TakeFrame() returns (f: Next)
      modifies this`bytesCached
      ensures f == NextFrame(cfg.limit, |message|, expecting, old(bytesCached))
      ensures |bytesCached| == |old(bytesCached)|
      ensures f.More? ==> bytesCached == old(bytesCached)
      ensures f.Frame? ==> bytesCached[f.total..] == old(bytesCached)[f.total..]
    {
      hide ShortLength, BE, Opcode, Fin, HasMask, Masked;
      var l := |bytesCached|;
      if l < 2 { return More; }
      var b0, b1 := bytesCached[0], bytesCached[1];
      var len := FrameLength(bytesCached);
      if len.Negative? { return Bad(InvalidFragment); }
      var size := if len.Unknown? then |message| - 1 else Wrap64(|message| + len.body);
      if IsMessageTooLarge(cfg.limit, size) { return Bad(MessageTooLarge); }
      if len.Unknown? { return More; }
      if len.body > MAX_CONTROL && IsControl(Opcode(b0)) { return Bad(ControlTooBig); }
      var headLen := len.head;
      if HasMask(b1) { headLen := headLen + 4; }
      var total := headLen + len.body;
      if Wrap64(total) < 0 { return Bad(ParsePanic); }
      if l < total { return More; }
      var body := Unmask(headLen, total, HasMask(b1));
      match ValidFrame(b0, expecting) {
        case Some(e) => return Bad(e);
        case None => return Frame(total, Opcode(b0), Fin(b0), body);
      }
    }

    method Unmask(headLen: nat, total: nat, masked: bool) returns (body: Str)
      requires headLen <= total <= |bytesCached| && (masked ==> 4 <= headLen)
      modifies this`bytesCached
      ensures |bytesCached| == |old(bytesCached)| && bytesCached[total..] == old(bytesCached)[total..]
      ensures body == if masked then Masked(old(bytesCached)[headLen..total], old(bytesCached)[headLen - 4..headLen])
                      else old(bytesCached)[headLen..total]
    {
      hide Masked;
      if masked {
        var cache := bytesCached;
        var buf := new byte[|cache|](i requires 0 <= i < |cache| => cache[i]);
        assert buf[..] == cache;
        assert buf[headLen..total] == cache[headLen..total] && buf[total..] == cache[total..];
        MaskXOR(buf, headLen, total, cache[headLen - 4..headLen]);
        bytesCached := buf[..];
        assert bytesCached[total..] == buf[total..] && bytesCached[headLen..total] == buf[headLen..total];
      }
      body := bytesCached[headLen..total];
    }

    /** Dispatches a frame: message, then data frame, then control message. */
    method Dispatch(opcode: nat, fin: bool, body: Str) returns (err: Option<Error>)
      modifies this`message, this`msgType, this`expecting, this`trace
      ensures Reached(Deliver(cfg, old(Abs()), opcode, fin, body), err)
    {
      err := None;
      if IsData(opcode) {
        if msgType == 0 { msgType := opcode; }
        var kind := msgType;
        message := message + body;
        if fin {
          if message != [] { trace := trace + [Message(kind, message)]; }
          message, msgType, expecting := [], 0, false;
        } else {
          expecting := true;
        }
        if cfg.frames && body != [] { trace := trace + [DataFrame(kind, fin, body)]; }
      } else if IsControl(opcode) {
        trace := trace + [Control(opcode, body)];
      } else {
        err := Some(InvalidFragment);
      }
    }

    /** One read. */
    method Parse(data: Str) returns (err: Option<Error>)
      modifies this
      ensures closed == old(closed)
      ensures data == [] ==> err == None && unchanged(this)
      ensures data != [] && old(closed) ==> err == Some(NetClosed) && unchanged(this)
      ensures !old(closed) ==> Reached(Call(cfg, Open(old(Abs())), data), err)
    {
      hide NextFrame, Deliver;
      if |data| == 0 { return None; }
      if closed { return Some(NetClosed); }
      if cfg.readLimit > 0 && bytesCached != [] && |bytesCached| + |data| > cfg.readLimit {
        return Some(TooLong);
      }
      bytesCached := bytesCached + data;
      ghost var goal := Drain(cfg, Abs());
      assert goal == Call(cfg, Open(old(Abs())), data);
      while true
        invariant !closed && !old(closed) && goal == Drain(cfg, Abs())
        decreases |bytesCached|
      {
        ghost var st := Abs();
        var f := TakeFrame();
        match f {
          case More =>
            return None;
          case Bad(e) =>
            if e == MessageTooLarge || e == ControlTooBig { trace := trace + [CloseSent(1009)]; }
            return Some(e);
          case Frame(total, opcode, fin, body) =>
            bytesCached := bytesCached[total..];
            assert Abs() == st.(cache := st.cache[total..]);
            err := Dispatch(opcode, fin, body);
            if err.Some? { return; }
        }
      }
    }
  }

  /** The read loop on one connection. */
  method ReadLoop(r: Reader, pieces: seq<Str>) returns (err: Option<Error>)
    requires !r.closed
    modifies r
    ensures r.Reached(Calls(r.cfg, Open(old(r.Abs())), pieces), err)
  {
    hide Drain;
    err := None;
    var k := 0;
    assert pieces[0..] == pieces;
    while k < |pieces|
      invariant 0 <= k <= |pieces| && !r.closed && err == None
      invariant Calls(r.cfg, Open(old(r.Abs())), pieces) == Calls(r.cfg, Open(r.Abs()), pieces[k..])
    {
      assert pieces[k..][0] == pieces[k] && pieces[k..][1..] == pieces[k + 1..];
      ghost var next := Call(r.cfg, Open(r.Abs()), pieces[k]);
      err := r.Parse(pieces[k]);
      if err.Some? {
        FailedStays(r.cfg, next, pieces[k + 1..]);
        return;
      }
      k := k + 1;
    }
  }
}
