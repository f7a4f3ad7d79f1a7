/** The reading side of a WebSocket connection: frames taken off the cache one after the
    other, messages put together from fragments, control frames passed on in place. */
module WsReader {
  import opened Bytes
  import opened WsFrame

  datatype Event =
    | Message(kind: nat, payload: Str)
    | DataFrame(kind: nat, fin: bool, payload: Str)
    | Control(opcode: nat, payload: Str)
    | CloseSent(code: nat)

  /** MessageLengthLimit, ReadLimit, and whether a data-frame handler is set; the message
      handler is set and compression is off. */
  datatype Config = Config(limit: int, readLimit: int, frames: bool)

  /** The connection between two frames. No message, or no cache, is an empty one: the
      code never keeps an empty buffer for either. */
  datatype State = State(cache: Str, message: Str, msgType: nat, expecting: bool, trace: seq<Event>)

  datatype Conn = Open(st: State) | Failed(error: Error, trace: seq<Event>)

  const FRESH: State := State([], [], 0, false, [])

  /** Over-long messages and control frames are answered with a close frame. */
  function Fail(trace: seq<Event>, e: Error): (c: Conn)
  {
    Failed(e, if e == MessageTooLarge || e == ControlTooBig then trace + [CloseSent(1009)] else trace)
  }

  /** What the data-frame handler gets of a data frame. */
  function FrameEvent(cfg: Config, kind: nat, fin: bool, body: Str): (r: seq<Event>)
  {
    if cfg.frames && body != [] then [DataFrame(kind, fin, body)] else []
  }

  /** The frame's effect on everything but the cache. */
  function Deliver(cfg: Config, st: State, opcode: nat, fin: bool, body: Str): (c: Conn)
  {
    if IsData(opcode) then
      var kind := if st.msgType == 0 then opcode else st.msgType;
      var message := st.message + body;
      var frame := FrameEvent(cfg, kind, fin, body);
      if fin then
        Open(st.(message := [], msgType := 0, expecting := false,
                 trace := st.trace + (if message == [] then [] else [Message(kind, message)]) + frame))
      else
        Open(st.(message := message, msgType := kind, expecting := true, trace := st.trace + frame))
    else if IsControl(opcode) then Open(st.(trace := st.trace + [Control(opcode, body)]))
    else Failed(InvalidFragment, st.trace)
  }

  /** The loop of Parse: deliver frames until the cache holds none. */
  function Drain(cfg: Config, st: State): (c: Conn)
    decreases |st.cache|
  {
    match NextFrame(cfg.limit, |st.message|, st.expecting, st.cache)
    case More => Open(st)
    case Bad(e) => Fail(st.trace, e)
    case Frame(total, opcode, fin, body) =>
      match Deliver(cfg, st.(cache := st.cache[total..]), opcode, fin, body)
      case Failed(e, trace) => Failed(e, trace)
      case Open(next) => Drain(cfg, next)
  }

  lemma NothingCached(cfg: Config, st: State)
    requires st.cache == []
    ensures Drain(cfg, st) == Open(st)
  {
  }

  /** The partial message is within the limit, and all bytes held fit in memory. */
  predicate Bounded(cfg: Config, st: State)
  {
    && (cfg.limit > 0 ==> |st.message| <= cfg.limit)
    && |st.message| + |st.cache| < TWO_63
  }

  lemma PayloadSize(limit: int, ml: nat, expecting: bool, x: Str)
    requires ml + |x| < TWO_63 && NextFrame(limit, ml, expecting, x).Frame?
    ensures var f := NextFrame(limit, ml, expecting, x);
            |f.body| < f.total && (limit > 0 ==> ml + |f.body| <= limit)
  {
    hide FrameLength, ValidFrame, Opcode, Fin, HasMask;
  }

  lemma DeliverBounded(cfg: Config, st: State)
    requires Bounded(cfg, st)
    requires NextFrame(cfg.limit, |st.message|, st.expecting, st.cache).Frame?
    ensures var f := NextFrame(cfg.limit, |st.message|, st.expecting, st.cache);
            var c := Deliver(cfg, st.(cache := st.cache[f.total..]), f.opcode, f.fin, f.body);
            c.Open? ==> Bounded(cfg, c.st) && c.st.cache == st.cache[f.total..]
  {
    hide NextFrame;
    PayloadSize(cfg.limit, |st.message|, st.expecting, st.cache);
  }

  function AddBytes(st: State, y: Str): (r: State)
  {
    st.(cache := st.cache + y)
  }

  function Then(cfg: Config, c: Conn, y: Str): (r: Conn)
  {
    if c.Open? then Drain(cfg, AddBytes(c.st, y)) else c
  }

  lemma WithinBound(cfg: Config, st: State)
    requires Bounded(cfg, st)
    ensures cfg.limit > 0 ==> |st.message| <= cfg.limit
  {
  }

  /** A frame has the same effect whatever is in the cache behind it. */
  lemma DeliverFrame(cfg: Config, st: State, y: Str, opcode: nat, fin: bool, body: Str)
    ensures Deliver(cfg, AddBytes(st, y), opcode, fin, body) ==
            match Deliver(cfg, st, opcode, fin, body)
            case Open(next) => Open(AddBytes(next, y))
            case Failed(e, t) => Failed(e, t)
  {
  }

  /** Draining early, and again when more bytes have come, is draining once. */
  lemma {:induction false} DrainAppend(cfg: Config, st: State, y: Str)
    requires Bounded(cfg, st)
    ensures Drain(cfg, AddBytes(st, y)) == Then(cfg, Drain(cfg, st), y)
    decreases |st.cache|
  {
    hide NextFrame, Deliver, Bounded;
    var f := NextFrame(cfg.limit, |st.message|, st.expecting, st.cache);
    if !f.More? {
      WithinBound(cfg, st);
      NextFrameMonotone(cfg.limit, |st.message|, st.expecting, st.cache, y);
      if f.Frame? {
        DeliverBounded(cfg, st);
        var cut := st.(cache := st.cache[f.total..]);
        DeliverFrame(cfg, cut, y, f.opcode, f.fin, f.body);
        var next := Deliver(cfg, st.(cache := st.cache[f.total..]), f.opcode, f.fin, f.body);
        assert (st.cache + y)[f.total..] == st.cache[f.total..] + y;
        if next.Open? { DrainAppend(cfg, next.st, y); }
      }
    }
  }

  lemma {:induction false} DrainBounded(cfg: Config, st: State)
    requires Bounded(cfg, st)
    ensures Drain(cfg, st).Open? ==>
              && Bounded(cfg, Drain(cfg, st).st)
              && |Drain(cfg, st).st.cache| + |Drain(cfg, st).st.message| <= |st.cache| + |st.message|
    decreases |st.cache|
  {
    var f := NextFrame(cfg.limit, |st.message|, st.expecting, st.cache);
    if f.Frame? {
      DeliverBounded(cfg, st);
      PayloadSize(cfg.limit, |st.message|, st.expecting, st.cache);
      hide NextFrame;
      var next := Deliver(cfg, st.(cache := st.cache[f.total..]), f.opcode, f.fin, f.body);
      if next.Open? { DrainBounded(cfg, next.st); }
    }
  }

  // ---- any cut of the stream ----

  /** The cache holds no complete frame: how Parse leaves an open connection. */
  predicate Drained(cfg: Config, c: Conn)
  {
    c.Open? ==> NextFrame(cfg.limit, |c.st.message|, c.st.expecting, c.st.cache).More?
  }

  lemma {:induction false} DrainDrains(cfg: Config, st: State)
    ensures Drained(cfg, Drain(cfg, st))
    decreases |st.cache|
  {
    hide Deliver;
    var f := NextFrame(cfg.limit, |st.message|, st.expecting, st.cache);
    if f.Frame? {
      var next := Deliver(cfg, st.(cache := st.cache[f.total..]), f.opcode, f.fin, f.body);
      DeliverKeepsCache(cfg, st.(cache := st.cache[f.total..]), f.opcode, f.fin, f.body);
      if next.Open? { DrainDrains(cfg, next.st); }
    }
  }

  lemma DeliverKeepsCache(cfg: Config, st: State, opcode: nat, fin: bool, body: Str)
    ensures var c := Deliver(cfg, st, opcode, fin, body); c.Open? ==> c.st.cache == st.cache
  {
  }

  predicate Fits(cfg: Config, c: Conn, piece: Str)
  {
    c.Failed? || piece == [] || c.st.cache == [] || cfg.readLimit <= 0 || |c.st.cache| + |piece| <= cfg.readLimit
  }

  /** One call of Parse, and a run of calls that stops at the first error. */
  function Call(cfg: Config, c: Conn, piece: Str): (r: Conn)
  {
    if c.Failed? || piece == [] then c
    else if Fits(cfg, c, piece) then Drain(cfg, AddBytes(c.st, piece))
    else Failed(TooLong, c.st.trace)
  }

  function Calls(cfg: Config, c: Conn, pieces: seq<Str>): (r: Conn)
    decreases |pieces|
  {
    if pieces == [] then c else Calls(cfg, Call(cfg, c, pieces[0]), pieces[1..])
  }

  lemma {:induction false} CallsAppend(cfg: Config, c: Conn, a: seq<Str>, b: seq<Str>)
    ensures Calls(cfg, c, a + b) == Calls(cfg, Calls(cfg, c, a), b)
    decreases |a|
  {
    if a == [] {
      assert a + b == b;
    } else {
      assert (a + b)[0] == a[0] && (a + b)[1..] == a[1..] + b;
      CallsAppend(cfg, Call(cfg, c, a[0]), a[1..], b);
    }
  }

  lemma {:induction false} FailedStays(cfg: Config, c: Conn, pieces: seq<Str>)
    requires c.Failed?
    ensures Calls(cfg, c, pieces) == c
  {
    if pieces != [] { FailedStays(cfg, c, pieces[1..]); }
  }

  predicate CutFits(cfg: Config, c: Conn, pieces: seq<Str>)
    decreases |pieces|
  {
    pieces != [] ==> Fits(cfg, c, pieces[0]) && CutFits(cfg, Call(cfg, c, pieces[0]), pieces[1..])
  }

  predicate Room(cfg: Config, c: Conn, n: nat)
  {
    c.Open? ==> Bounded(cfg, c.st) && |c.st.message| + |c.st.cache| + n < TWO_63
  }

  /** Every cut of a stream dispatches the same messages, data frames and control messages, gives
      the same first error and leaves the same cache and partial message: those of the whole
      stream in one read. */
  lemma {:induction false} SegmentationInvisible(cfg: Config, c: Conn, pieces: seq<Str>)
    requires Drained(cfg, c) && CutFits(cfg, c, pieces) && Room(cfg, c, |Concat(pieces)|)
    ensures Calls(cfg, c, pieces) == Then(cfg, c, Concat(pieces))
    decreases |pieces|
  {
    hide NextFrame, Deliver;
    if pieces == [] {
      if c.Open? {
        assert AddBytes(c.st, []) == c.st;
        assert Drain(cfg, c.st) == c;
      }
    } else {
      var next, rest := Call(cfg, c, pieces[0]), pieces[1..];
      if c.Open? {
        var st := AddBytes(c.st, pieces[0]);
        if pieces[0] == [] { assert st == c.st; }
        DrainDrains(cfg, st);
        DrainBounded(cfg, st);
        DrainAppend(cfg, st, Concat(rest));
        assert AddBytes(st, Concat(rest)) == AddBytes(c.st, Concat(pieces));
      }
      SegmentationInvisible(cfg, next, rest);
    }
  }

  /** A cut with a read that does not pass the check ends with the too-long error, after the reads before
      it have had the effect of their bytes in one read. */
  lemma TooLongCut(cfg: Config, c: Conn, pieces: seq<Str>) returns (k: nat)
    requires Drained(cfg, c) && !CutFits(cfg, c, pieces) && Room(cfg, c, |Concat(pieces)|)
    ensures k < |pieces|
    ensures var before := Then(cfg, c, Concat(pieces[..k]));
            before.Open? && Calls(cfg, c, pieces) == Failed(TooLong, before.st.trace)
  {
    hide NextFrame, Drain, Drained, CutFits;
    k := FirstMisfit(cfg, c, pieces);
    assert pieces == pieces[..k] + pieces[k..];
    ConcatAppend(pieces[..k], pieces[k..]);
    SegmentationInvisible(cfg, c, pieces[..k]);
    CallsAppend(cfg, c, pieces[..k], pieces[k..]);
    assert pieces[k..][0] == pieces[k];
    FailedStays(cfg, Call(cfg, Calls(cfg, c, pieces[..k]), pieces[k]), pieces[k..][1..]);
  }

  lemma {:induction false} FirstMisfit(cfg: Config, c: Conn, pieces: seq<Str>) returns (k: nat)
    requires !CutFits(cfg, c, pieces)
    ensures k < |pieces| && CutFits(cfg, c, pieces[..k]) && !Fits(cfg, Calls(cfg, c, pieces[..k]), pieces[k])
    decreases |pieces|
  {
    hide Drain;
    if !Fits(cfg, c, pieces[0]) {
      k := 0;
    } else {
      var next := Call(cfg, c, pieces[0]);
      var j := FirstMisfit(cfg, next, pieces[1..]);
      k := j + 1;
      assert pieces[..k][0] == pieces[0] && pieces[..k][1..] == pieces[1..][..j];
    }
  }

  /** A stream within the read limit is within it however it is cut. */
  lemma {:induction false} WithinLimit(cfg: Config, c: Conn, pieces: seq<Str>)
    requires Room(cfg, c, |Concat(pieces)|)
    requires c.Open? ==> cfg.readLimit <= 0 || |c.st.cache| + |Concat(pieces)| <= cfg.readLimit
    ensures CutFits(cfg, c, pieces)
    decreases |pieces|
  {
    hide NextFrame, Deliver, Drain;
    if pieces != [] {
      if c.Open? {
        DrainBounded(cfg, AddBytes(c.st, pieces[0]));
        DrainShrinks(cfg, AddBytes(c.st, pieces[0]));
      }
      WithinLimit(cfg, Call(cfg, c, pieces[0]), pieces[1..]);
    }
  }

  lemma {:induction false} DrainShrinks(cfg: Config, st: State)
    ensures Drain(cfg, st).Open? ==> |Drain(cfg, st).st.cache| <= |st.cache|
    decreases |st.cache|
  {
    hide Deliver;
    var f := NextFrame(cfg.limit, |st.message|, st.expecting, st.cache);
    if f.Frame? {
      var next := Deliver(cfg, st.(cache := st.cache[f.total..]), f.opcode, f.fin, f.body);
      DeliverKeepsCache(cfg, st.(cache := st.cache[f.total..]), f.opcode, f.fin, f.body);
      if next.Open? { DrainShrinks(cfg, next.st); }
    }
  }
}
