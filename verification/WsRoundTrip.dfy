/** What one end writes with WriteMessage, the other end delivers. */
module WsRoundTrip {
  import opened Bytes
  import opened WsMask
  import opened WsFrame
  import opened WsReader
  import opened WsWriter
  import opened WsAnyFrame

  lemma FrameDelivered(cfg: Config, st: State, opcode: byte, sendOpcode: bool, fin: bool, data: Str,
                       key: Option<Str>, rest: Str)
    requires opcode <= 0x0F && (key.Some? ==> IsKey(key.value)) && |data| < TWO_63
    requires Acceptable(cfg.limit, |st.message|, st.expecting, if sendOpcode then opcode as int else 0, fin, |data|)
    ensures var next := Deliver(cfg, st.(cache := rest), if sendOpcode then opcode as int else 0, fin, data);
            next.Open? && Drain(cfg, st.(cache := Encode(opcode, sendOpcode, fin, data, key) + rest)) ==
                          Drain(cfg, next.st)
  {
    hide NextFrame, Encode;
    var x := Encode(opcode, sendOpcode, fin, data, key);
    ReadWritten(cfg.limit, |st.message|, st.expecting, opcode, sendOpcode, fin, data, key, rest);
    assert (x + rest)[|x|..] == rest;
  }

  /** What the peer dispatches for the frames of `data`, the last part of the message `whole`. */
  function PeerEvents(cfg: Config, opcode: nat, data: Str, max: nat, whole: Str): (r: seq<Event>)
    requires max >= 1
    decreases |data|
  {
    if |data| <= max then
      (if whole == [] then [] else [Message(opcode, whole)]) + FrameEvent(cfg, opcode, true, data)
    else FrameEvent(cfg, opcode, false, data[..max]) + PeerEvents(cfg, opcode, data[max..], max, whole)
  }

  /** The reader is where the writer's next frame expects it: fresh, or inside this message. */
  predicate Ready(st: State, opcode: byte, first: bool)
  {
    if first then st.message == [] && st.msgType == 0 && !st.expecting
    else st.msgType == opcode as int && st.expecting
  }

  function Finished(st: State, rest: Str, events: seq<Event>): (r: State)
  {
    State(rest, [], 0, false, st.trace + events)
  }

  lemma LastFrame(cfg: Config, opcode: byte, first: bool, data: Str, key: Option<Str>, st: State, rest: Str)
    requires (key.Some? ==> IsKey(key.value)) && (opcode as int == TEXT || opcode as int == BINARY)
    requires Ready(st, opcode, first)
    requires (cfg.limit > 0 ==> |st.message| + |data| <= cfg.limit) && |st.message| + |data| < TWO_63 - 14
    ensures var whole := st.message + data;
            var m := if whole == [] then [] else [Message(opcode as int, whole)];
            Drain(cfg, st.(cache := Encode(opcode, first, true, data, key) + rest)) ==
            Drain(cfg, Finished(st, rest, m + FrameEvent(cfg, opcode as int, true, data)))
  {
    hide Encode, Drain;
    assert opcode <= 0x0F by { assert opcode as int <= 2; }
    FrameDelivered(cfg, st, opcode, first, true, data, key, rest);
    var whole := st.message + data;
    var m := if whole == [] then [] else [Message(opcode as int, whole)];
    assert st.trace + m + FrameEvent(cfg, opcode as int, true, data) ==
           st.trace + (m + FrameEvent(cfg, opcode as int, true, data));
  }

  /** The reader inside a message, with `after` still to come. */
  function Inside(st: State, opcode: nat, part: Str, after: Str, events: seq<Event>): (r: State)
  {
    State(after, st.message + part, opcode, true, st.trace + events)
  }

  lemma MiddleFrame(cfg: Config, opcode: byte, first: bool, part: Str, key: Option<Str>, st: State, after: Str)
    requires (key.Some? ==> IsKey(key.value)) && (opcode as int == TEXT || opcode as int == BINARY)
    requires Ready(st, opcode, first)
    requires (cfg.limit > 0 ==> |st.message| + |part| <= cfg.limit) && |st.message| + |part| < TWO_63 - 14
    ensures Drain(cfg, st.(cache := Encode(opcode, first, false, part, key) + after)) ==
            Drain(cfg, Inside(st, opcode as int, part, after, FrameEvent(cfg, opcode as int, false, part)))
  {
    hide Encode, Drain;
    assert opcode <= 0x0F by { assert opcode as int <= 2; }
    FrameDelivered(cfg, st, opcode, first, false, part, key, after);
  }

  lemma {:induction false} MessageDelivered(cfg: Config, role: Role, i: nat, opcode: byte, first: bool, data: Str,
                                            max: nat, st: State, rest: Str)
    requires ValidRole(role) && max >= 1 && (opcode as int == TEXT || opcode as int == BINARY)
    requires Ready(st, opcode, first)
    requires (cfg.limit > 0 ==> |st.message| + |data| <= cfg.limit) && |st.message| + |data| < TWO_63 - 14
    ensures Drain(cfg, st.(cache := Concat(Written(role, i, opcode, first, data, max)) + rest)) ==
            Drain(cfg, Finished(st, rest, PeerEvents(cfg, opcode as int, data, max, st.message + data)))
    decreases |data|
  {
    hide Encode, Drain, FrameEvent;
    var frames := Written(role, i, opcode, first, data, max);
    if |data| <= max {
      assert frames[1..] == [] && Concat(frames) == frames[0] + [] == frames[0];
      LastFrame(cfg, opcode, first, data, Key(role, i), st, rest);
    } else {
      var part, later := data[..max], data[max..];
      var after := Concat(frames[1..]) + rest;
      assert Concat(frames) + rest == frames[0] + after;
      MiddleFrame(cfg, opcode, first, part, Key(role, i), st, after);
      var ev := FrameEvent(cfg, opcode as int, false, part);
      var st1 := Inside(st, opcode as int, part, after, ev);
      assert st1.message + later == st.message + data;
      MessageDelivered(cfg, role, i + 1, opcode, false, later, max, st1, rest);
      var more := PeerEvents(cfg, opcode as int, later, max, st.message + data);
      assert st.trace + ev + more == st.trace + (ev + more);
    }
  }

  lemma {:induction false} QuietEvents(cfg: Config, opcode: nat, data: Str, max: nat, whole: Str)
    requires max >= 1 && !cfg.frames
    ensures PeerEvents(cfg, opcode, data, max, whole) == if whole == [] then [] else [Message(opcode, whole)]
    decreases |data|
  {
    if |data| > max { QuietEvents(cfg, opcode, data[max..], max, whole); }
  }

  predicate Within(cfg: Config, n: nat) { cfg.limit > 0 ==> n <= cfg.limit }

  /** How the reader refuses what passes its limit. */
  function Refused(trace: seq<Event>): (c: Conn) { Failed(MessageTooLarge, trace + [CloseSent(1009)]) }

  lemma FrameRefused(cfg: Config, st: State, opcode: byte, sendOpcode: bool, fin: bool, data: Str,
                     key: Option<Str>, rest: Str)
    requires (key.Some? ==> IsKey(key.value)) && !Within(cfg, |st.message| + |data|)
    requires |st.message| + |data| < TWO_63
    ensures Drain(cfg, st.(cache := Encode(opcode, sendOpcode, fin, data, key) + rest)) == Refused(st.trace)
  {
    ReadRefused(cfg.limit, |st.message|, st.expecting, opcode, sendOpcode, fin, data, key, rest);
    hide NextFrame, Encode;
  }

  /** The frames of a message that passes the limit: the one that does so is refused. */
  lemma {:induction false} MessageRefused(cfg: Config, role: Role, i: nat, opcode: byte, first: bool, data: Str,
                                          max: nat, st: State, rest: Str)
    requires ValidRole(role) && max >= 1 && (opcode as int == TEXT || opcode as int == BINARY)
    requires Ready(st, opcode, first) && !Within(cfg, |st.message| + |data|)
    requires |st.message| + |data| < TWO_63 - 14
    ensures var c := Drain(cfg, st.(cache := Concat(Written(role, i, opcode, first, data, max)) + rest));
            c.Failed? && c.error == MessageTooLarge && (!cfg.frames ==> c == Refused(st.trace))
    decreases |data|
  {
    hide Encode, Drain;
    var frames, key := Written(role, i, opcode, first, data, max), Key(role, i);
    if |data| <= max {
      assert frames[1..] == [] && Concat(frames) == frames[0] + [] == frames[0];
      FrameRefused(cfg, st, opcode, first, true, data, key, rest);
    } else {
      var part, later := data[..max], data[max..];
      var after := Concat(frames[1..]) + rest;
      assert Concat(frames) + rest == frames[0] + after;
      if !Within(cfg, |st.message| + max) {
        FrameRefused(cfg, st, opcode, first, false, part, key, after);
      } else {
        MiddleFrame(cfg, opcode, first, part, key, st, after);
        var ev := FrameEvent(cfg, opcode as int, false, part);
        MessageRefused(cfg, role, i + 1, opcode, false, later, max, Inside(st, opcode as int, part, after, ev), rest);
        if !cfg.frames { assert st.trace + ev == st.trace; }
      }
    }
  }

  /** For every payload, every maximal frame size, every key and both roles, a fresh peer that reads what
      WriteMessage wrote delivers exactly that message, and is fresh again, if and only if the payload is
      within its limit; otherwise it refuses the message and closes with 1009. An empty payload is
      written and read, but never dispatched. */
  lemma RoundTrip(cfg: Config, role: Role, opcode: byte, data: Str, max: nat)
    requires ValidRole(role) && max >= 1 && (opcode as int == TEXT || opcode as int == BINARY)
    requires |data| < TWO_63 - 14
    ensures var c := Drain(cfg, FRESH.(cache := Concat(Written(role, 0, opcode, true, data, max))));
            var events := PeerEvents(cfg, opcode as int, data, max, data);
            && (Within(cfg, |data|) ==> c == Open(FRESH.(trace := events)))
            && (!Within(cfg, |data|) ==> c.Failed? && c.error == MessageTooLarge && (!cfg.frames ==> c == Refused([])))
            && (!cfg.frames ==> events == if data == [] then [] else [Message(opcode as int, data)])
  {
    hide Written, PeerEvents;
    var x := Concat(Written(role, 0, opcode, true, data, max));
    assert x + [] == x && [] + data == data;
    var events := PeerEvents(cfg, opcode as int, data, max, data);
    if Within(cfg, |data|) {
      MessageDelivered(cfg, role, 0, opcode, true, data, max, FRESH, []);
      assert [] + events == events;
      NothingCached(cfg, FRESH.(trace := events));
    } else {
      MessageRefused(cfg, role, 0, opcode, true, data, max, FRESH, []);
    }
    if !cfg.frames { QuietEvents(cfg, opcode as int, data, max, data); }
  }

  /** The same however the network cuts the bytes. */
  lemma RoundTripAnyCut(cfg: Config, role: Role, opcode: byte, data: Str, max: nat, pieces: seq<Str>)
    requires ValidRole(role) && max >= 1 && (opcode as int == TEXT || opcode as int == BINARY)
    requires |data| < TWO_63 - 14
    requires Concat(pieces) == Concat(Written(role, 0, opcode, true, data, max))
    requires |Concat(pieces)| < TWO_63 && CutFits(cfg, Open(FRESH), pieces)
    ensures var c := Calls(cfg, Open(FRESH), pieces);
            && (Within(cfg, |data|) ==> c == Open(FRESH.(trace := PeerEvents(cfg, opcode as int, data, max, data))))
            && (!Within(cfg, |data|) ==> c.Failed? && c.error == MessageTooLarge && (!cfg.frames ==> c == Refused([])))
  {
    hide Written, PeerEvents, Drain;
    RoundTrip(cfg, role, opcode, data, max);
    assert Drained(cfg, Open(FRESH));
    SegmentationInvisible(cfg, Open(FRESH), pieces);
    assert AddBytes(FRESH, Concat(pieces)) == FRESH.(cache := Concat(pieces));
  }

  /** A control message reaches the peer at once, also between the fragments of a message, which it
      leaves alone, if and only if it fits one frame and is within the message limit together with
      those fragments, and has at most 125 bytes. If it does not fit one frame, it is refused as a
      fragmented one; if it passes the limit or the 125 bytes, the peer closes with 1009. */
  lemma ControlRoundTrip(cfg: Config, role: Role, i: nat, opcode: byte, data: Str, max: nat, st: State, rest: Str)
    requires ValidRole(role) && max >= 1 && IsControl(opcode as int)
    requires |st.message| + |data| < TWO_63 - 14
    ensures var n := if |data| <= max then |data| else max;
            Drain(cfg, st.(cache := Concat(Written(role, i, opcode, true, data, max)) + rest)) ==
            if !Within(cfg, |st.message| + n) then Refused(st.trace)
            else if n > 125 then Failed(ControlTooBig, st.trace + [CloseSent(1009)])
            else if |data| > max then Failed(ControlFragmented, st.trace)
            else Drain(cfg, st.(cache := rest, trace := st.trace + [Control(opcode as int, data)]))
  {
    hide Encode, Drain;
    var frames := Written(role, i, opcode, true, data, max);
    var part := if |data| <= max then data else data[..max];
    var after := Concat(frames[1..]) + rest;
    assert Concat(frames) + rest == frames[0] + after;
    if !Within(cfg, |st.message| + |part|) {
      FrameRefused(cfg, st, opcode, true, |data| <= max, part, Key(role, i), after);
    } else if |part| > 125 {
      LongControlRefused(cfg, st, opcode, |data| <= max, part, Key(role, i), after);
    } else if |data| > max {
      ControlCut(cfg, st, opcode, part, Key(role, i), after);
    } else {
      assert frames[1..] == [] && after == rest;
      assert opcode <= 0x0F by { assert opcode as int <= 10; }
      FrameDelivered(cfg, st, opcode, true, true, data, Key(role, i), rest);
    }
  }

  lemma ControlCut(cfg: Config, st: State, opcode: byte, part: Str, key: Option<Str>, rest: Str)
    requires (key.Some? ==> IsKey(key.value)) && IsControl(opcode as int) && |part| <= MAX_CONTROL
    requires Within(cfg, |st.message| + |part|) && |st.message| + |part| < TWO_63 - 14
    ensures Drain(cfg, st.(cache := Encode(opcode, true, false, part, key) + rest)) ==
            Failed(ControlFragmented, st.trace)
  {
    ReadFragmented(cfg.limit, |st.message|, st.expecting, opcode, part, key, rest);
    hide NextFrame, Encode;
  }

  /** A ping of one byte after the first fragment of a message that fills a limit of ten bytes. */
  lemma PingInside(part: Str, b: byte, rest: Str)
    requires |part| == 10
    ensures var cfg := Config(10, 0, false);
            var st := State([], part, TEXT, true, []);
            Drain(cfg, st.(cache := Encode(PING as byte, true, true, [b], None) + rest)) == Refused([])
  {
    FrameRefused(Config(10, 0, false), State([], part, TEXT, true, []), PING as byte, true, true, [b], None, rest);
  }
}
