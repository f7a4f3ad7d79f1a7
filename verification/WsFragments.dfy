/** Fragmentation (section 5.4 of RFC 6455): which frames a delivered message is made of. */
module WsFragments {
  import opened Bytes
  import opened WsFrame
  import opened WsReader

  datatype Fr = Fr(opcode: nat, fin: bool, body: Str)

  /** The frames that draining the cache takes, in order. */
  function Taken(cfg: Config, st: State): (fs: seq<Fr>)
    decreases |st.cache|
  {
    match NextFrame(cfg.limit, |st.message|, st.expecting, st.cache)
    case More => []
    case Bad(_) => []
    case Frame(total, opcode, fin, body) =>
      match Deliver(cfg, st.(cache := st.cache[total..]), opcode, fin, body)
      case Failed(_, _) => []
      case Open(next) => [Fr(opcode, fin, body)] + Taken(cfg, next)
  }

  // ---- the reference: runs of data frames ----

  function DataOf(fs: seq<Fr>): (r: seq<Fr>)
  {
    if fs == [] then []
    else
      var n := |fs| - 1;
      DataOf(fs[..n]) + if IsData(fs[n].opcode) then [fs[n]] else []
  }

  function Bodies(fs: seq<Fr>): (r: Str)
  {
    if fs == [] then [] else Bodies(fs[..|fs| - 1]) + fs[|fs| - 1].body
  }

  /** The data frames after the last one with FIN. */
  function OpenRun(data: seq<Fr>): (r: seq<Fr>)
  {
    if data == [] || data[|data| - 1].fin then []
    else OpenRun(data[..|data| - 1]) + [data[|data| - 1]]
  }

  /** The data frames cut after each FIN; what follows the last FIN is left out. */
  function Runs(data: seq<Fr>): (r: seq<seq<Fr>>)
  {
    if data == [] then []
    else
      var n := |data| - 1;
      Runs(data[..n]) + if data[n].fin then [OpenRun(data[..n]) + [data[n]]] else []
  }

  /** A run is one fragmented message: only the last frame has FIN and only the first has a type. */
  predicate OneMessage(run: seq<Fr>)
  {
    && run != [] && run[|run| - 1].fin
    && (forall i :: 0 <= i < |run| - 1 ==> !run[i].fin)
    && (forall i :: 1 <= i < |run| ==> run[i].opcode == FRAGMENT)
  }

  /** What the runs deliver: each as one message of its first frame's type, unless it is empty. */
  function Assembled(runs: seq<seq<Fr>>): (r: seq<Event>)
  {
    if runs == [] then [] else Assembled(runs[..|runs| - 1]) + OneEvent(true, runs[|runs| - 1])
  }

  /** The type of a run is its first frame's opcode. */
  function Kind(run: seq<Fr>): (n: nat) { if run == [] then 0 else run[0].opcode }

  function OneEvent(fin: bool, run: seq<Fr>): (r: seq<Event>)
  {
    if fin && Bodies(run) != [] then [Message(Kind(run), Bodies(run))] else []
  }

  function Messages(trace: seq<Event>): (r: seq<Event>)
  {
    if trace == [] then []
    else
      var e := trace[|trace| - 1];
      Messages(trace[..|trace| - 1]) + if e.Message? then [e] else []
  }

  function Controls(trace: seq<Event>): (r: seq<Event>)
  {
    if trace == [] then []
    else
      var e := trace[|trace| - 1];
      Controls(trace[..|trace| - 1]) + if e.Control? then [e] else []
  }

  function ControlsOf(fs: seq<Fr>): (r: seq<Event>)
  {
    if fs == [] then []
    else
      var f := fs[|fs| - 1];
      ControlsOf(fs[..|fs| - 1]) + if IsControl(f.opcode) then [Control(f.opcode, f.body)] else []
  }

  // ---- the partial message is the open run ----

  predicate Typed(run: seq<Fr>) { forall i :: 1 <= i < |run| ==> run[i].opcode == FRAGMENT }

  predicate Holds(st: State, data: seq<Fr>)
  {
    var run := OpenRun(data);
    && st.message == Bodies(run) && st.expecting == (run != [])
    && st.msgType == Kind(run)
    && Typed(run)
  }

  lemma {:induction false} OpenRunShape(data: seq<Fr>)
    ensures forall i :: 0 <= i < |OpenRun(data)| ==> !OpenRun(data)[i].fin
  {
    if data != [] && !data[|data| - 1].fin { OpenRunShape(data[..|data| - 1]); }
  }

  lemma MessagesSnoc(t: seq<Event>, e: Event)
    ensures Messages(t + [e]) == Messages(t) + if e.Message? then [e] else []
    ensures Controls(t + [e]) == Controls(t) + if e.Control? then [e] else []
  {
    assert (t + [e])[..|t|] == t;
  }

  lemma BodiesSnoc(run: seq<Fr>, f: Fr)
    ensures Bodies(run + [f]) == Bodies(run) + f.body
  {
    assert (run + [f])[..|run|] == run;
  }

  /** The events of one frame, given the run it continues. */
  function EventsOf(cfg: Config, run: seq<Fr>, f: Fr): (r: seq<Event>)
  {
    if IsControl(f.opcode) then [Control(f.opcode, f.body)]
    else if IsData(f.opcode) then
      OneEvent(f.fin, run + [f]) + FrameEvent(cfg, Kind(run + [f]), f.fin, f.body)
    else []
  }

  /** The events of a list of frames, each where its frame stands. */
  function AllEvents(cfg: Config, fs: seq<Fr>): (r: seq<Event>)
  {
    if fs == [] then []
    else
      var n := |fs| - 1;
      AllEvents(cfg, fs[..n]) + EventsOf(cfg, OpenRun(DataOf(fs[..n])), fs[n])
  }

  lemma AllEventsSnoc(cfg: Config, fs: seq<Fr>, f: Fr)
    ensures AllEvents(cfg, fs + [f]) == AllEvents(cfg, fs) + EventsOf(cfg, OpenRun(DataOf(fs)), f)
  {
    assert (fs + [f])[..|fs|] == fs;
  }

  /** Every run of data frames that ends in FIN is one message. */
  ghost predicate WellRun(fs: seq<Fr>)
  {
    forall i :: 0 <= i < |Runs(DataOf(fs))| ==> OneMessage(Runs(DataOf(fs))[i])
  }

  /** Everything the reference says about a state reached by the frames fs: the events are those of
      the frames, in their order, and the partial message is the run still open. */
  ghost predicate Explained(cfg: Config, st: State, fs: seq<Fr>)
  {
    WellRun(fs) && Holds(st, DataOf(fs)) && st.trace == AllEvents(cfg, fs)
  }

  /** A control frame is delivered in place and leaves the partial message alone. */
  lemma ControlStep(cfg: Config, st: State, fs: seq<Fr>, f: Fr)
    requires Explained(cfg, st, fs) && IsControl(f.opcode)
    ensures var c := Deliver(cfg, st, f.opcode, f.fin, f.body);
            && c.Open? && Explained(cfg, c.st, fs + [f])
            && c.st == st.(trace := st.trace + EventsOf(cfg, OpenRun(DataOf(fs)), f))
  {
    assert (fs + [f])[..|fs|] == fs;
    assert DataOf(fs + [f]) == DataOf(fs);
    AllEventsSnoc(cfg, fs, f);
    hide DataOf, Runs, OpenRun, Bodies, OneMessage, Typed, Kind, AllEvents;
  }

  lemma DataStep(cfg: Config, st: State, fs: seq<Fr>, f: Fr)
    requires Explained(cfg, st, fs) && IsData(f.opcode)
    requires st.expecting ==> f.opcode == FRAGMENT
    ensures var c := Deliver(cfg, st, f.opcode, f.fin, f.body);
            && c.Open? && Explained(cfg, c.st, fs + [f])
            && c.st.trace == st.trace + EventsOf(cfg, OpenRun(DataOf(fs)), f)
  {
    var data, run := DataOf(fs), OpenRun(DataOf(fs));
    assert (fs + [f])[..|fs|] == fs;
    assert DataOf(fs + [f]) == data + [f];
    AllEventsSnoc(cfg, fs, f);
    HoldsStep(cfg, st, data, f);
    RunsStep(data, f);
    TraceOf(cfg, st.trace, run + [f], f);
    hide DataOf, Runs, OpenRun, Bodies, Holds, Deliver, OneMessage, AllEvents;
  }

  /** The state after a data frame is the run with that frame. */
  lemma HoldsStep(cfg: Config, st: State, data: seq<Fr>, f: Fr)
    requires Holds(st, data) && IsData(f.opcode) && (st.expecting ==> f.opcode == FRAGMENT)
    ensures var c := Deliver(cfg, st, f.opcode, f.fin, f.body);
            && c.Open? && Holds(c.st, data + [f])
            && c.st.trace == st.trace + OneEvent(f.fin, OpenRun(data) + [f]) +
                             FrameEvent(cfg, Kind(OpenRun(data) + [f]), f.fin, f.body)
  {
    RunGrows(st, data, f);
    hide Bodies, OpenRun, Kind, Typed;
    if !f.fin { assert st.trace + [] == st.trace; }
  }

  lemma RunGrows(st: State, data: seq<Fr>, f: Fr)
    requires Holds(st, data) && IsData(f.opcode) && (st.expecting ==> f.opcode == FRAGMENT)
    ensures OpenRun(data + [f]) == if f.fin then [] else OpenRun(data) + [f]
    ensures Bodies(OpenRun(data) + [f]) == st.message + f.body && Bodies([]) == []
    ensures Kind(OpenRun(data) + [f]) == if st.msgType == 0 then f.opcode else st.msgType
    ensures Kind([]) == 0 && Typed(OpenRun(data) + [f]) && Typed([])
  {
    OpenRunSnoc(data, f);
    BodiesSnoc(OpenRun(data), f);
    RunSnoc(OpenRun(data), f);
    assert Bodies([]) == [] && Kind([]) == 0 && Typed([]);
    hide OpenRun, Bodies, Typed;
  }

  lemma OpenRunSnoc(data: seq<Fr>, f: Fr)
    ensures OpenRun(data + [f]) == if f.fin then [] else OpenRun(data) + [f]
  {
    assert (data + [f])[..|data|] == data;
  }

  lemma RunSnoc(run: seq<Fr>, f: Fr)
    ensures Kind(run + [f]) == if run == [] then f.opcode else Kind(run)
    ensures Typed(run) && (run != [] ==> f.opcode == FRAGMENT) ==> Typed(run + [f])
  {
    if run != [] { assert (run + [f])[0] == run[0]; }
  }

  /** A frame with FIN closes its run, which is one message. */
  lemma RunsStep(data: seq<Fr>, f: Fr)
    requires forall i :: 0 <= i < |Runs(data)| ==> OneMessage(Runs(data)[i])
    requires Typed(OpenRun(data)) && (OpenRun(data) != [] ==> f.opcode == FRAGMENT)
    ensures forall i :: 0 <= i < |Runs(data + [f])| ==> OneMessage(Runs(data + [f])[i])
  {
    var run, runs := OpenRun(data), Runs(data);
    assert (data + [f])[..|data|] == data;
    OpenRunShape(data);
    if f.fin {
      assert OneMessage(run + [f]);
      assert Runs(data + [f]) == runs + [run + [f]];
    } else {
      assert Runs(data + [f]) == runs + [] == runs;
    }
  }

  lemma AssembledStep(data: seq<Fr>, f: Fr)
    ensures Assembled(Runs(data + [f])) == Assembled(Runs(data)) + OneEvent(f.fin, OpenRun(data) + [f])
  {
    var run, runs := OpenRun(data), Runs(data);
    assert (data + [f])[..|data|] == data;
    hide Bodies;
    if f.fin {
      assert Runs(data + [f]) == runs + [run + [f]];
      assert (runs + [run + [f]])[..|runs|] == runs;
    } else {
      assert Runs(data + [f]) == runs + [] == runs;
    }
  }

  /** The message and control events that a data frame adds. */
  lemma TraceOf(cfg: Config, t: seq<Event>, run: seq<Fr>, f: Fr)
    ensures var t2 := t + OneEvent(f.fin, run) + FrameEvent(cfg, Kind(run), f.fin, f.body);
            && t2 == t + (OneEvent(f.fin, run) + FrameEvent(cfg, Kind(run), f.fin, f.body))
            && Messages(t2) == Messages(t) + OneEvent(f.fin, run)
            && Controls(t2) == Controls(t)
  {
    hide Bodies, Messages, Controls, Kind;
    var t1 := t + OneEvent(f.fin, run);
    MessagesSnoc(t, Message(Kind(run), Bodies(run)));
    MessagesSnoc(t1, DataFrame(Kind(run), f.fin, f.body));
    assert t + [] == t && t1 + [] == t1;
  }

  /** Of the events of any frames, the messages are the runs that end in FIN, put together, and the
      control messages are the control frames. */
  lemma {:induction false} Projections(cfg: Config, fs: seq<Fr>)
    ensures Messages(AllEvents(cfg, fs)) == Assembled(Runs(DataOf(fs)))
    ensures Controls(AllEvents(cfg, fs)) == ControlsOf(fs)
  {
    if fs == [] {
      assert AllEvents(cfg, fs) == [] && DataOf(fs) == [] && Runs([]) == [];
    } else {
      hide *;
      var n := |fs| - 1;
      Projections(cfg, fs[..n]);
      ProjectionStep(cfg, fs[..n], fs[n]);
      assert fs == fs[..n] + [fs[n]];
    }
  }

  lemma FramesSnoc(fs: seq<Fr>, f: Fr)
    ensures DataOf(fs + [f]) == DataOf(fs) + if IsData(f.opcode) then [f] else []
    ensures ControlsOf(fs + [f]) == ControlsOf(fs) + if IsControl(f.opcode) then [Control(f.opcode, f.body)] else []
    ensures IsControl(f.opcode) ==> !IsData(f.opcode)
  {
    assert (fs + [f])[..|fs|] == fs;
  }

  lemma ProjectionStep(cfg: Config, fs: seq<Fr>, f: Fr)
    requires Messages(AllEvents(cfg, fs)) == Assembled(Runs(DataOf(fs)))
    requires Controls(AllEvents(cfg, fs)) == ControlsOf(fs)
    ensures Messages(AllEvents(cfg, fs + [f])) == Assembled(Runs(DataOf(fs + [f])))
    ensures Controls(AllEvents(cfg, fs + [f])) == ControlsOf(fs + [f])
  {
    var data, run, t := DataOf(fs), OpenRun(DataOf(fs)), AllEvents(cfg, fs);
    EventsUnfold(cfg, run, f);
    hide *;
    FramesSnoc(fs, f);
    AllEventsSnoc(cfg, fs, f);
    if IsData(f.opcode) {
      AssembledStep(data, f);
      TraceOf(cfg, t, run + [f], f);
      assert ControlsOf(fs) + [] == ControlsOf(fs);
    } else if IsControl(f.opcode) {
      MessagesSnoc(t, Control(f.opcode, f.body));
      assert Messages(t) + [] == Messages(t) && data + [] == data;
    } else {
      assert t + [] == t && data + [] == data && ControlsOf(fs) + [] == ControlsOf(fs);
    }
  }

  lemma EventsUnfold(cfg: Config, run: seq<Fr>, f: Fr)
    ensures EventsOf(cfg, run, f) ==
            if IsControl(f.opcode) then [Control(f.opcode, f.body)]
            else if IsData(f.opcode) then
              OneEvent(f.fin, run + [f]) + FrameEvent(cfg, Kind(run + [f]), f.fin, f.body)
            else []
  {
  }

  /** The close frame that answers an over-long message or control frame. */
  function Answer(e: Error): (r: seq<Event>)
  {
    if e == MessageTooLarge || e == ControlTooBig then [CloseSent(1009)] else []
  }

  lemma ExplainedParts(cfg: Config, st: State, fs: seq<Fr>)
    requires Explained(cfg, st, fs)
    ensures WellRun(fs) && st.trace == AllEvents(cfg, fs)
  {
  }

  /** Draining any cache, to its end or to an error: the events are those of the frames taken, in
      their order, and every run of data frames that ends in FIN is one message. */
  lemma {:induction false} Reassembly(cfg: Config, st: State, fs: seq<Fr>)
    requires Explained(cfg, st, fs)
    ensures var all := fs + Taken(cfg, st);
            match Drain(cfg, st)
            case Open(end) => Explained(cfg, end, all)
            case Failed(e, trace) => WellRun(all) && trace == AllEvents(cfg, all) + Answer(e)
    decreases |st.cache|
  {
    hide Explained, WellRun, AllEvents, Deliver, NextFrame;
    ExplainedParts(cfg, st, fs);
    var f := NextFrame(cfg.limit, |st.message|, st.expecting, st.cache);
    if f.Frame? {
      var fr, st1 := Fr(f.opcode, f.fin, f.body), st.(cache := st.cache[f.total..]);
      FrameValid(cfg.limit, |st.message|, st.expecting, st.cache);
      StepExplained(cfg, st, st1, fs, fr);
      var next := Deliver(cfg, st1, f.opcode, f.fin, f.body);
      if next.Open? {
        Reassembly(cfg, next.st, fs + [fr]);
        assert fs + Taken(cfg, st) == fs + [fr] + Taken(cfg, next.st);
      } else {
        assert fs + [] == fs && st.trace + [] == st.trace;
      }
    } else {
      assert fs + [] == fs && st.trace + [] == st.trace;
    }
  }

  lemma FrameValid(limit: int, ml: nat, expecting: bool, x: Str)
    requires NextFrame(limit, ml, expecting, x).Frame?
    ensures var f := NextFrame(limit, ml, expecting, x);
            && (expecting && IsData(f.opcode) ==> f.opcode == FRAGMENT)
            && (!IsData(f.opcode) ==> f.fin)
  {
    hide FrameLength, Payload, Opcode, Fin, Wrap64;
  }

  lemma StepExplained(cfg: Config, st: State, st1: State, fs: seq<Fr>, f: Fr)
    requires Explained(cfg, st, fs) && st1 == st.(cache := st1.cache)
    requires st.expecting && IsData(f.opcode) ==> f.opcode == FRAGMENT
    ensures match Deliver(cfg, st1, f.opcode, f.fin, f.body)
            case Open(next) => Explained(cfg, next, fs + [f]) && next.cache == st1.cache
            case Failed(e, trace) => Answer(e) == [] && trace == st.trace
  {
    assert Explained(cfg, st1, fs);
    DeliverKeepsCache(cfg, st1, f.opcode, f.fin, f.body);
    hide Explained;
    if IsData(f.opcode) {
      DataStep(cfg, st1, fs, f);
    } else if IsControl(f.opcode) {
      ControlStep(cfg, st1, fs, f);
    }
  }

  /** Every stream, read by a new connection to its end or to an error: the events are those of the
      frames taken, in place; the messages are the runs that end in FIN, each one message, put
      together; the control messages are the control frames. */
  lemma StreamReassembled(cfg: Config, stream: Str)
    ensures var st := FRESH.(cache := stream);
            var fs := Taken(cfg, st);
            && WellRun(fs)
            && Messages(AllEvents(cfg, fs)) == Assembled(Runs(DataOf(fs)))
            && Controls(AllEvents(cfg, fs)) == ControlsOf(fs)
            && match Drain(cfg, st)
               case Open(end) => end.trace == AllEvents(cfg, fs) && Holds(end, DataOf(fs))
               case Failed(e, trace) => trace == AllEvents(cfg, fs) + Answer(e)
  {
    hide Drain, Taken;
    var st := FRESH.(cache := stream);
    assert Explained(cfg, st, []);
    Reassembly(cfg, st, []);
    assert [] + Taken(cfg, st) == Taken(cfg, st);
    Projections(cfg, Taken(cfg, st));
    hide WellRun, AllEvents, Runs, DataOf, Holds, Assembled, Messages, Controls, ControlsOf;
  }

  // ---- messages without a type ----

  predicate IsTyped(e: Event) { e.Message? && (e.kind == TEXT || e.kind == BINARY) }

  /** The runs are made of data frames, and none is empty. */
  lemma {:induction false} RunsOfData(data: seq<Fr>)
    requires forall i :: 0 <= i < |data| ==> IsData(data[i].opcode)
    ensures forall f :: f in OpenRun(data) ==> IsData(f.opcode)
    ensures forall i :: 0 <= i < |Runs(data)| ==> Runs(data)[i] != [] && IsData(Runs(data)[i][0].opcode)
  {
    if data != [] {
      var n := |data| - 1;
      RunsOfData(data[..n]);
      var run := OpenRun(data[..n]) + [data[n]];
      assert IsData(run[0].opcode);
    }
  }

  lemma {:induction false} DataOnly(fs: seq<Fr>)
    ensures forall i :: 0 <= i < |DataOf(fs)| ==> IsData(DataOf(fs)[i].opcode)
  {
    if fs != [] { DataOnly(fs[..|fs| - 1]); }
  }

  /** The run is delivered, and starts with a continuation frame. */
  predicate Headless(run: seq<Fr>) { run != [] && run[0].opcode == FRAGMENT && Bodies(run) != [] }

  lemma {:induction false} AssembledTyped(runs: seq<seq<Fr>>)
    requires forall i :: 0 <= i < |runs| ==> runs[i] != [] && IsData(runs[i][0].opcode)
    ensures (forall e :: e in Assembled(runs) ==> IsTyped(e)) <==> (forall i :: 0 <= i < |runs| ==> !Headless(runs[i]))
  {
    hide Bodies;
    if runs != [] {
      var n := |runs| - 1;
      var front, last := runs[..n], runs[n];
      AssembledTyped(front);
      var more := OneEvent(true, last);
      if more != [] { assert more[0] in more; }
      assert Assembled(runs) == Assembled(front) + more;
      hide Assembled, OneEvent, Headless;
      InBoth(Assembled(front), more);
      assert forall i :: 0 <= i < n ==> runs[i] == front[i];
    }
  }

  lemma InBoth(a: seq<Event>, b: seq<Event>)
    ensures (forall e :: e in a + b ==> IsTyped(e)) <==>
            (forall e :: e in a ==> IsTyped(e)) && (forall e :: e in b ==> IsTyped(e))
  {
    assert forall e :: e in a ==> e in a + b;
    assert forall e :: e in b ==> e in a + b;
  }

  /** Every message delivered from a stream is of type text or binary if and only if no run delivered
      starts with a continuation frame. */
  lemma MessagesTyped(cfg: Config, stream: Str)
    ensures var fs := Taken(cfg, FRESH.(cache := stream));
            (forall e :: e in Messages(AllEvents(cfg, fs)) ==> IsTyped(e)) <==>
            (forall i :: 0 <= i < |Runs(DataOf(fs))| ==> !Headless(Runs(DataOf(fs))[i]))
  {
    var fs := Taken(cfg, FRESH.(cache := stream));
    hide Taken, AllEvents, Messages, Runs, DataOf, Headless, Assembled;
    Projections(cfg, fs);
    DataOnly(fs);
    RunsOfData(DataOf(fs));
    AssembledTyped(Runs(DataOf(fs)));
  }

  /** A continuation frame with nothing to continue is delivered as a message without a type. */
  lemma ContinuationAlone(limit: int, b: byte)
    ensures Drain(Config(limit, 0, false), FRESH.(cache := Encode(0, true, true, [b], None))) ==
            Open(FRESH.(trace := [Message(FRAGMENT, [b])]))
  {
    var cfg, x := Config(limit, 0, false), Encode(0, true, true, [b], None);
    ReadWritten(limit, 0, false, 0, true, true, [b], None, []);
    hide NextFrame, Encode;
    assert x + [] == x && x[|x|..] == [];
    assert [] + [b] == [b];
    var st := FRESH.(trace := [Message(FRAGMENT, [b])]);
    assert Deliver(cfg, FRESH, FRAGMENT, true, [b]) == Open(st);
    NothingCached(cfg, st);
  }
}
