/** Whole messages before a processor that may refuse: the first refusal decides, whatever the message. */
module HttpAnswers {
  import opened Bytes
  import opened HttpMachine
  import opened FormatInt
  import opened HttpGrammar
  import opened HttpChunked
  import opened HttpPipelining
  import opened HttpMessages
  import opened HttpRefusals

  /** The version of a request: its refusal ends the connection at the carriage return. */
  lemma RequestVersion(env: Env, core: Core, out: Out, proto: Str)
    requires core.state.ProtoBefore? && core.proto == [] && !out.upgraded && ValidProto(proto)
    ensures
      FeedAll(env, Live(core, [], out), proto + CRLF) ==
      match Reject(env, out.cur + [OnProto(proto)])
      case Some(e) => Dead(Rejected(e), Record(out, OnProto(proto)))
      case None => Live(core.(state := HeaderKeyBefore), [], Record(out, OnProto(proto)))
  {
    var core1 := core.(state := Proto);
    hide FeedAll, Feed, HeaderStep, StatusLineStep, ChunkStep, TrailerStep;
    match Reject(env, out.cur + [OnProto(proto)])
    case None => FeedProto(env, core, out, proto);
    case Some(e) =>
      forall i | 1 <= i < |proto| ensures Stays(env, core1, out, proto[i]) {}
      FeedToken(env, core, [], out, core1, proto, CR);
      assert proto + CRLF == (proto + [CR]) + [LF];
      FeedAllAppend(env, Live(core, [], out), proto + [CR], [LF]);
      DeadStays(env, Dead(Rejected(e), Record(out, OnProto(proto))), [LF]);
  }

  /** The version of a response, at the space after it. */
  lemma ResponseVersion(env: Env, core: Core, out: Out, proto: Str)
    requires core.state.ClientProtoBefore? && core.proto == [] && !out.upgraded
    requires proto != [] && proto[0] == 0x48 && NoneOf(proto, {SP})
    ensures
      FeedAll(env, Live(core, [], out), proto + [SP]) ==
      match Reject(env, out.cur + [OnProto(proto)])
      case Some(e) => Dead(Rejected(e), Record(out, OnProto(proto)))
      case None => Live(core.(state := StatusCodeBefore), proto + [SP], Record(out, OnProto(proto)))
  {
    var core1 := core.(state := ClientProto);
    forall i | 1 <= i < |proto| ensures Stays(env, core1, out, proto[i]) {}
    FeedToken(env, core, [], out, core1, proto, SP);
  }

  // ---- the parts of a message do not depend on the processor ----

  lemma SameFields(env: Env, fields: seq<Field>)
    ensures ValidFields(Lenient(env), fields) == ValidFields(env, fields)
    ensures Unframed(Lenient(env), fields) == Unframed(env, fields)
    ensures FieldEvents(Lenient(env), fields) == FieldEvents(env, fields)
  {
    LenientSame(env);
    hide Lenient, IsToken, IsFraming;
  }

  lemma SameTrailers(env: Env, fields: seq<Field>)
    ensures TrailerEvents(Lenient(env), fields) == TrailerEvents(env, fields)
    ensures Names(Lenient(env), fields) == Names(env, fields)
    ensures Struck(Lenient(env), fields) == Struck(env, fields)
  {
    LenientSame(env);
    hide Lenient;
  }

  lemma SameReadable(env: Env, body: Body)
    ensures Readable(Lenient(env), body) == Readable(env, body)
  {
    if body.Chunked? {
      var fields := body.trailers;
      SameTrailers(env, fields);
      forall i: nat | i <= |fields| ensures Struck(Lenient(env), fields[..i]) == Struck(env, fields[..i]) {
        SameTrailers(env, fields[..i]);
      }
      hide Lenient, Names, Struck;
      var names := Names(env, fields);
      if Excess(env, names, fields) {
        var i :| 0 <= i < |fields| && fields[i].value != [] && names <= Struck(env, fields[..i]);
        assert names <= Struck(Lenient(env), fields[..i]);
      }
    }
  }

  lemma SameRest(env: Env, fields: seq<Field>, body: Body)
    ensures ValidRest(Lenient(env), fields, body) == ValidRest(env, fields, body)
    ensures RestEvents(Lenient(env), fields, body) == RestEvents(env, fields, body)
  {
    LenientSame(env);
    hide Lenient, ValidFields, Unframed, FieldEvents, TrailerEvents;
    SameFields(env, fields);
    SameFields(env, fields + Framing(body));
    if body.Chunked? {
      SameFields(env, body.trailers);
      SameTrailers(env, body.trailers);
    }
  }

  lemma LenientAccepts(env: Env, events: seq<Event>)
    ensures AcceptsAll(Lenient(env), events)
  {
    LenientSame(env);
    hide Lenient;
  }

  /** The record of one finished message. */
  lemma OneMessage(env: Env, msg: seq<Event>, upgraded: bool)
    ensures
      Judged(env, Out([msg + [OnComplete]], [], upgraded, [])) ==
      match RefusedIn(env, msg)
      case None => None
      case Some(j) => Some(Dead(Rejected(Reject(env, msg[..j]).value), Out([], msg[..j], false, [])))
  {
    FirstRefusal(env, msg);
    RefusedSnoc(env, msg, OnComplete);
    var whole := msg + [OnComplete];
    var all: seq<seq<Event>> := [whole];
    assert all[..0] == [];
    assert StoppedAmong(env, all) == Stopped(env, [], whole);
    assert RefusedIn(env, []) == None;
    var j := RefusedIn(env, msg);
    if j.Some? { assert whole[..j.value] == msg[..j.value]; }
    hide RefusedIn, StoppedAmong;
  }

  /** Every valid request, whatever the processor says: read to its end if its body is readable and nothing
      is refused; ended by the first refusal, with the record up to the refused event, if its body is
      readable; and never delivered otherwise. */
  lemma RequestExact(env: Env, verb: Str, uri: Str, proto: Str, fields: seq<Field>, body: Body)
    requires ValidVerb(env, verb) && ValidURI(uri) && ValidProto(proto) && ValidRest(env, fields, body)
    ensures
      var m := FeedAll(env, Fresh(false), RequestLine(verb, uri, proto) + Rest(fields, body));
      var events := RequestLineEvents(env, verb, uri, proto) + RestEvents(env, fields, body);
      var msg := events + [OnComplete];
      && (m.Live? <==> Readable(env, body) && RefusedIn(env, events) == None)
      && (m.Live? ==>
            && m.pending == [] && Same(FreshCore(false), m.core)
            && m.out == Out([msg], [], Upgrades(env, msg), []))
      && (forall j: nat :: Readable(env, body) && RefusedIn(env, events) == Some(j) ==>
            m == Dead(Rejected(Reject(env, events[..j]).value), Out([], events[..j], false, [])))
  {
    var lenient, input := Lenient(env), RequestLine(verb, uri, proto) + Rest(fields, body);
    var events := RequestLineEvents(env, verb, uri, proto) + RestEvents(env, fields, body);
    LenientSame(env);
    SameRest(env, fields, body);
    SameReadable(env, body);
    LenientAccepts(env, events);
    assert ValidVerb(lenient, verb);
    assert RequestLineEvents(lenient, verb, uri, proto) == RequestLineEvents(env, verb, uri, proto);
    hide *;
    RequestRoundTrip(lenient, verb, uri, proto, fields, body);
    RefusalExact(env, false, input);
    OneMessage(env, events, Upgrades(env, events + [OnComplete]));
    JudgedStops(env, FeedAll(lenient, Fresh(false), input));
  }

  lemma JudgedStops(env: Env, lenient: Machine)
    ensures lenient.Dead? || Judged(env, lenient.out).Some? ==> Verdict(env, lenient).Dead?
    ensures Judged(env, lenient.out) == None ==> Verdict(env, lenient) == lenient
    ensures forall m :: Judged(env, lenient.out) == Some(m) ==> Verdict(env, lenient) == m
  {
    JudgedDead(env, lenient.out);
  }

  /** And every response with a word in its reason. */
  lemma ResponseExact(env: Env, proto: Str, code: nat, reason: Str, fields: seq<Field>, body: Body)
    requires proto != [] && proto[0] == 0x48 && NoneOf(proto, {SP}) && code < TWO_63 && NoneOf(reason, {CR})
    requires Skipped(reason) < |reason| && reason[Skipped(reason)] != SP && ValidRest(env, fields, body)
    ensures
      var m := FeedAll(env, Fresh(true), StatusLine(proto, code, reason) + Rest(fields, body));
      var events := [OnProto(proto), OnStatus(code, HeardReason(reason))] + RestEvents(env, fields, body);
      var msg := events + [OnComplete];
      && (m.Live? <==> Readable(env, body) && RefusedIn(env, events) == None)
      && (m.Live? ==>
            && m.pending == [] && Same(FreshCore(true), m.core)
            && m.out == Out([msg], [], Upgrades(env, msg), []))
      && (forall j: nat :: Readable(env, body) && RefusedIn(env, events) == Some(j) ==>
            m == Dead(Rejected(Reject(env, events[..j]).value), Out([], events[..j], false, [])))
  {
    var lenient, input := Lenient(env), StatusLine(proto, code, reason) + Rest(fields, body);
    var events := [OnProto(proto), OnStatus(code, HeardReason(reason))] + RestEvents(env, fields, body);
    LenientSame(env);
    SameRest(env, fields, body);
    SameReadable(env, body);
    LenientAccepts(env, events);
    hide *;
    ResponseRoundTrip(lenient, proto, code, reason, fields, body);
    RefusalExact(env, true, input);
    OneMessage(env, events, Upgrades(env, events + [OnComplete]));
    JudgedStops(env, FeedAll(lenient, Fresh(true), input));
  }

  /** A version that is refused ends a response, whatever follows. */
  lemma VersionRefused(env: Env, proto: Str, e: int, rest: Str)
    requires proto != [] && proto[0] == 0x48 && NoneOf(proto, {SP}) && Reject(env, [OnProto(proto)]) == Some(e)
    ensures FeedAll(env, Fresh(true), proto + [SP] + rest) == Dead(Rejected(e), Out([], [OnProto(proto)], false, []))
  {
    hide FeedAll;
    ResponseVersion(env, FreshCore(true), NOTHING, proto);
    assert NOTHING.cur + [OnProto(proto)] == [OnProto(proto)];
    FeedAllAppend(env, Fresh(true), proto + [SP], rest);
    DeadStays(env, Dead(Rejected(e), Record(NOTHING, OnProto(proto))), rest);
  }
}
