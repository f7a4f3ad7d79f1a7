/** Network segmentation is invisible: every cut of a stream into reads gives the
    same events, the same first error and the same parser. */
module HttpSegmentation {
  import opened Bytes
  import opened HttpMachine
  import opened HttpParser

  /** The check at the top of a read: nothing cached, or cache and read within the limit. */
  predicate Fits(limit: int, m: Machine, piece: Str)
  {
    m.Dead? || piece == [] || m.pending == [] || limit <= 0 || |m.pending| + |piece| <= limit
  }

  /** One call of Parse, and a run of calls that stops at the first error. */
  function Call(env: Env, limit: int, m: Machine, piece: Str): (r: Machine)
  {
    if Fits(limit, m, piece) then FeedAll(env, m, piece) else Dead(TooLong, m.out)
  }

  function Calls(env: Env, limit: int, m: Machine, pieces: seq<Str>): (r: Machine)
    decreases |pieces|
  {
    if pieces == [] then m else Calls(env, limit, Call(env, limit, m, pieces[0]), pieces[1..])
  }

  /** Every read of the cut passes the check. */
  predicate CutFits(env: Env, limit: int, m: Machine, pieces: seq<Str>)
    decreases |pieces|
  {
    pieces != [] ==> Fits(limit, m, pieces[0]) && CutFits(env, limit, FeedAll(env, m, pieces[0]), pieces[1..])
  }

  /** A cut that passes the check is the stream fed at once; one that does not ends with
      the too-long error after a prefix of its reads. */
  lemma {:induction false} CallsAreOneFeed(env: Env, limit: int, m: Machine, pieces: seq<Str>)
    ensures CutFits(env, limit, m, pieces) ==> Calls(env, limit, m, pieces) == FeedAll(env, m, Concat(pieces))
    ensures !CutFits(env, limit, m, pieces) ==>
              exists k :: 0 <= k < |pieces| &&
                Calls(env, limit, m, pieces) == Dead(TooLong, FeedAll(env, m, Concat(pieces[..k])).out)
    decreases |pieces|
  {
    hide Feed;
    if pieces == [] {
    } else if !Fits(limit, m, pieces[0]) {
      CallsDead(env, limit, Dead(TooLong, m.out), pieces[1..]);
      assert Concat(pieces[..0]) == [];
    } else {
      var next := FeedAll(env, m, pieces[0]);
      CallsAreOneFeed(env, limit, next, pieces[1..]);
      FeedAllAppend(env, m, pieces[0], Concat(pieces[1..]));
      if !CutFits(env, limit, next, pieces[1..]) {
        var k :| 0 <= k < |pieces| - 1 &&
          Calls(env, limit, next, pieces[1..]) == Dead(TooLong, FeedAll(env, next, Concat(pieces[1..][..k])).out);
        assert pieces[..k + 1] == [pieces[0]] + pieces[1..][..k];
        FeedAllAppend(env, m, pieces[0], Concat(pieces[1..][..k]));
        assert Concat(pieces[..k + 1]) == pieces[0] + Concat(pieces[1..][..k]);
      }
    }
  }

  lemma {:induction false} CallsDead(env: Env, limit: int, m: Machine, pieces: seq<Str>)
    requires m.Dead?
    ensures Calls(env, limit, m, pieces) == m
  {
    if pieces != [] {
      DeadStays(env, m, pieces[0]);
      CallsDead(env, limit, m, pieces[1..]);
    }
  }

  /** A stream that is within the limit as a whole is within it however it is cut. */
  lemma {:induction false} WithinLimit(env: Env, limit: int, m: Machine, pieces: seq<Str>)
    requires WellFormed(m) && Open(m)
    requires limit <= 0 || m.Dead? || |m.pending| + |Concat(pieces)| <= limit
    ensures CutFits(env, limit, m, pieces)
    decreases |pieces|
  {
    hide Feed, FeedAll;
    if pieces != [] {
      var next := FeedAll(env, m, pieces[0]);
      FeedAllOpen(env, m, pieces[0]);
      FeedAllWellFormed(env, m, pieces[0]);
      if m.Dead? { DeadStays(env, m, pieces[0]); }
      WithinLimit(env, limit, next, pieces[1..]);
    }
  }

  /** Two cuts of the same stream leave the same machine: the same messages and events, the
      same first error and, without one, the same state, fields and cached bytes. */
  lemma SegmentationInvisible(env: Env, limit: int, isClient: bool, a: seq<Str>, b: seq<Str>)
    requires Concat(a) == Concat(b)
    requires CutFits(env, limit, Fresh(isClient), a) && CutFits(env, limit, Fresh(isClient), b)
    ensures Calls(env, limit, Fresh(isClient), a) == Calls(env, limit, Fresh(isClient), b)
  {
    CallsAreOneFeed(env, limit, Fresh(isClient), a);
    CallsAreOneFeed(env, limit, Fresh(isClient), b);
  }

  /** Once a message has upgraded the connection, the bytes after it, and only they, reach the
      new protocol, each once and in order, and none stays in the cache. */
  lemma UpgradeHandsRest(env: Env, limit: int, m: Machine, handshake: Str, rest: Str, pieces: seq<Str>)
    requires WellFormed(m) && m.Live? && !m.out.upgraded
    requires var u := FeedAll(env, m, handshake); u.Live? && u.out.upgraded && u.out.handed == []
    requires Concat(pieces) == handshake + rest && CutFits(env, limit, m, pieces)
    ensures var end := Calls(env, limit, m, pieces);
            && end.Live? && end.out.upgraded && end.out.handed == rest && end.pending == []
            && end.out.done == FeedAll(env, m, handshake).out.done
  {
    hide Feed;
    CallsAreOneFeed(env, limit, m, pieces);
    FeedAllAppend(env, m, handshake, rest);
    FeedAllWellFormed(env, m, handshake);
    UpgradedHands(env, FeedAll(env, m, handshake), rest);
  }

  /** The engine's read loop on one parser: the reads in order, up to the first error. */
  method ReadLoop(p: Parser, pieces: seq<Str>) returns (err: Option<Error>)
    requires p.Valid() && !p.core.state.Closed?
    modifies p
    ensures p.Parsed(Calls(p.env, p.readLimit, old(p.Abs()), pieces), err)
  {
    hide Feed, FeedAll, Concat;
    err := None;
    var k := 0;
    ghost var m := p.Abs();
    assert pieces[0..] == pieces;
    while k < |pieces|
      invariant 0 <= k <= |pieces|
      invariant p.Valid() && m == p.Abs() && Open(m) && err == None
      invariant Calls(p.env, p.readLimit, old(p.Abs()), pieces) == Calls(p.env, p.readLimit, m, pieces[k..])
    {
      assert pieces[k..][0] == pieces[k] && pieces[k..][1..] == pieces[k + 1..];
      ghost var next := Call(p.env, p.readLimit, m, pieces[k]);
      FeedAllOpen(p.env, m, pieces[k]);
      err := p.Parse(pieces[k]);
      if err.Some? {
        CallsDead(p.env, p.readLimit, next, pieces[k + 1..]);
        return;
      }
      m := next;
      k := k + 1;
    }
  }
}
