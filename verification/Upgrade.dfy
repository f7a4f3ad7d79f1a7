/** The two protocols on one connection: the HTTP parser reads the handshake and hands the rest
    of the stream to a WebSocket reader, whatever the cut of the reads. */
module Upgrade {
  import opened Bytes
  import H = HttpMachine
  import HP = HttpParser
  import HS = HttpSegmentation
  import W = WsFrame
  import WR = WsReader
  import WC = WsConn

  /** The handshake bytes end in a message that installs the new protocol. */
  predicate Handshake(env: H.Env, m: H.Machine, handshake: Str)
  {
    var u := H.FeedAll(env, m, handshake);
    u.Live? && u.out.upgraded && u.out.handed == []
  }

  /** The parser in the middle of the stream: alive, and what it has handed on is the start of the rest. */
  lemma OnTheWay(env: H.Env, m: H.Machine, handshake: Str, rest: Str, read: Str, unread: Str)
    requires H.WellFormed(m) && m.Live? && !m.out.upgraded && Handshake(env, m, handshake)
    requires read + unread == handshake + rest
    ensures var now := H.FeedAll(env, m, read);
            && now.Live? && H.WellFormed(now)
            && (now.out.upgraded ==>
                  && now.out.handed + unread == rest && now.pending == []
                  && now.out.done == H.FeedAll(env, m, handshake).out.done)
            && (unread == [] || now.out.handed != [] ==> now.out.upgraded)
  {
    hide H.Feed;
    var now, u := H.FeedAll(env, m, read), H.FeedAll(env, m, handshake);
    H.FeedAllWellFormed(env, m, read);
    H.FeedAllWellFormed(env, m, handshake);
    H.FeedAllAppend(env, m, read, unread);
    H.FeedAllAppend(env, m, handshake, rest);
    H.UpgradedHands(env, u, rest);
    if now.Dead? {
      H.DeadStays(env, now, unread);
    } else if now.out.upgraded {
      H.UpgradedHands(env, now, unread);
    }
    if unread == [] { H.FeedNothing(env, now); }
  }

  /** What the reader has been given decides: an error there is the error of the whole rest. */
  lemma ReaderDecides(cfg: WR.Config, given: seq<Str>, rest: Str, unread: Str)
    requires Concat(given) + unread == rest && |rest| < TWO_63 && (cfg.readLimit <= 0 || |rest| <= cfg.readLimit)
    ensures var c := WR.Calls(cfg, WR.Open(WR.FRESH), given);
            c.Failed? || unread == [] ==> c == WR.Drain(cfg, WR.FRESH.(cache := rest))
  {
    hide WR.Drain, WR.Calls;
    var all, start := given + [unread], WR.Open(WR.FRESH);
    ConcatSnoc(given, unread);
    WR.WithinLimit(cfg, start, all);
    WR.SegmentationInvisible(cfg, start, all);
    assert WR.AddBytes(WR.FRESH, rest) == WR.FRESH.(cache := rest);
    WR.CallsAppend(cfg, start, given, [unread]);
    LastCall(cfg, WR.Calls(cfg, start, given), unread);
  }

  lemma LastCall(cfg: WR.Config, c: WR.Conn, piece: Str)
    ensures c.Failed? || piece == [] ==> WR.Calls(cfg, c, [piece]) == c
  {
    hide WR.Drain;
    assert [piece][1..] == [];
  }

  /** The connection after an upgrade: each read goes to the parser, which hands on to the reader what
      belongs to it; the first error of the reader ends the reading. The reader ends where the bytes
      after the handshake, in one read, would take it. */
  method Serve(p: HP.Parser, r: WC.Reader, pieces: seq<Str>, ghost handshake: Str, ghost rest: Str)
      returns (err: Option<W.Error>)
    requires p.Valid() && !p.core.state.Closed? && !p.out.upgraded && p.handed == []
    requires Handshake(p.env, p.Abs(), handshake) && Concat(pieces) == handshake + rest
    requires HS.CutFits(p.env, p.readLimit, p.Abs(), pieces)
    requires !r.closed && r.Abs() == WR.FRESH && |rest| < TWO_63
    requires r.cfg.readLimit <= 0 || |rest| <= r.cfg.readLimit
    modifies p, r
    ensures p.bytesCached == [] && p.out.done == H.FeedAll(p.env, old(p.Abs()), handshake).out.done
    ensures r.Reached(WR.Drain(r.cfg, WR.FRESH.(cache := rest)), err)
  {
    hide H.Feed, H.FeedAll, WR.Drain, WR.Calls, Concat, HS.CutFits, H.WellFormed;
    err := None;
    ghost var m, c := p.Abs(), WR.Open(WR.FRESH);
    Begin(p.env, p.readLimit, m, r.cfg, pieces);
    var k := 0;
    while k < |pieces|
      invariant 0 <= k <= |pieces| && !r.closed && p.Valid() && err == None
      invariant p.Abs() == H.FeedAll(p.env, m, Concat(pieces[..k])) && H.Open(p.Abs())
      invariant HS.CutFits(p.env, p.readLimit, p.Abs(), pieces[k..])
      invariant WR.Calls(r.cfg, c, p.handed) == WR.Open(r.Abs())
    {
      ghost var now := p.Abs();
      Turn(p.env, p.readLimit, m, now, pieces, k);
      OnTheWay(p.env, m, handshake, rest, Concat(pieces[..k + 1]), Concat(pieces[k + 1..]));
      var n := |p.handed|;
      ghost var before := p.handed;
      var e := p.Parse(pieces[k]);
      assert e == None;
      k := k + 1;
      if |p.handed| > n {
        assert p.handed == before + [p.handed[n]];
        WR.CallsAppend(r.cfg, c, before, [p.handed[n]]);
        OneCall(r.cfg, WR.Open(r.Abs()), p.handed[n]);
        err := r.Parse(p.handed[n]);
        if err.Some? {
          ConcatSnoc(before, p.handed[n]);
          assert p.out.handed != [];
          ReaderDecides(r.cfg, p.handed, rest, Concat(pieces[k..]));
          return;
        }
      } else {
        assert p.handed == before;
      }
    }
    Finish(p.env, m, handshake, rest, pieces);
    ReaderDecides(r.cfg, p.handed, rest, []);
  }

  lemma Begin(env: H.Env, limit: int, m: H.Machine, cfg: WR.Config, pieces: seq<Str>)
    ensures m == H.FeedAll(env, m, Concat(pieces[..0])) && pieces[0..] == pieces
    ensures WR.Calls(cfg, WR.Open(WR.FRESH), []) == WR.Open(WR.FRESH)
  {
    H.FeedNothing(env, m);
  }

  /** One more read. */
  lemma Turn(env: H.Env, limit: int, m: H.Machine, now: H.Machine, pieces: seq<Str>, k: nat)
    requires k < |pieces| && now == H.FeedAll(env, m, Concat(pieces[..k]))
    requires H.WellFormed(now) && H.Open(now) && HS.CutFits(env, limit, now, pieces[k..])
    ensures HS.Fits(limit, now, pieces[k])
    ensures H.FeedAll(env, now, pieces[k]) == H.FeedAll(env, m, Concat(pieces[..k + 1]))
    ensures H.Open(H.FeedAll(env, now, pieces[k]))
    ensures HS.CutFits(env, limit, H.FeedAll(env, now, pieces[k]), pieces[k + 1..])
    ensures Concat(pieces[..k + 1]) + Concat(pieces[k + 1..]) == Concat(pieces)
  {
    assert pieces[k..][0] == pieces[k] && pieces[k..][1..] == pieces[k + 1..];
    hide H.Feed, H.FeedAll;
    assert pieces[..k + 1] == pieces[..k] + [pieces[k]];
    ConcatSnoc(pieces[..k], pieces[k]);
    H.FeedAllAppend(env, m, Concat(pieces[..k]), pieces[k]);
    H.FeedAllOpen(env, now, pieces[k]);
    assert pieces == pieces[..k + 1] + pieces[k + 1..];
    ConcatAppend(pieces[..k + 1], pieces[k + 1..]);
  }

  lemma OneCall(cfg: WR.Config, c: WR.Conn, piece: Str)
    ensures WR.Calls(cfg, c, [piece]) == WR.Call(cfg, c, piece)
  {
    hide WR.Drain;
    assert [piece][1..] == [];
  }

  lemma Finish(env: H.Env, m: H.Machine, handshake: Str, rest: Str, pieces: seq<Str>)
    requires H.WellFormed(m) && m.Live? && !m.out.upgraded && Handshake(env, m, handshake)
    requires Concat(pieces) == handshake + rest
    ensures var now := H.FeedAll(env, m, Concat(pieces[..|pieces|]));
            && now.Live? && now.out.upgraded && now.out.handed == rest && now.pending == []
            && now.out.done == H.FeedAll(env, m, handshake).out.done
  {
    hide H.FeedAll, H.WellFormed, Handshake;
    assert pieces[..|pieces|] == pieces;
    OnTheWay(env, m, handshake, rest, Concat(pieces), []);
  }
}
