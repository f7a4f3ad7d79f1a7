/** The parser object: a cursor that runs over each read, a cache for the bytes of
    an unfinished token, and a jump over bodies that are already complete. */
module HttpParser {
  import opened Bytes
  import opened HttpMachine

  /** Where the token in progress starts after the byte at i. */
  function Moved(mark: Mark, start: nat, i: nat): (r: nat)
  {
    match mark
    case Keep => start
    case Here => i
    case Next => i + 1
  }

  /** One step of the loop outside a body. */
  lemma ByteAhead(env: Env, m: Machine, buf: Str, offset: nat, start: nat, i: nat, here: Machine)
    requires offset <= i < |buf| && start <= i
    requires here == FeedAll(env, m, buf[offset..i])
    requires here.Live? && here.pending == buf[start..i] && WellFormed(here)
    requires !here.out.upgraded && !InBody(here.core.state)
    ensures var next := FeedAll(env, m, buf[offset..i + 1]);
            match Step(env, here.core, here.out, buf[start..i], buf[i])
            case Fail(e, o) => next == Dead(e, o) && FeedAll(env, m, buf[offset..]) == next
            case Ok(k, o, mark) =>
              && next == Live(k, buf[Moved(mark, start, i)..i + 1], o)
              && WellFormed(next) && o.handed == here.out.handed
  {
    hide Step, Reject, BodyDone, FeedAll;
    assert buf[offset..i + 1] == buf[offset..i] + [buf[i]];
    FeedAllOne(env, m, buf[offset..i], buf[i]);
    StepOrderly(env, here.core, here.out, buf[start..i], buf[i]);
    FeedWellFormed(env, here, buf[i]);
    match Step(env, here.core, here.out, buf[start..i], buf[i]) {
      case Fail(e, o) =>
        assert buf[offset..] == buf[offset..i + 1] + buf[i + 1..];
        FeedAllAppend(env, m, buf[offset..i + 1], buf[i + 1..]);
        DeadStays(env, Dead(e, o), buf[i + 1..]);
      case Ok(k, o, mark) =>
        assert buf[start..i] + [buf[i]] == buf[start..i + 1];
    }
  }

  /** One step of the loop over a body that the buffer holds completely. */
  lemma BodyAhead(env: Env, m: Machine, buf: Str, offset: nat, start: nat, i: nat, here: Machine)
    requires offset <= i < |buf| && start <= i
    requires here == FeedAll(env, m, buf[offset..i])
    requires here.Live? && here.pending == buf[start..i] && WellFormed(here)
    requires !here.out.upgraded && InBody(here.core.state)
    requires start + BodyLength(here.core) <= |buf|
    ensures var end := start + BodyLength(here.core);
            var next := BodyDone(env, here.core, buf[start..end], here.out);
            && i < end
            && FeedAll(env, m, buf[offset..end]) == next
            && WellFormed(next)
            && (next.Live? ==> next.pending == [] && next.out.handed == here.out.handed)
            && (next.Dead? ==> FeedAll(env, m, buf[offset..]) == next)
  {
    hide Step, Feed, FeedAll;
    var end := start + BodyLength(here.core);
    assert buf[offset..end] == buf[offset..i] + buf[i..end];
    FeedAllAppend(env, m, buf[offset..i], buf[i..end]);
    BodyBytes(env, here, buf[i..end]);
    assert buf[start..i] + buf[i..end] == buf[start..end];
    var next := BodyDone(env, here.core, buf[start..end], here.out);
    if next.Dead? {
      assert buf[offset..] == buf[offset..end] + buf[end..];
      FeedAllAppend(env, m, buf[offset..end], buf[end..]);
      DeadStays(env, next, buf[end..]);
    }
  }

  class Parser {
    const env: Env
    const readLimit: int

    var bytesCached: Str
    var core: Core
    var out: Out
    /** The reads passed on to the upgraded protocol, one per call. */
    var handed: seq<Str>

    /** The machine this object stands for between two reads. */
    ghost function Abs(): (m: Machine)
      reads this
    {
      Live(core, bytesCached, out)
    }

    ghost predicate Valid()
      reads this
    {
      WellFormed(Abs()) && out.handed == Concat(handed)
    }

    constructor (env: Env, readLimit: int, isClient: bool)
      ensures Valid() && Abs() == Fresh(isClient)
      ensures this.env == env && this.readLimit == readLimit
      ensures handed == []
    {
      this.env, this.readLimit := env, readLimit;
      bytesCached, core, out, handed := [], FreshCore(isClient), NOTHING, [];
    }

    /** What a call does to the object, given the machine it stood for and its bytes.
        After an error the connection is closed and only the record matters. */
    ghost predicate Parsed(m: Machine, err: Option<Error>)
      reads this
    {
      match m
      case Dead(e, o) => err == Some(e) && out == o
      case Live(_, _, _) => err == None && Valid() && Abs() == m
    }

    /** Passes bytes to the upgraded protocol and drops the cache. */
    method HandOff(data: Str)
      requires out.upgraded && out.handed == Concat(handed)
      modifies this
      ensures core == old(core) && out == old(out).(handed := old(out.handed) + data)
      ensures handed == old(handed) + [data] && out.handed == Concat(handed)
      ensures bytesCached == []
    {
      ConcatSnoc(handed, data);
      handed := handed + [data];
      out := out.(handed := out.handed + data);
      bytesCached := [];
    }

    /** One read. Whatever the cache held, the result is that of feeding the bytes
        one at a time. */
    method Parse(data: Str) returns (err: Option<Error>)
      requires Valid()
      modifies this
      ensures old(core.state.Closed?) ==> err == Some(NetClosed) && unchanged(this)
      ensures !old(core.state.Closed?) && old(Exceeds(data)) ==> err == Some(TooLong) && unchanged(this)
      ensures !old(core.state.Closed?) && !old(Exceeds(data)) ==>
                Parsed(FeedAll(env, old(Abs()), data), err)
      ensures old(handed) <= handed && |handed| <= |old(handed)| + 1
    {
      hide Step, BodyDone, Feed, Concat;
      if core.state.Closed? { return Some(NetClosed); }
      if |data| == 0 { return None; }

      ghost var m := Abs();
      var offset := |bytesCached|;
      var buf := data;
      if offset > 0 {
        if readLimit > 0 && offset + |data| > readLimit { return Some(TooLong); }
        buf := bytesCached + data;
        bytesCached := buf;
      }
      assert buf[offset..] == data && buf[..offset] == m.pending;

      if out.upgraded {
        UpgradedHands(env, m, data);
        HandOff(buf);
        return None;
      }

      var start, passed;
      err, start, passed := Scan(m, buf, offset);
      FeedAllWellFormed(env, m, data);
      if err.Some? || passed { return; }
      if |buf| - start > 0 {
        if |bytesCached| == 0 || start > 0 { bytesCached := buf[start..]; }
      } else if |bytesCached| > 0 {
        bytesCached := [];
      }
    }

    /** The loop over the buffer, whose first `offset` bytes have been looked at before.
        It ends with an error, with the rest passed on to an upgraded protocol, or at
        the start of the token that stays unfinished. */
    method Scan(ghost m: Machine, buf: Str, offset: nat)
        returns (err: Option<Error>, start: nat, passed: bool)
      requires offset < |buf| && !out.upgraded && out.handed == Concat(handed)
      requires m == Live(core, buf[..offset], out) && WellFormed(m)
      modifies this
      ensures !passed ==> bytesCached == old(bytesCached) && handed == old(handed)
      ensures old(handed) <= handed && |handed| <= |old(handed)| + 1
      ensures start <= |buf| && Scanned(FeedAll(env, m, buf[offset..]), buf, err, start, passed)
    {
      hide Step, BodyDone, Feed, FeedAll, Concat;
      FeedNothing(env, m);
      assert buf[offset..offset] == [] && buf[0..offset] == buf[..offset];
      start, passed, err := 0, false, None;
      var i := offset;
      while i < |buf|
        invariant At(m, buf, offset, start, i)
        invariant bytesCached == old(bytesCached) && handed == old(handed) && err == None
        decreases |buf| - i
      {
        ghost var now := Live(core, buf[start..i], out);
        assert buf[offset..] == buf[offset..i] + buf[i..];
        FeedAllAppend(env, m, buf[offset..i], buf[i..]);
        if out.upgraded {
          UpgradedHands(env, now, buf[i..]);
          HandOff(buf[start..]);
          passed := true;
          return;
        }
        if InBody(core.state) {
          if |buf| - start < BodyLength(core) {
            BodyBytes(env, now, buf[i..]);
            assert buf[start..i] + buf[i..] == buf[start..];
            return;
          }
          err, start, i := TakeBody(m, buf, offset, start, i);
        } else {
          err, start := TakeByte(m, buf, offset, start, i);
        }
        if err.Some? { return; }
        i := i + 1;
      }
      assert buf[offset..i] == buf[offset..] && buf[start..i] == buf[start..];
    }

    ghost predicate Scanned(m: Machine, buf: Str, err: Option<Error>, start: nat, passed: bool)
      requires start <= |buf|
      reads this
    {
      match m
      case Dead(e, o) => err == Some(e) && out == o
      case Live(k, w, o) =>
        && err == None && core == k && out == o && out.handed == Concat(handed)
        && (passed ==> bytesCached == [] == w)
        && (!passed ==> w == buf[start..])
    }

    /** The loop's invariant: the machine fed with the bytes before the cursor is this
        object's fields, with the bytes from `start` to the cursor pending. */
    ghost predicate At(m: Machine, buf: Str, offset: nat, start: nat, i: nat)
      reads this
    {
      && offset <= i <= |buf| && start <= i
      && FeedAll(env, m, buf[offset..i]) == Live(core, buf[start..i], out)
      && WellFormed(Live(core, buf[start..i], out))
      && out.handed == Concat(handed)
    }

    /** A body, or chunk, that the buffer holds whole; the cursor moves to its last byte. */
    method TakeBody(ghost m: Machine, buf: Str, offset: nat, start: nat, i: nat)
        returns (err: Option<Error>, start': nat, i': nat)
      requires At(m, buf, offset, start, i) && i < |buf|
      requires !out.upgraded && InBody(core.state) && start + BodyLength(core) <= |buf|
      modifies this`core, this`out
      ensures err.Some? ==> FeedAll(env, m, buf[offset..]) == Dead(err.value, out)
      ensures start' <= |buf|
      ensures err.None? ==> i <= i' < |buf| && At(m, buf, offset, start', i' + 1)
    {
      hide Step, Feed, FeedAll, Concat;
      var cl := BodyLength(core);
      BodyAhead(env, m, buf, offset, start, i, Live(core, buf[start..i], out));
      start', i' := start + cl, start + cl - 1;
      assert buf[start'..i' + 1] == [];
      match BodyDone(env, core, buf[start..start'], out) {
        case Dead(e, o) =>
          out := o;
          return Some(e), start', i';
        case Live(k, _, o) =>
          core, out := k, o;
          return None, start', i';
      }
    }

    /** A byte outside a body. */
    method TakeByte(ghost m: Machine, buf: Str, offset: nat, start: nat, i: nat)
        returns (err: Option<Error>, start': nat)
      requires At(m, buf, offset, start, i) && i < |buf|
      requires !out.upgraded && !InBody(core.state)
      modifies this`core, this`out
      ensures err.Some? ==> FeedAll(env, m, buf[offset..]) == Dead(err.value, out)
      ensures start' <= |buf|
      ensures err.None? ==> At(m, buf, offset, start', i + 1)
    {
      hide Step, BodyDone, Feed, FeedAll, Concat;
      ByteAhead(env, m, buf, offset, start, i, Live(core, buf[start..i], out));
      match Step(env, core, out, buf[start..i], buf[i]) {
        case Fail(e, o) =>
          out := o;
          return Some(e), start;
        case Ok(k, o, mark) =>
          core, out := k, o;
          return None, Moved(mark, start, i);
      }
    }

    predicate Exceeds(data: Str)
      reads this
    {
      |data| > 0 && |bytesCached| > 0 && readLimit > 0 && |bytesCached| + |data| > readLimit
    }
  }
}
