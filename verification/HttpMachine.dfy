/** The HTTP/1.x parser as a machine that takes one byte at a time.

    A live machine is the parser's fields, the bytes since the token in progress
    began, and what the processor has recorded. There is no cursor and no cache
    here; HttpParser shows that the cursor-driven loop computes the same thing. */
module HttpMachine {
  import opened Bytes

  const SP: byte := 0x20
  const CR: byte := 0x0D
  const LF: byte := 0x0A
  const COLON: byte := 0x3A
  const COMMA: byte := 0x2C

  datatype State =
    | Closed
    | MethodBefore | Method | PathBefore | Path | ProtoBefore | Proto | ProtoLF
    | ClientProtoBefore | ClientProto
    | StatusCodeBefore | StatusCode | StatusBefore | Status | StatusLF
    | HeaderKeyBefore | HeaderValueLF | HeaderKey | HeaderValueBefore | HeaderValue | HeaderOverLF
    | BodyContentLength
    | ChunkSizeBefore | ChunkSize | ChunkSizeLF | ChunkData | ChunkDataCR | ChunkDataLF
    | TrailerValueLF | TrailerKeyBefore | TrailerKey | TrailerValueBefore | TrailerValue
    | TailCR | TailLF

  datatype Event =
    | OnMethod(verb: Str)
    | OnURL(uri: Str)
    | OnProto(version: Str)
    | OnStatus(code: int, reason: Str)
    | OnHeader(key: Str, value: Str)
    | OnContentLength(length: int)
    | OnBody(data: Str)
    | OnTrailerHeader(key: Str, value: Str)
    | OnComplete

  datatype Error =
    | NetClosed | TooLong
    | InvalidMethod | InvalidRequestURI | InvalidStatusCode | BadStatusCode | InvalidStatus
    | LFExpected | CRExpected | InvalidCharInHeader
    | TooManyTransferEncodings | UnsupportedTransferEncoding
    | UnexpectedContentLength | BadContentLength | NegativeContentLength
    | BadTrailerKey | TrailerExpected | InvalidTrailer
    | InvalidChunkSize | ChunkSizeParse
    | Rejected(code: int)

  datatype Result<+T> = Good(value: T) | Bad(error: Error)

  /** What lies outside the parser: the processor's verdicts, each a function of
      the events of the message in progress, and three library functions. */
  datatype Env = Env(
    reject: seq<Event> -> Option<int>,
    upgrades: seq<Event> -> bool,
    canonical: Str -> Str,
    toUpper: Str -> Str,
    toLower: Str -> Str)

  function Reject(env: Env, events: seq<Event>): (r: Option<int>) { env.reject(events) }
  function Upgrades(env: Env, events: seq<Event>): (r: bool) { env.upgrades(events) }
  function Canonical(env: Env, s: Str): (r: Str) { env.canonical(s) }
  function ToUpper(env: Env, s: Str): (r: Str) { env.toUpper(s) }
  function ToLower(env: Env, s: Str): (r: Str) { env.toLower(s) }

  /** The parser's fields. A nil header map is the empty map and a nil trailer
      the empty set: the parser only looks keys up and takes the length. */
  datatype Core = Core(
    state: State,
    isClient: bool,
    proto: Str,
    statusCode: int,
    status: Str,
    headerKey: Str,
    headerValue: Str,
    header: map<Str, seq<Str>>,
    trailer: set<Str>,
    contentLength: int,
    chunkSize: int,
    chunked: bool,
    headerExists: bool)

  /** What has left the parser: the finished messages, the events of the one in
      progress, and the bytes handed to an upgraded protocol. */
  datatype Out = Out(done: seq<seq<Event>>, cur: seq<Event>, upgraded: bool, handed: Str)

  datatype Machine = Live(core: Core, pending: Str, out: Out) | Dead(error: Error, out: Out)

  /** Where the token in progress starts after a byte: where it did, at the byte, after it. */
  datatype Mark = Keep | Here | Next

  datatype Outcome = Ok(core: Core, out: Out, mark: Mark) | Fail(error: Error, out: Out)

  function InitialState(isClient: bool): (s: State)
  {
    if isClient then ClientProtoBefore else MethodBefore
  }

  function FreshCore(isClient: bool): (core: Core)
  {
    Core(InitialState(isClient), isClient, [], 0, [], [], [], map[], {}, 0, 0, false, false)
  }

  const NOTHING: Out := Out([], [], false, [])

  function Fresh(isClient: bool): (m: Machine)
  {
    Live(FreshCore(isClient), [], NOTHING)
  }

  // ---- character classes (table.go) ----

  predicate IsUpper(c: byte) { 0x41 <= c <= 0x5A }
  predicate IsAlpha(c: byte) { IsUpper(c) || 0x61 <= c <= 0x7A }
  predicate IsNum(c: byte) { 0x30 <= c <= 0x39 }
  predicate IsHex(c: byte) { IsNum(c) || 0x41 <= c <= 0x46 || 0x61 <= c <= 0x66 }

  predicate IsToken(c: byte)
  {
    IsAlpha(c) || IsNum(c) || c == 0x21 || 0x23 <= c <= 0x27 || c == 0x2A || c == 0x2B ||
    c == 0x2D || c == 0x2E || 0x5E <= c <= 0x60 || c == 0x7C || c == 0x7E
  }

  /** A letter, of either case, of one of the valid methods. */
  predicate IsMethodChar(c: byte)
  {
    var u := if 0x61 <= c <= 0x7A then c - 0x20 else c;
    u == 0x41 || u == 0x43 || u == 0x44 || u == 0x45 || u == 0x47 || u == 0x48 || u == 0x49 || u == 0x4C ||
    0x4E <= u <= 0x50 || 0x52 <= u <= 0x55
  }

  /** OPTIONS, GET, HEAD, POST, PUT, DELETE, TRACE, CONNECT, PATCH and PRI. */
  const VALID_METHODS: set<Str> := {
    [0x4F, 0x50, 0x54, 0x49, 0x4F, 0x4E, 0x53],
    [0x47, 0x45, 0x54],
    [0x48, 0x45, 0x41, 0x44],
    [0x50, 0x4F, 0x53, 0x54],
    [0x50, 0x55, 0x54],
    [0x44, 0x45, 0x4C, 0x45, 0x54, 0x45],
    [0x54, 0x52, 0x41, 0x43, 0x45],
    [0x43, 0x4F, 0x4E, 0x4E, 0x45, 0x43, 0x54],
    [0x50, 0x41, 0x54, 0x43, 0x48],
    [0x50, 0x52, 0x49]
  }

  predicate IsValidMethod(env: Env, verb: Str)
  {
    ToUpper(env, verb) in VALID_METHODS
  }

  // ---- numbers ----

  const TWO_62: nat := 0x4000_0000_0000_0000

  /** The value of a digit in bases up to 36. */
  function Digit(c: byte): (d: Option<nat>)
  {
    if IsNum(c) then Some((c - 0x30) as int)
    else if 0x61 <= c <= 0x7A then Some((c - 0x61) as int + 10)
    else if IsUpper(c) then Some((c - 0x41) as int + 10)
    else None
  }

  function Magnitude(s: Str, base: nat): (v: Option<nat>)
  {
    if s == [] then Some(0)
    else
      var high, low := Magnitude(s[..|s| - 1], base), Digit(s[|s| - 1]);
      if high.None? || low.None? || low.value >= base then None
      else Some(high.value * base + low.value)
  }

  /** strconv.ParseInt for a fixed base: an optional sign, at least one digit, and
      a value that fits a signed integer whose magnitude is below `cutoff`. */
  function ParseInt(s: Str, base: nat, cutoff: nat): (v: Option<int>)
  {
    if s == [] then None
    else
      var signed := s[0] == 0x2B || s[0] == 0x2D;
      var digits := if signed then s[1..] else s;
      var m := Magnitude(digits, base);
      if digits == [] || m.None? then None
      else if s[0] == 0x2D then (if m.value > cutoff then None else Some(-(m.value as int)))
      else if m.value >= cutoff then None
      else Some(m.value)
  }

  /** parseAndValidateChunkSize: hexadecimal, 63 bits, not negative. */
  function ParseChunkSize(s: Str): (r: Result<nat>)
  {
    match ParseInt(s, 16, TWO_62)
    case None => Bad(ChunkSizeParse)
    case Some(v) => if v < 0 then Bad(ChunkSizeParse) else Good(v)
  }

  // ---- header fields that frame the body ----

  /** Transfer-Encoding */
  const TRANSFER_ENCODING: Str :=
    [0x54, 0x72, 0x61, 0x6E, 0x73, 0x66, 0x65, 0x72, 0x2D,
     0x45, 0x6E, 0x63, 0x6F, 0x64, 0x69, 0x6E, 0x67]
  /** Trailer */
  const TRAILER: Str :=
    [0x54, 0x72, 0x61, 0x69, 0x6C, 0x65, 0x72]
  /** Content-Length */
  const CONTENT_LENGTH: Str :=
    [0x43, 0x6F, 0x6E, 0x74, 0x65, 0x6E, 0x74, 0x2D, 0x4C, 0x65, 0x6E, 0x67, 0x74, 0x68]
  /** chunked */
  const CHUNKED: Str :=
    [0x63, 0x68, 0x75, 0x6E, 0x6B, 0x65, 0x64]

  predicate IsFraming(key: Str)
  {
    key == TRANSFER_ENCODING || key == TRAILER || key == CONTENT_LENGTH
  }

  predicate IsSpace(c: byte) { c == 0x20 || c == 0x09 || c == 0x0A || c == 0x0D }

  /** textproto.TrimString. */
  function Trim(s: Str): (r: Str)
  {
    if s != [] && IsSpace(s[0]) then Trim(s[1..])
    else if s != [] && IsSpace(s[|s| - 1]) then Trim(s[..|s| - 1])
    else s
  }

  /** Where the trailing spaces of s start; 0 when s is all spaces. */
  function SpacesFrom(s: Str): (n: nat)
    ensures n <= |s|
  {
    if s != [] && s[|s| - 1] == SP then SpacesFrom(s[..|s| - 1]) else |s|
  }

  /** The Content-Length value without its trailing spaces; a value of spaces only stays. */
  function TrimLength(s: Str): (r: Str)
  {
    if SpacesFrom(s) == 0 then s else s[..SpacesFrom(s)]
  }

  /** strings.Split on commas. */
  function Split(s: Str): (r: seq<Str>)
  {
    if COMMA in s then
      var k := CommaAt(s);
      [s[..k]] + Split(s[k + 1..])
    else [s]
  }

  function CommaAt(s: Str): (k: nat)
    requires COMMA in s
    ensures k < |s| && s[k] == COMMA && COMMA !in s[..k]
  {
    if s[0] == COMMA then 0
    else
      var k := CommaAt(s[1..]);
      assert s[..k + 1] == [s[0]] + s[1..][..k];
      k + 1
  }

  function WithTransferEncoding(env: Env, core: Core): (r: Result<Core>)
  {
    if TRANSFER_ENCODING !in core.header then Good(core)
    else
      var raw := core.header[TRANSFER_ENCODING];
      var header := core.header - {TRANSFER_ENCODING};
      if |raw| != 1 then Bad(TooManyTransferEncodings)
      else if ToLower(env, Trim(raw[0])) != CHUNKED then Bad(UnsupportedTransferEncoding)
      else Good(core.(header := header - {CONTENT_LENGTH}, chunked := true))
  }

  /** http.Header.Get: the first value, or the empty string. */
  function First(header: map<Str, seq<Str>>, key: Str): (v: Str)
  {
    if key in header && header[key] != [] then header[key][0] else []
  }

  function WithContentLength(core: Core): (r: Result<Core>)
  {
    var cl := First(core.header, CONTENT_LENGTH);
    if cl == [] then Good(core.(contentLength := -1))
    else if core.chunked then Bad(UnexpectedContentLength)
    else
      match ParseInt(TrimLength(cl), 10, TWO_62)
      case None => Bad(BadContentLength)
      case Some(l) => if l < 0 then Bad(NegativeContentLength) else Good(core.(contentLength := l))
  }

  /** The announced trailer names of one field value that has been split. */
  function TrailerNames(env: Env, names: seq<Str>): (r: Result<set<Str>>)
  {
    if names == [] then Good({})
    else
      match TrailerNames(env, names[..|names| - 1])
      case Bad(e) => Bad(e)
      case Good(before) =>
        var k := Trim(names[|names| - 1]);
        if k == [] then Good(before)
        else if IsFraming(Canonical(env, k)) then Bad(BadTrailerKey)
        else Good(before + {Canonical(env, k)})
  }

  /** The names of every Trailer field; each value is a name or a comma-separated list. */
  function TrailerSet(env: Env, values: seq<Str>): (r: Result<set<Str>>)
  {
    if values == [] then Good({})
    else
      match TrailerSet(env, values[..|values| - 1])
      case Bad(e) => Bad(e)
      case Good(before) =>
        match TrailerNames(env, Split(Trim(values[|values| - 1])))
        case Bad(e) => Bad(e)
        case Good(more) => Good(before + more)
  }

  /** The first bad name, or bad value, decides. */
  lemma {:induction false} TrailerNamesFail(env: Env, names: seq<Str>, k: nat)
    requires k <= |names| && TrailerNames(env, names[..k]).Bad?
    ensures TrailerNames(env, names) == TrailerNames(env, names[..k])
  {
    if k == |names| {
      assert names[..k] == names;
    } else {
      var n := |names| - 1;
      assert names[..n][..k] == names[..k];
      TrailerNamesFail(env, names[..n], k);
    }
  }

  lemma {:induction false} TrailerSetFail(env: Env, values: seq<Str>, k: nat)
    requires k <= |values| && TrailerSet(env, values[..k]).Bad?
    ensures TrailerSet(env, values) == TrailerSet(env, values[..k])
  {
    if k == |values| {
      assert values[..k] == values;
    } else {
      var n := |values| - 1;
      assert values[..n][..k] == values[..k];
      TrailerSetFail(env, values[..n], k);
    }
  }

  lemma TrimTwice(s: Str)
    ensures Trim(Trim(s)) == Trim(s)
  {
  }

  function WithTrailer(env: Env, core: Core): (r: Result<Core>)
  {
    if !core.chunked || TRAILER !in core.header then Good(core)
    else
      match TrailerSet(env, core.header[TRAILER])
      case Bad(e) => Bad(e)
      case Good(names) =>
        Good(core.(header := core.header - {TRAILER},
                   trailer := if names == {} then core.trailer else names))
  }

  // ---- the processor's record ----

  function Record(out: Out, e: Event): (r: Out)
  {
    out.(cur := out.cur + [e])
  }

  /** handleMessage: the message in progress is finished and the fields are reset. */
  function Finish(env: Env, out: Out): (r: Out)
  {
    var msg := out.cur + [OnComplete];
    out.(done := out.done + [msg], cur := [], upgraded := Upgrades(env, msg))
  }

  function Reset(core: Core): (r: Core)
  {
    core.(chunked := false, header := map[], trailer := {}, state := InitialState(core.isClient))
  }

  function OrElse(s: Str, otherwise: Str): (r: Str)
  {
    if s == [] then otherwise else s
  }

  function EmitProto(env: Env, core: Core, out: Out, w: Str, state: State): (o: Outcome)
  {
    var proto := OrElse(core.proto, w);
    var out' := Record(out, OnProto(proto));
    match Reject(env, out'.cur)
    case Some(e) => Fail(Rejected(e), out')
    case None => Ok(core.(proto := [], state := state), out', Keep)
  }

  // ---- one byte, by group of states ----

  predicate InRequestLine(s: State)
  {
    s.MethodBefore? || s.Method? || s.PathBefore? || s.Path? || s.ProtoBefore? || s.Proto? || s.ProtoLF?
  }

  function RequestLineStep(env: Env, core: Core, out: Out, w: Str, c: byte): (o: Outcome)
    requires InRequestLine(core.state)
  {
    match core.state
    case MethodBefore =>
      if IsMethodChar(c) then Ok(core.(state := Method), out, Here) else Fail(InvalidMethod, out)
    case Method =>
      if c == SP then
        var verb := ToUpper(env, w);
        if !IsValidMethod(env, verb) then Fail(InvalidMethod, out)
        else Ok(core.(state := PathBefore), Record(out, OnMethod(verb)), Next)
      else if !IsAlpha(c) then Fail(InvalidMethod, out)
      else Ok(core, out, Keep)
    case PathBefore =>
      if c == 0x2F || c == 0x2A then Ok(core.(state := Path), out, Here)
      else if c == SP then Ok(core, out, Keep)
      else Fail(InvalidRequestURI, out)
    case Path =>
      if c != SP then Ok(core, out, Keep)
      else
        var out' := Record(out, OnURL(w));
        (match Reject(env, out'.cur)
         case Some(e) => Fail(Rejected(e), out')
         case None => Ok(core.(state := ProtoBefore), out', Next))
    case ProtoBefore =>
      if c != SP then Ok(core.(state := Proto), out, Here) else Ok(core, out, Keep)
    case Proto =>
      if c == SP then Ok(core.(proto := OrElse(core.proto, w)), out, Keep)
      else if c == CR then EmitProto(env, core, out, w, ProtoLF)
      else Ok(core, out, Keep)
    case ProtoLF =>
      if c == LF then Ok(core.(state := HeaderKeyBefore), out, Next) else Fail(LFExpected, out)
  }

  predicate InStatusLine(s: State)
  {
    s.ClientProtoBefore? || s.ClientProto? || s.StatusCodeBefore? || s.StatusCode? ||
    s.StatusBefore? || s.Status? || s.StatusLF?
  }

  function StatusLineStep(env: Env, core: Core, out: Out, w: Str, c: byte): (o: Outcome)
    requires InStatusLine(core.state)
  {
    match core.state
    case ClientProtoBefore =>
      if c == 0x48 then Ok(core.(state := ClientProto), out, Here) else Fail(InvalidMethod, out)
    case ClientProto =>
      if c == SP then EmitProto(env, core, out, w, StatusCodeBefore) else Ok(core, out, Keep)
    case StatusCodeBefore =>
      if c == SP then Fail(InvalidStatusCode, out)
      else if IsNum(c) then Ok(core.(state := StatusCode), out, Here)
      else Ok(core, out, Keep)
    case StatusCode =>
      if c == SP then
        (match ParseInt(w, 10, TWO_63)
         case None => Fail(BadStatusCode, out)
         case Some(code) => Ok(core.(statusCode := code, state := StatusBefore), out, Keep))
      else if !IsNum(c) then Fail(InvalidStatusCode, out)
      else Ok(core, out, Keep)
    case StatusBefore =>
      if c == SP then Fail(InvalidStatus, out)
      else if IsAlpha(c) then Ok(core.(state := Status), out, Here)
      else Ok(core, out, Keep)
    case Status =>
      if c == SP then Ok(core.(status := OrElse(core.status, w)), out, Keep)
      else if c == CR then
        Ok(core.(statusCode := 0, status := [], state := StatusLF),
           Record(out, OnStatus(core.statusCode, OrElse(core.status, w))), Keep)
      else Ok(core, out, Keep)
    case StatusLF =>
      if c == LF then Ok(core.(state := HeaderKeyBefore), out, Keep) else Fail(LFExpected, out)
  }

  predicate InHeader(s: State)
  {
    s.HeaderKeyBefore? || s.HeaderValueLF? || s.HeaderKey? || s.HeaderValueBefore? ||
    s.HeaderValue? || s.HeaderOverLF?
  }

  /** The blank line: the framing fields are read and the length announced. */
  function EndOfHeader(env: Env, core: Core, out: Out): (o: Outcome)
  {
    match WithTransferEncoding(env, core)
    case Bad(e) => Fail(e, out)
    case Good(c1) =>
      match WithContentLength(c1)
      case Bad(e) => Fail(e, out)
      case Good(c2) =>
        var out' := Record(out, OnContentLength(c2.contentLength));
        match WithTrailer(env, c2)
        case Bad(e) => Fail(e, out')
        case Good(c3) => Ok(c3.(state := HeaderOverLF), out', Next)
  }

  function Add(header: map<Str, seq<Str>>, key: Str, value: Str): (r: map<Str, seq<Str>>)
  {
    header[key := (if key in header then header[key] else []) + [value]]
  }

  function EmitHeader(core: Core, out: Out, w: Str): (o: Outcome)
  {
    var value := OrElse(core.headerValue, w);
    var header := if IsFraming(core.headerKey) then Add(core.header, core.headerKey, value) else core.header;
    Ok(core.(header := header, headerKey := [], headerValue := [], state := HeaderValueLF),
       Record(out, OnHeader(core.headerKey, value)), Next)
  }

  function HeaderStep(env: Env, core: Core, out: Out, w: Str, c: byte): (o: Outcome)
    requires InHeader(core.state)
  {
    match core.state
    case HeaderValueLF =>
      if c == LF then Ok(core.(state := HeaderKeyBefore), out, Next) else Fail(LFExpected, out)
    case HeaderKeyBefore =>
      if c == SP then (if core.headerExists then Ok(core, out, Keep) else Fail(InvalidCharInHeader, out))
      else if c == CR then EndOfHeader(env, core, out)
      else if IsToken(c) then Ok(core.(state := HeaderKey, headerExists := true), out, Here)
      else Fail(InvalidCharInHeader, out)
    case HeaderKey =>
      if c == SP then Ok(core.(headerKey := OrElse(core.headerKey, Canonical(env, w))), out, Keep)
      else if c == COLON then
        Ok(core.(headerKey := OrElse(core.headerKey, Canonical(env, w)), state := HeaderValueBefore), out, Next)
      else if IsToken(c) then Ok(core, out, Keep)
      else Fail(InvalidCharInHeader, out)
    case HeaderValueBefore =>
      if c == SP then Ok(core, out, Keep)
      else if c == CR then EmitHeader(core, out, w)
      else if c == LF then Fail(InvalidCharInHeader, out)
      else Ok(core.(state := HeaderValue), out, Here)
    case HeaderValue =>
      if c == CR then EmitHeader(core, out, w)
      else if c == LF then Fail(InvalidCharInHeader, out)
      else Ok(core, out, Keep)
    case HeaderOverLF =>
      if c != LF then Fail(LFExpected, out)
      else
        var core' := core.(headerExists := false);
        if core.chunked then Ok(core'.(state := ChunkSizeBefore), out, Next)
        else if core.contentLength > 0 then Ok(core'.(state := BodyContentLength), out, Next)
        else Ok(Reset(core'), Finish(env, out), Next)
  }

  predicate InChunk(s: State)
  {
    s.ChunkSizeBefore? || s.ChunkSize? || s.ChunkSizeLF? || s.ChunkDataCR? || s.ChunkDataLF? ||
    s.TailCR? || s.TailLF?
  }

  /** The size is parsed once, at the first byte after its digits. */
  function WithChunkSize(core: Core, w: Str): (r: Result<Core>)
  {
    if core.chunkSize >= 0 then Good(core)
    else
      match ParseChunkSize(w)
      case Bad(e) => Bad(e)
      case Good(n) => Good(core.(chunkSize := n))
  }

  function ChunkStep(env: Env, core: Core, out: Out, w: Str, c: byte): (o: Outcome)
    requires InChunk(core.state)
  {
    match core.state
    case ChunkSizeBefore =>
      if IsHex(c) then Ok(core.(chunkSize := -1, state := ChunkSize), out, Here)
      else Fail(InvalidChunkSize, out)
    case ChunkSize =>
      if IsHex(c) then Ok(core, out, Keep)
      else
        (match WithChunkSize(core, w)
         case Bad(e) => Fail(e, out)
         case Good(core') =>
           if c == CR then Ok(core'.(state := ChunkSizeLF), out, Next) else Ok(core', out, Keep))
    case ChunkSizeLF =>
      if c != LF then Fail(LFExpected, out)
      else
        var state := if core.chunkSize > 0 then ChunkData
                     else if core.trailer != {} then TrailerKeyBefore
                     else TailCR;
        Ok(core.(state := state), out, Next)
    case ChunkDataCR =>
      if c == CR then Ok(core.(state := ChunkDataLF), out, Keep) else Fail(CRExpected, out)
    case ChunkDataLF =>
      if c == LF then Ok(core.(state := ChunkSizeBefore), out, Keep) else Fail(LFExpected, out)
    case TailCR =>
      if c == CR then Ok(core.(state := TailLF), out, Keep) else Fail(CRExpected, out)
    case TailLF =>
      if c == LF then Ok(Reset(core), Finish(env, out), Next) else Fail(LFExpected, out)
  }

  predicate InTrailer(s: State)
  {
    s.TrailerValueLF? || s.TrailerKeyBefore? || s.TrailerKey? || s.TrailerValueBefore? || s.TrailerValue?
  }

  function EmitTrailer(core: Core, out: Out, w: Str): (o: Outcome)
  {
    Ok(core.(headerKey := [], headerValue := [], state := TrailerValueLF),
       Record(out, OnTrailerHeader(core.headerKey, OrElse(core.headerValue, w))), Next)
  }

  function TrailerStep(env: Env, core: Core, out: Out, w: Str, c: byte): (o: Outcome)
    requires InTrailer(core.state)
  {
    match core.state
    case TrailerValueLF =>
      if c == LF then Ok(core.(state := TrailerKeyBefore), out, Here) else Fail(LFExpected, out)
    case TrailerKeyBefore =>
      if IsToken(c) then Ok(core.(state := TrailerKey), out, Here)
      else if c == CR then
        (if core.trailer != {} then Fail(TrailerExpected, out) else Ok(core.(state := TailLF), out, Next))
      else Ok(core, out, Keep)
    case TrailerKey =>
      if c == SP then Ok(core.(headerKey := OrElse(core.headerKey, Canonical(env, w))), out, Keep)
      else if c == COLON then
        Ok(core.(headerKey := OrElse(core.headerKey, Canonical(env, w)), state := TrailerValueBefore), out, Next)
      else if IsToken(c) then Ok(core, out, Keep)
      else Fail(InvalidCharInHeader, out)
    case TrailerValueBefore =>
      if c == SP then Ok(core, out, Keep)
      else if c == CR then EmitTrailer(core, out, w)
      else Ok(core.(state := TrailerValue), out, Here)
    case TrailerValue =>
      if c == SP then Ok(core.(headerValue := OrElse(core.headerValue, w)), out, Keep)
      else if c == CR then
        (if core.trailer == {} then Fail(InvalidTrailer, out)
         else EmitTrailer(core.(trailer := core.trailer - {core.headerKey}), out, w))
      else Ok(core, out, Keep)
  }

  // ---- the machine ----

  predicate InBody(s: State) { s.BodyContentLength? || s.ChunkData? }

  function BodyLength(core: Core): (n: int)
  {
    if core.state.BodyContentLength? then core.contentLength else core.chunkSize
  }

  function Step(env: Env, core: Core, out: Out, w: Str, c: byte): (o: Outcome)
    requires !InBody(core.state)
  {
    if core.state.Closed? then Fail(NetClosed, out)
    else if InRequestLine(core.state) then RequestLineStep(env, core, out, w, c)
    else if InStatusLine(core.state) then StatusLineStep(env, core, out, w, c)
    else if InHeader(core.state) then HeaderStep(env, core, out, w, c)
    else if InChunk(core.state) then ChunkStep(env, core, out, w, c)
    else TrailerStep(env, core, out, w, c)
  }

  /** A body, or one chunk of it, is complete. */
  function BodyDone(env: Env, core: Core, body: Str, out: Out): (m: Machine)
  {
    var out' := Record(out, OnBody(body));
    match Reject(env, out'.cur)
    case Some(e) => Dead(Rejected(e), out')
    case None =>
      if core.state.BodyContentLength? then Live(Reset(core), [], Finish(env, out'))
      else Live(core.(state := ChunkDataCR), [], out')
  }

  function Marked(mark: Mark, w: Str, c: byte): (r: Str)
  {
    match mark
    case Keep => w + [c]
    case Here => [c]
    case Next => []
  }

  function Feed(env: Env, m: Machine, c: byte): (r: Machine)
  {
    if m.Dead? then m
    else if m.out.upgraded then Live(m.core, m.pending, m.out.(handed := m.out.handed + [c]))
    else if InBody(m.core.state) then
      var body := m.pending + [c];
      if |body| < BodyLength(m.core) then m.(pending := body) else BodyDone(env, m.core, body, m.out)
    else
      match Step(env, m.core, m.out, m.pending, c)
      case Fail(e, out) => Dead(e, out)
      case Ok(core, out, mark) => Live(core, Marked(mark, m.pending, c), out)
  }

  function FeedAll(env: Env, m: Machine, s: Str): (r: Machine)
  {
    if s == [] then m else Feed(env, FeedAll(env, m, s[..|s| - 1]), s[|s| - 1])
  }

  // ---- laws of the machine ----

  lemma FeedNothing(env: Env, m: Machine)
    ensures FeedAll(env, m, []) == m
  {
  }

  lemma FeedAllOne(env: Env, m: Machine, s: Str, c: byte)
    ensures FeedAll(env, m, s + [c]) == Feed(env, FeedAll(env, m, s), c)
  {
    assert (s + [c])[..|s|] == s;
  }

  lemma {:induction false} FeedAllAppend(env: Env, m: Machine, a: Str, b: Str)
    ensures FeedAll(env, m, a + b) == FeedAll(env, FeedAll(env, m, a), b)
  {
    if b == [] {
      assert a + b == a;
    } else {
      var k := |b| - 1;
      assert a + b == (a + b[..k]) + [b[k]];
      FeedAllOne(env, m, a + b[..k], b[k]);
      FeedAllAppend(env, m, a, b[..k]);
    }
  }

  lemma {:induction false} DeadStays(env: Env, m: Machine, s: Str)
    requires m.Dead?
    ensures FeedAll(env, m, s) == m
  {
    if s != [] { DeadStays(env, m, s[..|s| - 1]); }
  }

  /** After an upgrade every byte goes to the new protocol, in order. */
  lemma {:induction false} UpgradedHands(env: Env, m: Machine, s: Str)
    requires m.Live? && m.out.upgraded
    ensures FeedAll(env, m, s) == Live(m.core, m.pending, m.out.(handed := m.out.handed + s))
  {
    if s == [] {
      assert m.out.handed + s == m.out.handed;
    } else {
      var k := |s| - 1;
      UpgradedHands(env, m, s[..k]);
      assert s == s[..k] + [s[k]];
      assert m.out.handed + s == m.out.handed + s[..k] + [s[k]];
    }
  }

  /** A body in progress is shorter than announced, and an upgraded parser holds no bytes. */
  predicate WellFormed(m: Machine)
  {
    m.Live? ==>
      && (InBody(m.core.state) ==> |m.pending| < BodyLength(m.core))
      && (m.out.upgraded ==> m.pending == [] && !InBody(m.core.state) && m.out.cur == [])
      && (!m.out.upgraded ==> m.out.handed == [])
  }

  /** What a byte outside a body may do: enter a body with nothing pending, or finish a message. */
  predicate Orderly(o: Outcome)
  {
    o.Ok? ==>
      && (InBody(o.core.state) ==> o.mark.Next? && 0 < BodyLength(o.core))
      && (o.out.upgraded ==> o.mark.Next? && !InBody(o.core.state) && o.out.cur == [])
      && o.out.handed == []
      && !o.core.state.Closed?
  }

  lemma StepOrderly(env: Env, core: Core, out: Out, w: Str, c: byte)
    requires !InBody(core.state) && !out.upgraded && out.handed == []
    ensures Orderly(Step(env, core, out, w, c))
  {
    if InRequestLine(core.state) {
      RequestLineOrderly(env, core, out, w, c);
    } else if InStatusLine(core.state) {
      StatusLineOrderly(env, core, out, w, c);
    } else if InHeader(core.state) {
      HeaderOrderly(env, core, out, w, c);
    } else if InChunk(core.state) {
      ChunkOrderly(env, core, out, w, c);
    } else if InTrailer(core.state) {
      TrailerOrderly(env, core, out, w, c);
    }
  }

  lemma RequestLineOrderly(env: Env, core: Core, out: Out, w: Str, c: byte)
    requires InRequestLine(core.state) && !out.upgraded && out.handed == []
    ensures Orderly(RequestLineStep(env, core, out, w, c))
  {
  }

  lemma StatusLineOrderly(env: Env, core: Core, out: Out, w: Str, c: byte)
    requires InStatusLine(core.state) && !out.upgraded && out.handed == []
    ensures Orderly(StatusLineStep(env, core, out, w, c))
  {
  }

  lemma HeaderOrderly(env: Env, core: Core, out: Out, w: Str, c: byte)
    requires InHeader(core.state) && !out.upgraded && out.handed == []
    ensures Orderly(HeaderStep(env, core, out, w, c))
  {
  }

  lemma ChunkOrderly(env: Env, core: Core, out: Out, w: Str, c: byte)
    requires InChunk(core.state) && !out.upgraded && out.handed == []
    ensures Orderly(ChunkStep(env, core, out, w, c))
  {
  }

  lemma TrailerOrderly(env: Env, core: Core, out: Out, w: Str, c: byte)
    requires InTrailer(core.state) && !out.upgraded && out.handed == []
    ensures Orderly(TrailerStep(env, core, out, w, c))
  {
  }

  lemma FeedWellFormed(env: Env, m: Machine, c: byte)
    requires WellFormed(m)
    ensures WellFormed(Feed(env, m, c))
  {
    if m.Live? && !m.out.upgraded && !InBody(m.core.state) {
      StepOrderly(env, m.core, m.out, m.pending, c);
    }
  }

  predicate Open(m: Machine) { m.Live? ==> !m.core.state.Closed? }

  /** Bytes never close the parser, and never add more to the pending token than they bring. */
  lemma {:induction false} FeedAllOpen(env: Env, m: Machine, s: Str)
    requires WellFormed(m) && Open(m)
    ensures Open(FeedAll(env, m, s))
    ensures m.Live? && FeedAll(env, m, s).Live? ==>
              |FeedAll(env, m, s).pending| <= |m.pending| + |s|
  {
    if s != [] {
      var k := |s| - 1;
      var before := FeedAll(env, m, s[..k]);
      FeedAllOpen(env, m, s[..k]);
      FeedAllWellFormed(env, m, s[..k]);
      if m.Dead? {
        DeadStays(env, m, s[..k]);
      } else if before.Live? && !before.out.upgraded && !InBody(before.core.state) {
        hide Step;
        StepOrderly(env, before.core, before.out, before.pending, s[k]);
      }
    }
  }

  lemma {:induction false} FeedAllWellFormed(env: Env, m: Machine, s: Str)
    requires WellFormed(m)
    ensures WellFormed(FeedAll(env, m, s))
  {
    if s != [] {
      FeedAllWellFormed(env, m, s[..|s| - 1]);
      FeedWellFormed(env, FeedAll(env, m, s[..|s| - 1]), s[|s| - 1]);
    }
  }

  /** Inside a body nothing happens until the last byte, which delivers it whole. */
  lemma {:induction false} BodyBytes(env: Env, m: Machine, s: Str)
    requires m.Live? && !m.out.upgraded && InBody(m.core.state)
    requires 0 < |s| && |m.pending| + |s| <= BodyLength(m.core)
    ensures FeedAll(env, m, s) ==
            if |m.pending| + |s| < BodyLength(m.core) then m.(pending := m.pending + s)
            else BodyDone(env, m.core, m.pending + s, m.out)
  {
    var k := |s| - 1;
    assert s == s[..k] + [s[k]];
    if k > 0 { BodyBytes(env, m, s[..k]); }
    assert m.pending + s == m.pending + s[..k] + [s[k]];
    assert FeedAll(env, m, s[..k]) == m.(pending := m.pending + s[..k]);
  }
}
