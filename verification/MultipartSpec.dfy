/** The multipart/x-mixed-replace parser as a transition system on values:
    one `Advance` per turn of the feed loop, and `Run` until it needs more. */
module MultipartSpec {
  import opened Bytes
  import opened HeaderBlock

  datatype Part = Part(headers: HeaderMap, body: string)

  datatype Error =
    | EmptyBoundary
    | NoBoundary
    | BoundaryLineTooLong
    | HeadersTooLong
    | HeaderLineTooLong
    | BadContentLength
    | PartTooLong

  /** What `_normalize_delimiter` returns: never empty. */
  type Delimiter = d: string | "--" <= d witness "--"

  datatype Config = Config(delim: Delimiter, maxHeaderLine: int, maxHeadersTotal: int,
                           maxGap: int, maxPart: int)

  datatype Phase =
    | SeekBoundary
    | Headers
    | BodyKnown(headers: HeaderMap, needed: nat)
    | BodyScan(headers: HeaderMap)
    | Done

  datatype State = State(buf: string, phase: Phase)

  datatype Step =
    | NeedMore(next: State)
    | Progress(next: State)
    | Emit(part: Part, next: State)
    | Fail(error: Error, next: State)

  const START := State("", SeekBoundary)

  function NormalizeDelimiter(boundary: string): Delimiter {
    if "--" <= boundary then boundary else "--" + boundary
  }

  /** A token given raw or with its dashes stands for the same delimiter. */
  lemma DelimiterOfEither(token: string)
    requires !("--" <= token)
    ensures NormalizeDelimiter(token) == NormalizeDelimiter("--" + token) == "--" + token
  {
  }

  // ---- one turn of the loop ----------------------------------------------

  function Advance(cfg: Config, s: State): Step {
    match s.phase
    case SeekBoundary => AdvanceSeek(cfg, s.buf)
    case Headers => AdvanceHeaders(cfg, s.buf)
    case BodyKnown(h, n) => AdvanceKnown(h, n, s.buf)
    case BodyScan(h) => AdvanceScan(cfg, h, s.buf)
    case Done => NeedMore(s)
  }

  function AdvanceSeek(cfg: Config, buf: string): Step {
    var here := State(buf, SeekBoundary);
    match Find(buf, cfg.delim, 0)
    case None => if |buf| > cfg.maxGap then Fail(NoBoundary, here) else NeedMore(here)
    case Some(idx) =>
      var after := idx + |cfg.delim|;
      if |buf| < after + 2 then NeedMore(here)
      else if buf[after..after + 2] == "--" then NeedMore(State("", Done))
      else
        match Find(buf, "\n", after)
        case None =>
          if |buf| - after > cfg.maxHeaderLine then Fail(BoundaryLineTooLong, here)
          else NeedMore(here)
        case Some(nl) => Progress(State(buf[nl + 1..], Headers))
  }

  datatype Terminator = Terminator(at: nat, len: nat)

  /** The earlier of a CRLF CRLF and an LF LF terminator. */
  function HeaderTerminator(buf: string): (r: Option<Terminator>)
    ensures r.Some? ==> r.value.len in {2, 4} && r.value.at + r.value.len <= |buf|
  {
    match (Find(buf, "\r\n\r\n", 0), Find(buf, "\n\n", 0))
    case (None, None) => None
    case (Some(c), None) => Some(Terminator(c, 4))
    case (None, Some(l)) => Some(Terminator(l, 2))
    case (Some(c), Some(l)) => Some(if c <= l then Terminator(c, 4) else Terminator(l, 2))
  }

  function AdvanceHeaders(cfg: Config, buf: string): Step {
    match HeaderTerminator(buf)
    case None =>
      var here := State(buf, Headers);
      if |buf| > cfg.maxHeadersTotal then Fail(HeadersTooLong, here) else NeedMore(here)
    case Some(t) => EndHeaders(cfg, buf[..t.at], buf[t.at + t.len..])
  }

  /** The header block is complete; `rest` is the buffer after it. */
  function EndHeaders(cfg: Config, block: string, rest: string): Step {
    match Parse(block, cfg.maxHeaderLine)
    case None => Fail(HeaderLineTooLong, State(rest, Headers))
    case Some(headers) =>
      match ContentLength(headers, cfg.maxPart)
      case Illegal => Fail(BadContentLength, State(rest, Headers))
      case Absent => Progress(State(rest, BodyScan(headers)))
      case Exactly(n) => Progress(State(rest, BodyKnown(headers, n)))
  }

  function AdvanceKnown(headers: HeaderMap, needed: nat, buf: string): Step {
    if |buf| < needed then NeedMore(State(buf, BodyKnown(headers, needed)))
    else Emit(Part(headers, buf[..needed]), State(buf[needed..], SeekBoundary))
  }

  // ---- line-anchored delimiters (RFC 2046, section 5.1.1) ----------------

  /** A delimiter at `i` that starts the buffer or follows a line ending. */
  predicate Anchored(buf: string, delim: string, i: int) {
    OccursAt(buf, delim, i) && (i == 0 || buf[i - 1] == '\n')
  }

  /** Both bytes needed to judge what follows a delimiter at `i` are there. */
  predicate Judgeable(buf: string, delim: string, i: int) {
    i + |delim| + 2 <= |buf|
  }

  /** A delimiter line: anchored, and followed by `--`, CRLF or LF. */
  predicate DelimiterLine(buf: string, delim: string, i: int) {
    Anchored(buf, delim, i) && Judgeable(buf, delim, i) &&
    var after := i + |delim|;
    EndsLine(buf[after], buf[after + 1])
  }

  /** The two bytes after a delimiter: `--`, CRLF, or LF and anything. */
  predicate EndsLine(a: char, b: char) {
    (a == '-' && b == '-') || (a == '\r' && b == '\n') || a == '\n'
  }

  datatype Scan = Found(at: nat) | Undecided | Nothing

  /** No delimiter line starts in [from, to). */
  predicate NoLineIn(buf: string, delim: string, from: nat, to: nat) {
    forall j :: from <= j < to ==> !DelimiterLine(buf, delim, j)
  }

  predicate FirstDelimiterLine(buf: string, delim: string, i: nat) {
    DelimiterLine(buf, delim, i) && NoLineIn(buf, delim, 0, i)
  }

  /** Every anchored delimiter from `from` on can be judged. */
  predicate AllJudgeable(buf: string, delim: string, from: nat) {
    forall j :: from <= j < |buf| && Anchored(buf, delim, j) ==> Judgeable(buf, delim, j)
  }

  /** What scanning from `from` finds, tried delimiter by delimiter. */
  function ScanFrom(buf: string, delim: Delimiter, from: nat): (r: Scan)
    ensures r.Found? ==> from <= r.at && r.at + |delim| + 2 <= |buf|
    decreases |buf| - from
  {
    match Find(buf, delim, from)
    case None => Nothing
    case Some(idx) =>
      if !Anchored(buf, delim, idx) then ScanFrom(buf, delim, idx + 1)
      else if !Judgeable(buf, delim, idx) then Undecided
      else if !DelimiterLine(buf, delim, idx) then ScanFrom(buf, delim, idx + 1)
      else Found(idx)
  }

  /** Skipping to the next occurrence skips no delimiter line, judged or not. */
  lemma FindSkips(buf: string, delim: Delimiter, from: nat)
    ensures match Find(buf, delim, from)
            case None => NoLineIn(buf, delim, from, |buf|) && AllJudgeable(buf, delim, from)
            case Some(idx) =>
              NoLineIn(buf, delim, from, idx)
              && (AllJudgeable(buf, delim, from) <==> AllJudgeable(buf, delim, idx))
  {
    FindMeans(buf, delim, from);
  }

  lemma SkipOne(buf: string, delim: Delimiter, from: nat, idx: nat, to: nat)
    requires from <= idx < |buf| && NoLineIn(buf, delim, from, idx)
    requires !DelimiterLine(buf, delim, idx)
    ensures NoLineIn(buf, delim, idx + 1, to) ==> NoLineIn(buf, delim, from, to)
    ensures Anchored(buf, delim, idx) && !Judgeable(buf, delim, idx) ==>
              NoLineIn(buf, delim, from, |buf|) && !AllJudgeable(buf, delim, idx)
    ensures !Anchored(buf, delim, idx) || Judgeable(buf, delim, idx) ==>
              (AllJudgeable(buf, delim, idx) <==> AllJudgeable(buf, delim, idx + 1))
  {
  }

  /** Where the first delimiter line from `from` on is, or whether one may
      still be arriving. */
  predicate ScanMeans(buf: string, delim: string, from: nat, r: Scan) {
    match r
    case Found(i) => DelimiterLine(buf, delim, i) && NoLineIn(buf, delim, from, i)
    case Undecided => NoLineIn(buf, delim, from, |buf|) && !AllJudgeable(buf, delim, from)
    case Nothing => NoLineIn(buf, delim, from, |buf|) && AllJudgeable(buf, delim, from)
  }

  lemma MeansEarlier(buf: string, delim: Delimiter, from: nat, idx: nat, r: Scan)
    requires from <= idx < |buf| && NoLineIn(buf, delim, from, idx)
    requires AllJudgeable(buf, delim, from) <==> AllJudgeable(buf, delim, idx)
    requires !DelimiterLine(buf, delim, idx) && (!Anchored(buf, delim, idx) || Judgeable(buf, delim, idx))
    requires ScanMeans(buf, delim, idx + 1, r)
    ensures ScanMeans(buf, delim, from, r)
  {
    SkipOne(buf, delim, from, idx, if r.Found? then r.at else |buf|);
  }

  lemma {:induction false} ScanFromMeaning(buf: string, delim: Delimiter, from: nat)
    ensures ScanMeans(buf, delim, from, ScanFrom(buf, delim, from))
    decreases |buf| - from
  {
    hide Find, OccursAt;
    FindSkips(buf, delim, from);
    var found := Find(buf, delim, from);
    if found.Some? {
      var idx := found.value;
      if DelimiterLine(buf, delim, idx) {
        assert ScanFrom(buf, delim, from) == Found(idx);
      } else if !Anchored(buf, delim, idx) || Judgeable(buf, delim, idx) {
        ScanFromMeaning(buf, delim, idx + 1);
        assert ScanFrom(buf, delim, from) == ScanFrom(buf, delim, idx + 1);
        MeansEarlier(buf, delim, from, idx, ScanFrom(buf, delim, idx + 1));
      } else {
        SkipOne(buf, delim, from, idx, |buf|);
      }
    }
  }

  /** The body before a delimiter at `idx`, one line ending removed. */
  function BodyEnd(buf: string, idx: nat): (e: nat)
    requires idx <= |buf|
    ensures e <= idx
  {
    if idx >= 2 && buf[idx - 2..idx] == "\r\n" then idx - 2
    else if idx >= 1 && buf[idx - 1..idx] == "\n" then idx - 1
    else idx
  }

  function AdvanceScan(cfg: Config, headers: HeaderMap, buf: string): Step {
    var here := State(buf, BodyScan(headers));
    match ScanFrom(buf, cfg.delim, 0)
    case Found(idx) =>
      Emit(Part(headers, buf[..BodyEnd(buf, idx)]), State(buf[idx..], SeekBoundary))
    case Undecided => NeedMore(here)
    case Nothing => if |buf| > cfg.maxPart then Fail(PartTooLong, here) else NeedMore(here)
  }

  // ---- feeding -----------------------------------------------------------

  /** Emitting a zero-length body keeps the buffer, so the phase counts too. */
  function Rank(p: Phase): nat {
    if p.BodyKnown? || p.BodyScan? then 1 else 0
  }

  datatype Outcome = Outcome(parts: seq<Part>, next: State, error: Option<Error>)

  function Prepend(parts: seq<Part>, o: Outcome): Outcome {
    o.(parts := parts + o.parts)
  }

  /** Turns of the loop until it needs more input or the stream is refused. */
  function Run(cfg: Config, s: State): Outcome
    decreases |s.buf|, Rank(s.phase)
  {
    match Advance(cfg, s)
    case NeedMore(n) => Outcome([], n, None)
    case Fail(e, n) => Outcome([], n, Some(e))
    case Progress(n) => Run(cfg, n)
    case Emit(p, n) => Prepend([p], Run(cfg, n))
  }

  function Append(s: State, data: string): State {
    if s.phase.Done? then s else State(s.buf + data, s.phase)
  }

  function Feed(cfg: Config, s: State, data: string): Outcome {
    Run(cfg, Append(s, data))
  }

  /** Chunk after chunk, stopping at the first refused one. */
  function FeedAll(cfg: Config, s: State, chunks: seq<string>): Outcome
    decreases |chunks|
  {
    if chunks == [] then Outcome([], s, None)
    else
      var o := Feed(cfg, s, chunks[0]);
      if o.error.Some? then o else Prepend(o.parts, FeedAll(cfg, o.next, chunks[1..]))
  }
}
