/** The streams that the parser takes to their end, as a grammar: preamble,
    parts, closing delimiter, with either line ending wherever both are legal. */
module MultipartGrammar {
  import opened Bytes
  import opened HeaderBlock
  import opened MultipartSpec
  import opened MultipartConfluence

  /** `gap`, delimiter, `pad`, LF, `block`, `end`, `body`, `eol`. */
  datatype Section = Section(gap: string, pad: string, block: string, end: string, body: string, eol: string)

  /** The sections, then `gap`, the closing delimiter and anything. */
  datatype Stream = Stream(sections: seq<Section>, gap: string, rest: string)

  function Text(cfg: Config, s: Stream): string
    decreases |s.sections|
  {
    if s.sections == [] then s.gap + cfg.delim + "--" + s.rest
    else Head(cfg, s.sections[0]) + s.sections[0].body + s.sections[0].eol + Text(cfg, Tail(s))
  }

  function Tail(s: Stream): Stream
    requires s.sections != []
  {
    s.(sections := s.sections[1..])
  }

  /** Up to the start of the body. */
  function Head(cfg: Config, x: Section): string {
    x.gap + cfg.delim + (x.pad + "\n" + (x.block + x.end))
  }

  /** The first delimiter in what follows is the one right after the gap. */
  predicate ClearOf(cfg: Config, gap: string) {
    forall j :: 0 <= j < |gap| ==> !OccursAt(gap + cfg.delim, cfg.delim, j)
  }

  predicate IsEnd(end: string) { end == "\r\n\r\n" || end == "\n\n" }

  /** The block ends at this terminator and not before. */
  predicate EndsFirst(block: string, end: string) {
    forall j :: 0 <= j < |block| ==>
      !OccursAt(block + end, "\r\n\r\n", j) && !OccursAt(block + end, "\n\n", j)
  }

  /** The delimiter line ends in LF, and does not close the stream. */
  predicate IsPad(pad: string) {
    (forall i :: 0 <= i < |pad| ==> pad[i] != '\n') && !("--" <= pad)
  }

  /** A scanned body up to the line ending before the next delimiter line. */
  predicate ScannedBody(cfg: Config, body: string, eol: string) {
    && (eol == "\r\n" || (eol == "\n" && (body == "" || body[|body| - 1] != '\r')) || (eol == "" && body == ""))
    && forall j :: 0 <= j < |body| ==> !DelimiterLine(body + eol + cfg.delim, cfg.delim, j)
  }

  /** Right at a delimiter that is legal after a scanned body. */
  predicate AtLine(s: Stream) {
    if s.sections == [] then s.gap == "" else s.sections[0].gap == "" && s.sections[0].pad in {"", "\r"}
  }

  predicate Follows(cfg: Config, x: Section, next: Stream) {
    match ContentLength(HeadersIn(cfg, x), cfg.maxPart)
    case Exactly(n) => n == |x.body| && x.eol == ""
    case Absent => ScannedBody(cfg, x.body, x.eol) && AtLine(next)
    case Illegal => false
  }

  function HeadersIn(cfg: Config, x: Section): HeaderMap {
    match Parse(x.block, cfg.maxHeaderLine)
    case Some(h) => h
    case None => map[]
  }

  predicate WellFormed(cfg: Config, s: Stream)
    decreases |s.sections|
  {
    if s.sections == [] then ClearOf(cfg, s.gap)
    else
      var x := s.sections[0];
      && ClearOf(cfg, x.gap) && IsPad(x.pad)
      && IsEnd(x.end) && EndsFirst(x.block, x.end) && Parse(x.block, cfg.maxHeaderLine).Some?
      && Follows(cfg, x, Tail(s)) && WellFormed(cfg, Tail(s))
  }

  function PartsIn(cfg: Config, s: Stream): seq<Part>
    decreases |s.sections|
  {
    if s.sections == [] then []
    else [Part(HeadersIn(cfg, s.sections[0]), s.sections[0].body)] + PartsIn(cfg, Tail(s))
  }

  // ---- the delimiter -----------------------------------------------------

  lemma FirstAfterGap(cfg: Config, gap: string, rest: string)
    requires ClearOf(cfg, gap)
    ensures Find(gap + cfg.delim + rest, cfg.delim, 0) == Some(|gap|)
  {
    hide OccursAt, Find;
    var q := gap + cfg.delim + rest;
    DelimiterIsThere(cfg, gap, rest);
    forall j | 0 <= j < |gap| ensures !OccursAt(q, cfg.delim, j) {
      OccursExtends(gap + cfg.delim, rest, cfg.delim, j);
    }
    FindIs(q, cfg.delim, 0, |gap|);
  }

  lemma DelimiterIsThere(cfg: Config, gap: string, rest: string)
    ensures OccursAt(gap + cfg.delim + rest, cfg.delim, |gap|)
  {
  }

  lemma SeekReads(cfg: Config, gap: string, pad: string, rest: string)
    requires ClearOf(cfg, gap) && IsPad(pad) && rest != ""
    ensures AdvanceSeek(cfg, gap + cfg.delim + (pad + "\n" + rest)) == Progress(State(rest, Headers))
  {
    hide OccursAt, Find, ClearOf, AdvanceSeek;
    var tail := pad + "\n" + rest;
    var q, after := gap + cfg.delim + tail, |gap| + |cfg.delim|;
    var nl := after + |pad|;
    FirstAfterGap(cfg, gap, tail);
    LineFeedAt(gap + cfg.delim, pad, rest);
    FindIs(q, "\n", after, nl);
    assert q[nl + 1..] == rest;
    assert q[after..after + 2] == tail[..2];
    NotClosing(pad, rest);
    hide IsPad;
    SeekIs(cfg, q, |gap|, nl);
  }

  lemma NotClosing(pad: string, rest: string)
    requires IsPad(pad) && rest != ""
    ensures (pad + "\n" + rest)[..2] != "--"
  {
    var t := pad + "\n" + rest;
    assert t[..2] == [t[0], t[1]];
    assert |pad| >= 2 ==> pad[..2] == t[..2];
  }

  lemma LineFeedAt(before: string, pad: string, rest: string)
    requires forall i :: 0 <= i < |pad| ==> pad[i] != '\n'
    ensures var q := before + (pad + "\n" + rest);
            OccursAt(q, "\n", |before| + |pad|) && NoneIn(q, "\n", |before|, |before| + |pad|)
  {
    var q := before + (pad + "\n" + rest);
    forall j | |before| <= j < |before| + |pad| ensures !OccursAt(q, "\n", j) {
      assert q[j..j + 1] == [pad[j - |before|]];
    }
    var n := |before| + |pad|;
    assert q[n..n + 1] == "\n";
  }

  lemma SeekCloses(cfg: Config, gap: string, rest: string)
    requires ClearOf(cfg, gap)
    ensures AdvanceSeek(cfg, gap + cfg.delim + "--" + rest) == NeedMore(State("", Done))
  {
    hide Find, ClearOf;
    var q, after := gap + cfg.delim + "--" + rest, |gap| + |cfg.delim|;
    assert q == gap + cfg.delim + ("--" + rest);
    FirstAfterGap(cfg, gap, "--" + rest);
    assert q[after..after + 2] == "--";
  }

  // ---- the header block --------------------------------------------------

  lemma EndOccurs(block: string, end: string, rest: string)
    requires IsEnd(end)
    ensures OccursAt(block + end + rest, end, |block|)
    ensures end == "\n\n" ==> !OccursAt(block + end + rest, "\r\n\r\n", |block|)
    ensures end == "\r\n\r\n" ==> !OccursAt(block + end + rest, "\n\n", |block|)
  {
    var q, n := block + end + rest, |block|;
    assert q[n] == end[0] && q[n + 1] == end[1];
    assert q[n..n + |end|] == end;
    if n + 4 <= |q| { assert q[n..n + 4][0] == q[n]; }
    assert q[n..n + 2] == [q[n], q[n + 1]];
  }

  /** The terminator is the earlier of the two, wherever it stands. */
  lemma TerminatorMeans(block: string, end: string, rest: string)
    requires IsEnd(end) && EndsFirst(block, end)
    ensures HeaderTerminator(block + end + rest) == Some(Terminator(|block|, |end|))
  {
    hide OccursAt, Find;
    var q, n := block + end + rest, |block|;
    EndOccurs(block, end, rest);
    NoneEarlier(block, end, rest);
    FindIs(q, end, 0, n);
    if end == "\n\n" {
      LaterOnly(q, "\r\n\r\n", n);
    } else {
      LaterOnly(q, "\n\n", n);
    }
  }

  lemma NoneEarlier(block: string, end: string, rest: string)
    requires IsEnd(end) && EndsFirst(block, end)
    ensures NoneIn(block + end + rest, "\r\n\r\n", 0, |block|) && NoneIn(block + end + rest, "\n\n", 0, |block|)
  {
    var p, q := block + end, block + end + rest;
    forall j | 0 <= j < |block| ensures !OccursAt(q, "\r\n\r\n", j) && !OccursAt(q, "\n\n", j) {
      OccursExtends(p, rest, "\n\n", j);
      NoLongerEarlier(block, end, rest, j);
    }
  }

  /** A CRLF CRLF that starts in the block lies before the end of it. */
  lemma NoLongerEarlier(block: string, end: string, rest: string, j: nat)
    requires IsEnd(end) && EndsFirst(block, end) && j < |block|
    ensures !OccursAt(block + end + rest, "\r\n\r\n", j)
  {
    var p, q := block + end, block + end + rest;
    OccursExtends(p, rest, "\r\n\r\n", j);
    assert q[|block| + 1] == end[1];
    if j + 4 <= |q| {
      assert q[j..j + 4] == [q[j], q[j + 1], q[j + 2], q[j + 3]];
    }
  }

  lemma LaterOnly(q: string, pat: string, n: nat)
    requires NoneIn(q, pat, 0, n) && !OccursAt(q, pat, n)
    ensures Find(q, pat, 0).Some? ==> Find(q, pat, 0).value > n
  {
    hide OccursAt, Find;
    FindMeans(q, pat, 0);
  }

  lemma HeadersRead(cfg: Config, x: Section, rest: string)
    requires IsEnd(x.end) && EndsFirst(x.block, x.end)
    ensures AdvanceHeaders(cfg, x.block + x.end + rest) == EndHeaders(cfg, x.block, rest)
  {
    hide HeaderTerminator, EndHeaders;
    TerminatorMeans(x.block, x.end, rest);
    var q := x.block + x.end + rest;
    assert q[..|x.block|] == x.block && q[|x.block| + |x.end|..] == rest;
  }

  // ---- a scanned body ----------------------------------------------------

  /** One line ending before the delimiter belongs to it, CRLF or LF. */
  lemma BodyEndMeans(cfg: Config, body: string, eol: string, rest: string)
    requires ScannedBody(cfg, body, eol)
    ensures BodyEnd(body + eol + rest, |body| + |eol|) == |body|
  {
    var q, n := body + eol + rest, |body| + |eol|;
    if n >= 1 { assert q[n - 1..n] == [q[n - 1]]; }
    if n >= 2 { assert q[n - 2..n] == [q[n - 2], q[n - 1]]; }
    assert eol != "" ==> q[n - 1] == eol[|eol| - 1];
    assert eol == "\r\n" ==> q[n - 2] == eol[0];
    assert eol == "\n" && body != "" ==> q[n - 2] == body[|body| - 1];
  }

  lemma FirstLineHere(cfg: Config, body: string, eol: string, next: string)
    requires ScannedBody(cfg, body, eol) && |next| >= 2 && EndsLine(next[0], next[1])
    ensures FirstDelimiterLine(body + eol + cfg.delim + next, cfg.delim, |body| + |eol|)
  {
    var p, n := body + eol + cfg.delim, |body| + |eol|;
    var q := p + next;
    LineHere(cfg, body + eol, next);
    forall j | 0 <= j < n ensures !DelimiterLine(q, cfg.delim, j) {
      if j < |body| {
        ShortLineExtends(cfg, p, next, j);
      } else {
        EolIsNoDelimiter(cfg, body, eol, next, j);
      }
    }
  }

  /** A delimiter line that p can judge is one of p. */
  lemma ShortLineExtends(cfg: Config, p: string, next: string, j: nat)
    requires j + |cfg.delim| + 2 <= |p|
    ensures DelimiterLine(p + next, cfg.delim, j) <==> DelimiterLine(p, cfg.delim, j)
  {
    hide DelimiterLine;
    DelimiterLineExtends(p, next, cfg.delim, j);
  }

  lemma LineHere(cfg: Config, before: string, next: string)
    requires before == "" || before[|before| - 1] == '\n'
    requires |next| >= 2 && EndsLine(next[0], next[1])
    ensures DelimiterLine(before + cfg.delim + next, cfg.delim, |before|)
  {
    var q, n := before + cfg.delim + next, |before|;
    assert q[n..n + |cfg.delim|] == cfg.delim;
    assert n > 0 ==> q[n - 1] == before[n - 1];
    assert q[n + |cfg.delim|] == next[0] && q[n + |cfg.delim| + 1] == next[1];
  }

  lemma EolIsNoDelimiter(cfg: Config, body: string, eol: string, next: string, j: nat)
    requires eol in {"", "\n", "\r\n"} && |body| <= j < |body| + |eol|
    ensures !DelimiterLine(body + eol + cfg.delim + next, cfg.delim, j)
  {
    var q := body + eol + cfg.delim + next;
    assert q[j] == eol[j - |body|];
    if j + |cfg.delim| <= |q| {
      assert q[j..j + |cfg.delim|][0] == q[j];
    }
  }

  /** The scan reads the body up to its line ending, and stops at the delimiter. */
  lemma ScanReads(cfg: Config, h: HeaderMap, body: string, eol: string, next: string)
    requires ScannedBody(cfg, body, eol) && |next| >= 2 && EndsLine(next[0], next[1])
    ensures AdvanceScan(cfg, h, body + eol + (cfg.delim + next))
         == Emit(Part(h, body), State(cfg.delim + next, SeekBoundary))
  {
    hide FirstDelimiterLine, ScannedBody, BodyEnd, ScanFrom, AdvanceScan, EndsLine;
    var q, n := body + eol + (cfg.delim + next), |body| + |eol|;
    assert q == body + eol + cfg.delim + next;
    FirstLineHere(cfg, body, eol, next);
    ScanFindsFirst(q, cfg.delim, n);
    BodyEndMeans(cfg, body, eol, cfg.delim + next);
    Rejoined(body, eol, cfg.delim + next);
    ScanStops(cfg, h, q, n);
  }

  lemma Rejoined(a: string, b: string, c: string)
    ensures (a + b + c)[..|a|] == a && (a + b + c)[|a| + |b|..] == c
  {
  }

  lemma ScanStops(cfg: Config, h: HeaderMap, buf: string, n: nat)
    requires n <= |buf| && ScanFrom(buf, cfg.delim, 0) == Found(n)
    ensures AdvanceScan(cfg, h, buf) == Emit(Part(h, buf[..BodyEnd(buf, n)]), State(buf[n..], SeekBoundary))
  {
    hide ScanFrom, BodyEnd;
  }

  // ---- a well-formed stream is read to its end ---------------------------

  /** How such a stream goes on right after a scanned body. */
  lemma AtLineText(cfg: Config, s: Stream) returns (next: string)
    requires AtLine(s)
    ensures Text(cfg, s) == cfg.delim + next && |next| >= 2 && EndsLine(next[0], next[1])
  {
    if s.sections == [] {
      next := "--" + s.rest;
      assert s.gap + cfg.delim + "--" + s.rest == cfg.delim + next;
    } else {
      var x := s.sections[0];
      next := x.pad + "\n" + (x.block + x.end) + x.body + x.eol + Text(cfg, Tail(s));
      TextIsLong(cfg, Tail(s));
      assert Text(cfg, s) == cfg.delim + next;
      assert x.pad == "" ==> next[0] == '\n';
      assert x.pad == "\r" ==> next[0] == '\r' && next[1] == '\n';
    }
  }

  lemma TextIsLong(cfg: Config, s: Stream)
    ensures |Text(cfg, s)| >= 2
    decreases |s.sections|
  {
    if s.sections != [] {
      TextIsLong(cfg, Tail(s));
    }
  }

  lemma HeadReads(cfg: Config, x: Section, rest: string)
    requires ClearOf(cfg, x.gap) && IsPad(x.pad) && IsEnd(x.end) && EndsFirst(x.block, x.end)
    requires EndHeaders(cfg, x.block, rest).Progress?
    ensures Run(cfg, State(Head(cfg, x) + rest, SeekBoundary)) == Run(cfg, EndHeaders(cfg, x.block, rest).next)
  {
    hide ClearOf, IsPad, EndsFirst, EndHeaders, AdvanceSeek, AdvanceHeaders;
    var block := x.block + x.end + rest;
    assert Head(cfg, x) + rest == x.gap + cfg.delim + (x.pad + "\n" + block);
    SeekReads(cfg, x.gap, x.pad, block);
    HeadersRead(cfg, x, rest);
  }

  /** Every well-formed stream is read to its end: its parts, in order. */
  lemma {:induction false} StreamIsRead(cfg: Config, s: Stream)
    requires WellFormed(cfg, s)
    ensures Run(cfg, State(Text(cfg, s), SeekBoundary)) == Outcome(PartsIn(cfg, s), State("", Done), None)
    decreases |s.sections|
  {
    hide ClearOf, IsPad, EndsFirst, Head, EndHeaders, AdvanceSeek, AdvanceScan, ScannedBody, AtLine;
    if s.sections == [] {
      SeekCloses(cfg, s.gap, s.rest);
      assert Advance(cfg, State(Text(cfg, s), SeekBoundary)) == NeedMore(State("", Done));
    } else {
      var x, tail := s.sections[0], Tail(s);
      var rest := x.body + x.eol + Text(cfg, tail);
      assert Text(cfg, s) == Head(cfg, x) + rest;
      StreamIsRead(cfg, tail);
      BlockEnds(cfg, x, tail, rest);
      HeadReads(cfg, x, rest);
      BodyReads(cfg, x, tail);
    }
  }

  function PhaseOf(cfg: Config, x: Section): Phase {
    var h := HeadersIn(cfg, x);
    if ContentLength(h, cfg.maxPart).Absent? then BodyScan(h) else BodyKnown(h, |x.body|)
  }

  lemma BlockEnds(cfg: Config, x: Section, tail: Stream, rest: string)
    requires Parse(x.block, cfg.maxHeaderLine).Some? && Follows(cfg, x, tail)
    ensures EndHeaders(cfg, x.block, rest) == Progress(State(rest, PhaseOf(cfg, x)))
  {
    hide Parse, ContentLength, ScannedBody, AtLine;
  }

  lemma BodyReads(cfg: Config, x: Section, tail: Stream)
    requires Follows(cfg, x, tail)
    ensures Run(cfg, State(x.body + x.eol + Text(cfg, tail), PhaseOf(cfg, x)))
         == Prepend([Part(HeadersIn(cfg, x), x.body)], Run(cfg, State(Text(cfg, tail), SeekBoundary)))
  {
    hide Run, ContentLength, ScannedBody, AtLine, AdvanceScan, HeadersIn;
    var h, q := HeadersIn(cfg, x), x.body + x.eol + Text(cfg, tail);
    if ContentLength(h, cfg.maxPart).Absent? {
      var next := AtLineText(cfg, tail);
      ScanReads(cfg, h, x.body, x.eol, next);
      RunEmits(cfg, State(q, BodyScan(h)), Part(h, x.body), State(Text(cfg, tail), SeekBoundary));
    } else {
      assert q[..|x.body|] == x.body && q[|x.body|..] == Text(cfg, tail);
      RunEmits(cfg, State(q, BodyKnown(h, |x.body|)), Part(h, x.body), State(Text(cfg, tail), SeekBoundary));
    }
  }

  lemma RunEmits(cfg: Config, s: State, p: Part, next: State)
    requires Advance(cfg, s) == Emit(p, next)
    ensures Run(cfg, s) == Prepend([p], Run(cfg, next))
  {
    hide Advance;
  }

  // ---- and nothing else is -----------------------------------------------

  /** What the search for a delimiter has read when it gets to headers. */
  lemma SeekRead(cfg: Config, buf: string) returns (gap: string, pad: string, rest: string)
    requires AdvanceSeek(cfg, buf).Progress?
    ensures buf == gap + cfg.delim + (pad + "\n" + rest) && ClearOf(cfg, gap) && IsPad(pad)
    ensures AdvanceSeek(cfg, buf) == Progress(State(rest, Headers))
  {
    var idx, nl := SeekFound(cfg, buf);
    hide AdvanceSeek, OccursAt, NoneIn, ClearOf, IsPad;
    var after := idx + |cfg.delim|;
    GapIsClear(cfg, buf, idx);
    PadIsPad(buf, after, nl);
    gap, pad, rest := buf[..idx], buf[after..nl], buf[nl + 1..];
    FivePieces(buf, idx, after, nl);
  }

  lemma FivePieces(buf: string, idx: nat, after: nat, nl: nat)
    requires idx <= after <= nl < |buf|
    ensures buf == buf[..idx] + buf[idx..after] + (buf[after..nl] + buf[nl..nl + 1] + buf[nl + 1..])
  {
  }

  /** Where the search stopped. */
  lemma SeekFound(cfg: Config, buf: string) returns (idx: nat, nl: nat)
    requires AdvanceSeek(cfg, buf).Progress?
    ensures var after := idx + |cfg.delim|;
            && OccursAt(buf, cfg.delim, idx) && NoneIn(buf, cfg.delim, 0, idx)
            && after + 2 <= |buf| && buf[after..after + 2] != "--"
            && after <= nl < |buf| && NoneIn(buf, "\n", after, nl) && buf[nl..nl + 1] == "\n"
            && AdvanceSeek(cfg, buf) == Progress(State(buf[nl + 1..], Headers))
  {
    hide Find, NoneIn;
    idx := Find(buf, cfg.delim, 0).value;
    nl := Find(buf, "\n", idx + |cfg.delim|).value;
    FindMeans(buf, cfg.delim, 0);
    FindMeans(buf, "\n", idx + |cfg.delim|);
  }

  lemma GapIsClear(cfg: Config, buf: string, idx: nat)
    requires OccursAt(buf, cfg.delim, idx) && NoneIn(buf, cfg.delim, 0, idx)
    ensures ClearOf(cfg, buf[..idx]) && buf[idx..idx + |cfg.delim|] == cfg.delim
  {
    var n := idx + |cfg.delim|;
    assert buf == buf[..n] + buf[n..] && buf[..n] == buf[..idx] + cfg.delim;
    forall j | 0 <= j < idx ensures !OccursAt(buf[..n], cfg.delim, j) {
      OccursExtends(buf[..n], buf[n..], cfg.delim, j);
    }
  }

  lemma PadIsPad(buf: string, after: nat, nl: nat)
    requires after <= nl < |buf| && NoneIn(buf, "\n", after, nl) && after + 2 <= |buf|
    requires buf[after..after + 2] != "--"
    ensures IsPad(buf[after..nl])
  {
    var pad := buf[after..nl];
    forall i | 0 <= i < |pad| ensures pad[i] != '\n' {
      assert !OccursAt(buf, "\n", after + i);
      assert buf[after + i..after + i + 1] == [pad[i]];
    }
    if |pad| >= 2 { assert pad[..2] == buf[after..after + 2]; }
  }

  lemma SeekClosed(cfg: Config, buf: string) returns (gap: string, rest: string)
    requires AdvanceSeek(cfg, buf).NeedMore? && AdvanceSeek(cfg, buf).next.phase.Done?
    ensures buf == gap + cfg.delim + "--" + rest && ClearOf(cfg, gap)
    ensures AdvanceSeek(cfg, buf) == NeedMore(State("", Done))
  {
    hide Find;
    var idx := Find(buf, cfg.delim, 0).value;
    var after := idx + |cfg.delim|;
    FindMeans(buf, cfg.delim, 0);
    gap, rest := buf[..idx], buf[after + 2..];
    GapIsClear(cfg, buf, idx);
    assert buf == gap + buf[idx..after] + buf[after..after + 2] + rest;
  }

  lemma HeadersWereRead(cfg: Config, buf: string) returns (block: string, end: string, rest: string)
    requires AdvanceHeaders(cfg, buf).Progress?
    ensures buf == block + end + rest && IsEnd(end) && EndsFirst(block, end)
    ensures AdvanceHeaders(cfg, buf) == EndHeaders(cfg, block, rest)
  {
    hide Find, EndHeaders;
    var t := HeaderTerminator(buf).value;
    block, end, rest := buf[..t.at], buf[t.at..t.at + t.len], buf[t.at + t.len..];
    FindMeans(buf, "\r\n\r\n", 0);
    FindMeans(buf, "\n\n", 0);
    assert buf == block + end + rest;
    hide HeaderTerminator;
    forall j | 0 <= j < t.at ensures !OccursAt(block + end, "\r\n\r\n", j) && !OccursAt(block + end, "\n\n", j) {
      OccursExtends(block + end, rest, "\r\n\r\n", j);
      OccursExtends(block + end, rest, "\n\n", j);
      Beyond(block + end, "\r\n\r\n", j);
      Beyond(block + end, "\n\n", j);
    }
  }

  lemma Beyond(s: string, pat: string, j: int)
    ensures OccursAt(s, pat, j) ==> j + |pat| <= |s|
  {
  }

  lemma ScanRead(cfg: Config, h: HeaderMap, buf: string) returns (body: string, eol: string, next: string)
    requires AdvanceScan(cfg, h, buf).Emit?
    ensures buf == body + eol + (cfg.delim + next) && ScannedBody(cfg, body, eol)
    ensures |next| >= 2 && EndsLine(next[0], next[1])
    ensures AdvanceScan(cfg, h, buf) == Emit(Part(h, body), State(cfg.delim + next, SeekBoundary))
  {
    var idx := ScanFound(cfg, h, buf);
    hide AdvanceScan, ScanFrom, DelimiterLine, NoLineIn, BodyEnd;
    var e, n := BodyEnd(buf, idx), idx + |cfg.delim|;
    LineParts(cfg, buf, idx);
    EolOf(buf, idx);
    NoLineInBody(cfg, buf, idx, e, buf[..n]);
    body, eol, next := buf[..e], buf[e..idx], buf[n..];
    Cut(buf, e, idx, n);
  }

  lemma Cut(buf: string, e: nat, idx: nat, n: nat)
    requires e <= idx <= n <= |buf|
    ensures buf[..e] + buf[e..idx] + buf[idx..] == buf
    ensures buf[..e] + buf[e..idx] + buf[idx..n] == buf[..n]
  {
  }

  lemma ScanFound(cfg: Config, h: HeaderMap, buf: string) returns (idx: nat)
    requires AdvanceScan(cfg, h, buf).Emit?
    ensures idx <= |buf| && DelimiterLine(buf, cfg.delim, idx) && NoLineIn(buf, cfg.delim, 0, idx)
    ensures AdvanceScan(cfg, h, buf)
         == Emit(Part(h, buf[..BodyEnd(buf, idx)]), State(buf[idx..], SeekBoundary))
  {
    hide ScanFrom, DelimiterLine, NoLineIn, BodyEnd;
    ScanFromMeaning(buf, cfg.delim, 0);
    idx := ScanFrom(buf, cfg.delim, 0).at;
  }

  lemma LineParts(cfg: Config, buf: string, idx: nat)
    requires DelimiterLine(buf, cfg.delim, idx)
    ensures var n := idx + |cfg.delim|;
            n + 2 <= |buf| && buf[idx..n] == cfg.delim && buf[idx..] == cfg.delim + buf[n..]
            && EndsLine(buf[n..][0], buf[n..][1]) && (idx == 0 || buf[idx - 1] == '\n')
  {
    var n := idx + |cfg.delim|;
    assert buf[idx..] == buf[idx..n] + buf[n..];
  }

  lemma EolOf(buf: string, idx: nat)
    requires idx <= |buf| && (idx == 0 || buf[idx - 1] == '\n')
    ensures var e := BodyEnd(buf, idx);
            var body, eol := buf[..e], buf[e..idx];
            eol == "\r\n" || (eol == "\n" && (body == "" || body[|body| - 1] != '\r')) || (eol == "" && body == "")
  {
    BodyEndByBytes(buf, idx);
    hide BodyEnd;
    var e := BodyEnd(buf, idx);
    if e + 2 == idx {
      assert buf[e..idx] == [buf[e], buf[e + 1]];
    } else if e + 1 == idx {
      assert buf[e..idx] == [buf[e]];
    }
  }

  lemma BodyEndByBytes(buf: string, idx: nat)
    requires idx <= |buf|
    ensures BodyEnd(buf, idx)
         == if idx >= 2 && buf[idx - 2] == '\r' && buf[idx - 1] == '\n' then idx - 2
            else if idx >= 1 && buf[idx - 1] == '\n' then idx - 1
            else idx
  {
    if idx >= 2 { assert buf[idx - 2..idx] == [buf[idx - 2], buf[idx - 1]]; }
    if idx >= 1 { assert buf[idx - 1..idx] == [buf[idx - 1]]; }
  }

  lemma NoLineInBody(cfg: Config, buf: string, idx: nat, e: nat, p: string)
    requires e <= idx && idx + |cfg.delim| <= |buf| && NoLineIn(buf, cfg.delim, 0, idx)
    requires (e == idx ==> e == 0) && p == buf[..idx + |cfg.delim|]
    ensures forall j :: 0 <= j < e ==> !DelimiterLine(p, cfg.delim, j)
  {
    assert buf == p + buf[|p|..];
    forall j | 0 <= j < e ensures !DelimiterLine(p, cfg.delim, j) {
      if j + |cfg.delim| + 2 <= |p| {
        ShortLineExtends(cfg, p, buf[|p|..], j);
      }
    }
  }

  /** What is left of a stream at a delimiter line begins with it. */
  lemma StartsAtLine(cfg: Config, s: Stream, next: string)
    requires WellFormed(cfg, s) && Text(cfg, s) == cfg.delim + next
    requires |next| >= 2 && EndsLine(next[0], next[1])
    ensures AtLine(s)
  {
    hide EndsFirst, Follows, Parse;
    if s.sections == [] {
      NoGap(cfg, s.gap, "--" + s.rest, next);
      assert s.gap + cfg.delim + "--" + s.rest == s.gap + cfg.delim + ("--" + s.rest);
    } else {
      var x := s.sections[0];
      var block := x.block + x.end + x.body + x.eol + Text(cfg, Tail(s));
      var line := x.pad + "\n" + block;
      assert Text(cfg, s) == x.gap + cfg.delim + line;
      NoGap(cfg, x.gap, line, next);
      assert next == line;
      PadOfLine(x.pad, block);
    }
  }

  lemma NoGap(cfg: Config, gap: string, tail: string, next: string)
    requires ClearOf(cfg, gap) && gap + cfg.delim + tail == cfg.delim + next
    ensures gap == "" && tail == next
  {
    var q := cfg.delim + next;
    assert OccursAt(q, cfg.delim, 0);
    if gap != "" {
      OccursExtends(gap + cfg.delim, tail, cfg.delim, 0);
    } else {
      assert tail == q[|cfg.delim|..] == next;
    }
  }

  lemma PadOfLine(pad: string, block: string)
    requires IsPad(pad) && block != "" && var t := pad + "\n" + block; EndsLine(t[0], t[1])
    ensures pad in {"", "\r"}
  {
    var t := pad + "\n" + block;
    TwoChars(pad);
    assert t[|pad|] == '\n';
    assert forall i :: 0 <= i < |pad| ==> t[i] == pad[i];
    assert |pad| == 1 ==> pad == [t[0]];
  }

  lemma TwoChars(s: string)
    ensures |s| >= 2 ==> s[..2] == [s[0], s[1]]
  {
  }

  /** The body of one part, whichever way it ends, and what comes after it. */
  lemma BodyRead(cfg: Config, s: State) returns (x: Section, text: string)
    requires s.phase.BodyKnown? || s.phase.BodyScan?
    requires Run(cfg, s).next.phase.Done?
    ensures Run(cfg, s) == Prepend([Part(s.phase.headers, x.body)], Run(cfg, State(text, SeekBoundary)))
    ensures s.buf == x.body + x.eol + text
    ensures s.phase.BodyKnown? ==> |x.body| == s.phase.needed && x.eol == ""
    ensures s.phase.BodyScan? ==>
              ScannedBody(cfg, x.body, x.eol)
              && exists next: string :: text == cfg.delim + next && |next| >= 2 && EndsLine(next[0], next[1])
  {
    hide AdvanceScan, ScannedBody;
    if s.phase.BodyKnown? {
      x := Section("", "", "", "", s.buf[..s.phase.needed], "");
      text := s.buf[s.phase.needed..];
    } else {
      ScanGoesOn(cfg, s.phase.headers, s.buf);
      var body, eol, next := ScanRead(cfg, s.phase.headers, s.buf);
      x := Section("", "", "", "", body, eol);
      text := cfg.delim + next;
    }
  }

  lemma HeadRead(cfg: Config, text: string) returns (x: Section, rest: string, phase: Phase)
    requires Run(cfg, State(text, SeekBoundary)).next.phase.Done? && AdvanceSeek(cfg, text).Progress?
    ensures text == Head(cfg, x) + rest && Run(cfg, State(text, SeekBoundary)) == Run(cfg, State(rest, phase))
    ensures ClearOf(cfg, x.gap) && IsPad(x.pad) && IsEnd(x.end) && EndsFirst(x.block, x.end)
    ensures Parse(x.block, cfg.maxHeaderLine).Some?
    ensures match ContentLength(HeadersIn(cfg, x), cfg.maxPart)
            case Exactly(n) => phase == BodyKnown(HeadersIn(cfg, x), n)
            case Absent => phase == BodyScan(HeadersIn(cfg, x))
            case Illegal => false
  {
    hide Parse, ContentLength, AdvanceSeek, ClearOf, IsPad, EndsFirst, AdvanceHeaders;
    var gap, pad, q := SeekRead(cfg, text);
    assert AdvanceHeaders(cfg, q).Progress? by { GoesOn(cfg, q); }
    var block, end, r := HeadersWereRead(cfg, q);
    x, rest := Section(gap, pad, block, end, "", ""), r;
    phase := EndHeaders(cfg, block, r).next.phase;
    assert Head(cfg, x) + rest == gap + cfg.delim + (pad + "\n" + (block + end + rest));
  }

  lemma GoesOn(cfg: Config, q: string)
    requires Run(cfg, State(q, Headers)).next.phase.Done?
    ensures AdvanceHeaders(cfg, q).Progress?
  {
    hide HeaderTerminator, Parse, ContentLength;
  }

  lemma ScanGoesOn(cfg: Config, h: HeaderMap, q: string)
    requires Run(cfg, State(q, BodyScan(h))).next.phase.Done?
    ensures AdvanceScan(cfg, h, q).Emit?
  {
    hide ScanFrom, BodyEnd;
  }

  lemma SeekEnds(cfg: Config, q: string)
    requires Run(cfg, State(q, SeekBoundary)).next.phase.Done? && !AdvanceSeek(cfg, q).Progress?
    ensures AdvanceSeek(cfg, q).NeedMore? && AdvanceSeek(cfg, q).next.phase.Done?
  {
    hide Find;
  }

  /** Whatever is read to its end is a well-formed stream. */
  lemma {:induction false} ReadIsStream(cfg: Config, text: string) returns (s: Stream)
    requires Run(cfg, State(text, SeekBoundary)).next.phase.Done?
    ensures WellFormed(cfg, s) && text == Text(cfg, s)
    decreases |text|
  {
    if AdvanceSeek(cfg, text).Progress? {
      hide Parse, ContentLength, AdvanceSeek, ClearOf, IsPad, EndsFirst, Head, Run, ScannedBody, AtLine;
      var x, rest, phase := HeadRead(cfg, text);
      var y, after := BodyRead(cfg, State(rest, phase));
      assert |Head(cfg, x)| > 0 by { HeadIsLong(cfg, x); }
      var tail := ReadIsStream(cfg, after);
      if phase.BodyScan? {
        var next: string :| after == cfg.delim + next && |next| >= 2 && EndsLine(next[0], next[1]);
        StartsAtLine(cfg, tail, next);
      }
      var z := x.(body := y.body, eol := y.eol);
      s := AddSection(cfg, z, tail, x);
    } else {
      hide AdvanceSeek, ClearOf;
      SeekEnds(cfg, text);
      var gap, rest := SeekClosed(cfg, text);
      s := Stream([], gap, rest);
    }
  }

  lemma HeadIsLong(cfg: Config, x: Section)
    ensures |Head(cfg, x)| > 0
  {
  }

  lemma AddSection(cfg: Config, z: Section, tail: Stream, x: Section) returns (s: Stream)
    requires z == x.(body := z.body, eol := z.eol)
    requires ClearOf(cfg, z.gap) && IsPad(z.pad) && IsEnd(z.end) && EndsFirst(z.block, z.end)
    requires Parse(z.block, cfg.maxHeaderLine).Some? && Follows(cfg, z, tail) && WellFormed(cfg, tail)
    ensures WellFormed(cfg, s) && Text(cfg, s) == Head(cfg, x) + (z.body + z.eol + Text(cfg, tail))
  {
    s := tail.(sections := [z] + tail.sections);
    assert Tail(s) == tail;
    hide ClearOf, IsPad, EndsFirst, Follows, Parse;
  }

  /** Main result: a stream is read to its end, with these parts and no error,
      exactly if it is well formed and these are its parts. */
  lemma ReadToEndIff(cfg: Config, text: string, parts: seq<Part>)
    ensures Run(cfg, State(text, SeekBoundary)) == Outcome(parts, State("", Done), None)
       <==> exists s :: WellFormed(cfg, s) && text == Text(cfg, s) && parts == PartsIn(cfg, s)
  {
    hide Run, WellFormed, Text, PartsIn;
    if s :| WellFormed(cfg, s) && text == Text(cfg, s) && parts == PartsIn(cfg, s) {
      StreamIsRead(cfg, s);
    }
    if Run(cfg, State(text, SeekBoundary)) == Outcome(parts, State("", Done), None) {
      var s := ReadIsStream(cfg, text);
      StreamIsRead(cfg, s);
    }
  }

  /** And so for any chunks that raise nothing on the way. */
  lemma ChunksReadToEndIff(cfg: Config, chunks: seq<string>, parts: seq<Part>)
    requires FeedAll(cfg, START, chunks).error.None?
    ensures FeedAll(cfg, START, chunks) == Outcome(parts, State("", Done), None)
       <==> exists s :: WellFormed(cfg, s) && Join(chunks) == Text(cfg, s) && parts == PartsIn(cfg, s)
  {
    hide WellFormed, Text, PartsIn, Run;
    if chunks == [] {
      forall s ensures |Text(cfg, s)| >= 2 { TextIsLong(cfg, s); }
    } else {
      var first, rest := State(chunks[0], SeekBoundary), Join(chunks[1..]);
      assert Append(START, chunks[0]) == first && Append(first, rest) == State(Join(chunks), SeekBoundary);
      RunContinues(cfg, first, rest);
      FeedAllIsFeed(cfg, Run(cfg, first).next, chunks[1..]);
      ReadToEndIff(cfg, Join(chunks), parts);
    }
  }
}
