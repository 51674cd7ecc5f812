/** Parts written on the wire and what the parser makes of every prefix. */
module MultipartWire {
  import opened Bytes
  import opened HeaderBlock
  import opened MultipartSpec
  import opened MultipartConfluence

  /** One part to write: its header block (without terminator) and its body. */
  datatype Frame = Frame(block: string, body: string)

  function Opening(cfg: Config, f: Frame): string {
    cfg.delim + "\r\n" + f.block + "\r\n\r\n"
  }

  /** `gap`, then every frame followed by CRLF. */
  function Wire(cfg: Config, gap: string, frames: seq<Frame>): string
    decreases |frames|
  {
    if frames == [] then gap
    else gap + Opening(cfg, frames[0]) + frames[0].body + Wire(cfg, "\r\n", frames[1..])
  }

  /** The headers read from a block, for a block that parses. */
  function HeadersOf(cfg: Config, f: Frame): HeaderMap {
    match Parse(f.block, cfg.maxHeaderLine)
    case Some(h) => h
    case None => map[]
  }

  /** The block parses, ends only where it should, and fits the limits. */
  predicate PlainBlock(cfg: Config, f: Frame) {
    Parse(f.block, cfg.maxHeaderLine).Some?
    && HeaderTerminator(f.block + "\r\n\r").None?
    && |f.block| + 3 <= cfg.maxHeadersTotal
  }

  /** A part that declares its length. */
  predicate Sized(cfg: Config, f: Frame) {
    PlainBlock(cfg, f) && ContentLength(HeadersOf(cfg, f), cfg.maxPart) == Exactly(|f.body|)
  }

  predicate NoInnerDelimiter(cfg: Config, body: string) {
    forall j :: 0 <= j < |body| + 2 ==>
      !DelimiterLine(body + "\r\n" + cfg.delim + "\r\n", cfg.delim, j)
  }

  /** A part without a length whose body holds no delimiter line. */
  predicate Open(cfg: Config, f: Frame) {
    PlainBlock(cfg, f) && ContentLength(HeadersOf(cfg, f), cfg.maxPart).Absent?
    && NoInnerDelimiter(cfg, f.body) && |f.body| + |cfg.delim| + 1 <= cfg.maxPart
  }

  predicate Writable(cfg: Config, frames: seq<Frame>) {
    |cfg.delim| + 1 <= cfg.maxGap
    && forall i :: 0 <= i < |frames| ==> Sized(cfg, frames[i]) || Open(cfg, frames[i])
  }

  function PartsOf(cfg: Config, frames: seq<Frame>): seq<Part> {
    seq(|frames|, i requires 0 <= i < |frames| => Part(HeadersOf(cfg, frames[i]), frames[i].body))
  }

  /** How many parts are out after `n` bytes: a sized one with its last body
      byte, an open one when the delimiter after it can be judged. */
  function Complete(cfg: Config, gap: string, frames: seq<Frame>, n: int): (k: nat)
    ensures k <= |frames|
    decreases |frames|, 1
  {
    if frames == [] then 0
    else CompleteFrom(cfg, frames, n - |gap| - |Opening(cfg, frames[0])| - |frames[0].body|)
  }

  /** The same, `left` bytes after the end of the first body. */
  function CompleteFrom(cfg: Config, frames: seq<Frame>, left: int): (k: nat)
    requires frames != []
    ensures k <= |frames|
    decreases |frames|, 0
  {
    if Sized(cfg, frames[0]) then
      if left < 0 then 0 else 1 + Complete(cfg, "\r\n", frames[1..], left)
    else if |frames| == 1 || left < 2 + |cfg.delim| + 2 then 0
    else 1 + Complete(cfg, "", frames[1..], left - 2)
  }

  // ---- the boundary line -------------------------------------------------

  predicate IsGap(gap: string) { gap == "" || gap == "\r\n" }

  lemma DelimiterNotBeforeGapEnds(cfg: Config, q: string, gap: string, y: string, j: nat)
    requires IsGap(gap) && q <= gap + cfg.delim + y
    requires OccursAt(q, cfg.delim, j)
    ensures |gap| <= j
  {
    assert q[j..j + |cfg.delim|][0] == q[j] == '-';
    assert (gap + cfg.delim + y)[..|gap|] == gap;
  }

  lemma SeekShort(cfg: Config, q: string, gap: string, y: string)
    requires IsGap(gap) && q <= gap + cfg.delim + "\r\n" + y
    requires |q| < |gap| + |cfg.delim| + 2 && |cfg.delim| + 1 <= cfg.maxGap
    ensures AdvanceSeek(cfg, q) == NeedMore(State(q, SeekBoundary))
  {
    hide Find;
    FindMeans(q, cfg.delim, 0);
    match Find(q, cfg.delim, 0)
    case None =>
      if |gap| + |cfg.delim| <= |q| {
        DelimiterAfterGap(cfg, q, gap, "\r\n" + y);
      }
    case Some(j) =>
      assert gap + cfg.delim + "\r\n" + y == gap + cfg.delim + ("\r\n" + y);
      DelimiterNotBeforeGapEnds(cfg, q, gap, "\r\n" + y, j);
  }

  lemma DelimiterAfterGap(cfg: Config, q: string, gap: string, y: string)
    requires q <= gap + cfg.delim + y && |gap| + |cfg.delim| <= |q|
    ensures OccursAt(q, cfg.delim, |gap|)
  {
    assert q == (gap + cfg.delim + y)[..|q|];
  }

  lemma SeekLine(cfg: Config, gap: string, y: string)
    requires IsGap(gap)
    ensures AdvanceSeek(cfg, gap + cfg.delim + "\r\n" + y) == Progress(State(y, Headers))
  {
    hide Find, AdvanceSeek, OccursAt, IsGap;
    var q := gap + cfg.delim + "\r\n" + y;
    var after := |gap| + |cfg.delim|;
    assert q == gap + cfg.delim + ("\r\n" + y);
    DelimiterIsFirst(cfg, q, gap, "\r\n" + y);
    LineEndPieces(gap + cfg.delim, y);
    FindIs(q, "\n", after, after + 1);
    SeekIs(cfg, q, |gap|, after + 1);
  }

  lemma DelimiterIsFirst(cfg: Config, q: string, gap: string, rest: string)
    requires IsGap(gap) && q == gap + cfg.delim + rest
    ensures Find(q, cfg.delim, 0) == Some(|gap|)
  {
    hide Find, OccursAt;
    DelimiterAfterGap(cfg, q, gap, rest);
    forall j | 0 <= j < |gap| ensures !OccursAt(q, cfg.delim, j) {
      if OccursAt(q, cfg.delim, j) {
        DelimiterNotBeforeGapEnds(cfg, q, gap, rest, j);
      }
    }
    FindIs(q, cfg.delim, 0, |gap|);
  }

  lemma LineEndPieces(line: string, y: string)
    ensures var q, n := line + "\r\n" + y, |line|;
            q[n..n + 2] == "\r\n" && q[n + 2..] == y && !OccursAt(q, "\n", n) && OccursAt(q, "\n", n + 1)
  {
    var q, n := line + "\r\n" + y, |line|;
    assert q[n..n + 1] == "\r" && q[n + 1..n + 2] == "\n";
  }

  // ---- the header block --------------------------------------------------

  lemma BlockShort(cfg: Config, f: Frame, q: string, y: string)
    requires PlainBlock(cfg, f) && q <= f.block + "\r\n\r\n" + y && |q| < |f.block| + 4
    ensures AdvanceHeaders(cfg, q) == NeedMore(State(q, Headers))
  {
    var whole := f.block + "\r\n\r";
    assert q <= whole by {
      assert f.block + "\r\n\r\n" + y == whole + ("\n" + y);
    }
    NotInPrefix(q, whole, "\r\n\r\n");
    NotInPrefix(q, whole, "\n\n");
  }

  lemma NotInPrefix(p: string, s: string, pat: string)
    requires p <= s && Find(s, pat, 0).None?
    ensures Find(p, pat, 0).None?
  {
    assert s == p + s[|p|..];
    if Find(p, pat, 0).Some? {
      FindExtends(p, s[|p|..], pat, 0);
    }
  }

  lemma BlockWhole(cfg: Config, f: Frame, y: string)
    requires PlainBlock(cfg, f)
    ensures AdvanceHeaders(cfg, f.block + "\r\n\r\n" + y) == EndHeaders(cfg, f.block, y)
  {
    hide Find, OccursAt;
    var n, whole, q := |f.block|, f.block + "\r\n\r", f.block + "\r\n\r\n" + y;
    assert q == whole + ("\n" + y);
    SearchExtends(whole, "\n" + y, "\r\n\r\n");
    SearchExtends(whole, "\n" + y, "\n\n");
    TerminatorAt(f.block, y);
    FindMeans(q, "\r\n\r\n", 0);
    assert Find(q, "\r\n\r\n", 0) == Some(n);
    assert HeaderTerminator(q) == Some(Terminator(n, 4));
    assert q[..n] == f.block && q[n + 4..] == y;
  }

  lemma TerminatorAt(block: string, y: string)
    ensures OccursAt(block + "\r\n\r\n" + y, "\r\n\r\n", |block|)
  {
  }

  // ---- bodies without a length -------------------------------------------

  /** Where an open body's scan can find a delimiter line at all. */
  lemma InnerLines(cfg: Config, body: string, q: string, y: string, j: nat)
    requires q <= body + "\r\n" + cfg.delim + "\r\n" + y
    requires DelimiterLine(q, cfg.delim, j) && j < |body| + 2
    ensures DelimiterLine(body + "\r\n" + cfg.delim + "\r\n", cfg.delim, j)
  {
    var inner := body + "\r\n" + cfg.delim + "\r\n";
    assert inner + y == q + (inner + y)[|q|..];
    DelimiterLineExtends(q, (inner + y)[|q|..], cfg.delim, j);
    DelimiterLineExtends(inner, y, cfg.delim, j);
  }

  lemma NextDelimiterOccurs(cfg: Config, body: string, q: string, y: string)
    requires q <= body + "\r\n" + cfg.delim + "\r\n" + y
    requires |body| + 2 + |cfg.delim| <= |q|
    ensures Anchored(q, cfg.delim, |body| + 2)
  {
    var all := body + "\r\n" + cfg.delim + "\r\n" + y;
    assert all[|body| + 1] == '\n';
    assert all[|body| + 2..|body| + 2 + |cfg.delim|] == cfg.delim;
    assert q == all[..|q|];
  }

  lemma ScanShort(cfg: Config, h: HeaderMap, body: string, q: string, y: string)
    requires NoInnerDelimiter(cfg, body) && |body| + |cfg.delim| + 1 <= cfg.maxPart
    requires q <= body + "\r\n" + cfg.delim + "\r\n" + y
    requires |q| < |body| + 2 + |cfg.delim| + 2
    ensures AdvanceScan(cfg, h, q) == NeedMore(State(q, BodyScan(h)))
  {
    ScanFromMeaning(q, cfg.delim, 0);
    match ScanFrom(q, cfg.delim, 0)
    case Found(j) => InnerLines(cfg, body, q, y, j);
    case Undecided =>
    case Nothing =>
      if |q| > cfg.maxPart {
        NextDelimiterOccurs(cfg, body, q, y);
      }
  }

  lemma ScanEmits(cfg: Config, h: HeaderMap, buf: string, i: nat)
    requires FirstDelimiterLine(buf, cfg.delim, i)
    ensures AdvanceScan(cfg, h, buf)
         == Emit(Part(h, buf[..BodyEnd(buf, i)]), State(buf[i..], SeekBoundary))
  {
    ScanFindsFirst(buf, cfg.delim, i);
  }

  lemma LineSlices(body: string, tail: string)
    ensures var buf := body + "\r\n" + tail;
            buf[..|body|] == body && buf[|body|..|body| + 2] == "\r\n" && buf[|body| + 2..] == tail
  {
  }

  lemma FirstLineAfter(cfg: Config, body: string, y: string)
    requires NoInnerDelimiter(cfg, body)
    ensures FirstDelimiterLine(body + "\r\n" + cfg.delim + "\r\n" + y, cfg.delim, |body| + 2)
  {
    var buf := body + "\r\n" + cfg.delim + "\r\n" + y;
    forall j | 0 <= j < |body| + 2 ensures !DelimiterLine(buf, cfg.delim, j) {
      if DelimiterLine(buf, cfg.delim, j) {
        InnerLines(cfg, body, buf, y, j);
      }
    }
    NextDelimiterLine(cfg, body, y);
  }

  lemma ScanWhole(cfg: Config, h: HeaderMap, body: string, y: string)
    requires NoInnerDelimiter(cfg, body)
    ensures AdvanceScan(cfg, h, body + "\r\n" + cfg.delim + "\r\n" + y)
         == Emit(Part(h, body), State(cfg.delim + "\r\n" + y, SeekBoundary))
  {
    var tail := cfg.delim + "\r\n" + y;
    assert body + "\r\n" + cfg.delim + "\r\n" + y == body + "\r\n" + tail;
    FirstLineAfter(cfg, body, y);
    LineSlices(body, tail);
    ScanEmits(cfg, h, body + "\r\n" + tail, |body| + 2);
  }

  lemma NextDelimiterLine(cfg: Config, body: string, y: string)
    ensures DelimiterLine(body + "\r\n" + cfg.delim + "\r\n" + y, cfg.delim, |body| + 2)
  {
    var buf, after := body + "\r\n" + cfg.delim + "\r\n" + y, |body| + 2 + |cfg.delim|;
    NextDelimiterOccurs(cfg, body, buf, y);
    assert buf[after] == '\r' && buf[after + 1] == '\n';
  }

  /** An inner delimiter line cuts the body short. */
  lemma InnerLineInBody(delim: Delimiter, body: string, tail: string, i: nat)
    requires OccursAt(body + "\r\n" + tail, delim, i) && i < |body| + 2
    ensures i < |body|
  {
    var buf := body + "\r\n" + tail;
    assert buf[i..i + |delim|][0] == buf[i] == '-';
    LineSlices(body, tail);
    assert buf[|body|..|body| + 2][0] == buf[|body|] && buf[|body|..|body| + 2][1] == buf[|body| + 1];
  }

  lemma ScanCutShort(cfg: Config, h: HeaderMap, body: string, y: string)
    requires !NoInnerDelimiter(cfg, body)
    ensures var r := AdvanceScan(cfg, h, body + "\r\n" + cfg.delim + "\r\n" + y);
            r.Emit? && |r.part.body| < |body|
  {
    hide DelimiterLine, OccursAt, AdvanceScan, BodyEnd;
    var inner := body + "\r\n" + cfg.delim + "\r\n";
    var j :| 0 <= j < |body| + 2 && DelimiterLine(inner, cfg.delim, j);
    InnerLineJudged(cfg, inner, y, j);
    var i := FirstLineUpTo(inner + y, cfg.delim, j);
    CutAt(cfg, h, inner + y, i);
    assert inner + y == body + "\r\n" + (cfg.delim + "\r\n" + y);
    LineOccurs(inner + y, cfg.delim, i);
    InnerLineInBody(cfg.delim, body, cfg.delim + "\r\n" + y, i);
  }

  lemma CutAt(cfg: Config, h: HeaderMap, buf: string, i: nat)
    requires FirstDelimiterLine(buf, cfg.delim, i)
    ensures AdvanceScan(cfg, h, buf).Emit? && |AdvanceScan(cfg, h, buf).part.body| <= i
  {
    ScanEmits(cfg, h, buf, i);
  }

  lemma LineOccurs(buf: string, delim: Delimiter, i: nat)
    requires DelimiterLine(buf, delim, i)
    ensures OccursAt(buf, delim, i)
  {
  }

  lemma InnerLineJudged(cfg: Config, inner: string, y: string, j: nat)
    requires DelimiterLine(inner, cfg.delim, j)
    ensures DelimiterLine(inner + y, cfg.delim, j)
  {
    DelimiterLineExtends(inner, y, cfg.delim, j);
  }

  lemma FirstLineUpTo(buf: string, delim: Delimiter, j: nat) returns (i: nat)
    requires DelimiterLine(buf, delim, j)
    ensures i <= j && FirstDelimiterLine(buf, delim, i)
  {
    ScanFromMeaning(buf, delim, 0);
    i := ScanFrom(buf, delim, 0).at;
  }

  /** An open body comes back whole exactly when it holds no delimiter line. */
  lemma OpenBodyReturnsIff(cfg: Config, h: HeaderMap, body: string, y: string)
    ensures var r := AdvanceScan(cfg, h, body + "\r\n" + cfg.delim + "\r\n" + y);
            r.Emit? && (r.part == Part(h, body) <==> NoInnerDelimiter(cfg, body))
  {
    if NoInnerDelimiter(cfg, body) {
      ScanWhole(cfg, h, body, y);
    } else {
      ScanCutShort(cfg, h, body, y);
    }
  }

  // ---- every prefix of the wire ------------------------------------------

  lemma PrefixDrop(q: string, a: string, b: string)
    requires q <= a + b && |a| <= |q|
    ensures q == a + q[|a|..] && q[|a|..] <= b
  {
    assert q == (a + b)[..|q|];
  }

  lemma PartsCons(cfg: Config, frames: seq<Frame>, k: nat)
    requires 0 < |frames| && k <= |frames| - 1
    ensures PartsOf(cfg, frames[..k + 1])
         == [Part(HeadersOf(cfg, frames[0]), frames[0].body)] + PartsOf(cfg, frames[1..][..k])
  {
    assert frames[..k + 1] == [frames[0]] + frames[1..][..k];
  }

  /** From the delimiter search to the start of the first body. */
  lemma RunOpening(cfg: Config, gap: string, f: Frame, q: string, y: string)
    requires IsGap(gap) && PlainBlock(cfg, f) && |cfg.delim| + 1 <= cfg.maxGap
    requires q <= gap + Opening(cfg, f) + y
    ensures var m := |gap| + |Opening(cfg, f)|;
            var s := State(q, SeekBoundary);
            if |q| < m then Run(cfg, s).error.None? && Run(cfg, s).parts == []
            else q == gap + Opening(cfg, f) + q[m..] && q[m..] <= y
                 && (EndHeaders(cfg, f.block, q[m..]).Progress? ==>
                       Run(cfg, s) == Run(cfg, EndHeaders(cfg, f.block, q[m..]).next))
  {
    hide Run, Advance, PlainBlock, IsGap, EndHeaders;
    var line, rest := gap + cfg.delim + "\r\n", f.block + "\r\n\r\n" + y;
    assert gap + Opening(cfg, f) + y == line + rest;
    var s := State(q, SeekBoundary);
    if |q| < |line| {
      SeekShort(cfg, q, gap, rest);
      RunStops(cfg, s);
    } else {
      PrefixDrop(q, line, rest);
      var q2 := q[|line|..];
      SeekLine(cfg, gap, q2);
      RunProgresses(cfg, s, State(q2, Headers));
      RunBlock(cfg, f, q2, y);
      if |q2| >= |f.block| + 4 {
        assert q[|gap| + |Opening(cfg, f)|..] == q2[|f.block| + 4..];
      }
    }
  }

  lemma RunStops(cfg: Config, s: State)
    requires (s.phase.SeekBoundary? && AdvanceSeek(cfg, s.buf) == NeedMore(s))
             || (s.phase.Headers? && AdvanceHeaders(cfg, s.buf) == NeedMore(s))
    ensures Run(cfg, s) == Outcome([], s, None)
  {
    hide AdvanceSeek, AdvanceHeaders;
  }

  lemma RunProgresses(cfg: Config, s: State, n: State)
    requires (s.phase.SeekBoundary? && AdvanceSeek(cfg, s.buf) == Progress(n))
             || (s.phase.Headers? && AdvanceHeaders(cfg, s.buf) == Progress(n))
    ensures Run(cfg, s) == Run(cfg, n)
  {
    hide AdvanceSeek, AdvanceHeaders;
  }

  lemma RunBlock(cfg: Config, f: Frame, q: string, y: string)
    requires PlainBlock(cfg, f) && q <= f.block + "\r\n\r\n" + y
    ensures var m := |f.block| + 4;
            var s := State(q, Headers);
            if |q| < m then Run(cfg, s).error.None? && Run(cfg, s).parts == []
            else q == f.block + "\r\n\r\n" + q[m..] && q[m..] <= y
                 && (EndHeaders(cfg, f.block, q[m..]).Progress? ==>
                       Run(cfg, s) == Run(cfg, EndHeaders(cfg, f.block, q[m..]).next))
  {
    hide Run, PlainBlock, AdvanceHeaders, EndHeaders;
    var s := State(q, Headers);
    if |q| < |f.block| + 4 {
      BlockShort(cfg, f, q, y);
      RunStops(cfg, s);
    } else {
      PrefixDrop(q, f.block + "\r\n\r\n", y);
      var rest := q[|f.block| + 4..];
      BlockWhole(cfg, f, rest);
      if EndHeaders(cfg, f.block, rest).Progress? {
        RunProgresses(cfg, s, EndHeaders(cfg, f.block, rest).next);
      }
    }
  }

  /** A run of the parser that raises nothing and returns these frames. */
  predicate Yields(cfg: Config, s: State, frames: seq<Frame>) {
    Run(cfg, s).error.None? && Run(cfg, s).parts == PartsOf(cfg, frames)
  }

  lemma YieldsNothing(cfg: Config, s: State, frames: seq<Frame>)
    requires Advance(cfg, s) == NeedMore(s)
    ensures Yields(cfg, s, frames[..0])
  {
    assert PartsOf(cfg, frames[..0]) == [];
  }

  lemma YieldsFirst(cfg: Config, s: State, next: State, frames: seq<Frame>, k: nat)
    requires 0 < |frames| && k <= |frames| - 1
    requires Advance(cfg, s) == Emit(Part(HeadersOf(cfg, frames[0]), frames[0].body), next)
    requires Yields(cfg, next, frames[1..][..k])
    ensures Yields(cfg, s, frames[..k + 1])
  {
    PartsCons(cfg, frames, k);
  }

  /** How the frame's body will be delimited. */
  function BodyPhase(cfg: Config, f: Frame): Phase {
    if Sized(cfg, f) then BodyKnown(HeadersOf(cfg, f), |f.body|) else BodyScan(HeadersOf(cfg, f))
  }

  lemma EndOfBlock(cfg: Config, f: Frame, rest: string)
    requires Sized(cfg, f) || Open(cfg, f)
    ensures EndHeaders(cfg, f.block, rest) == Progress(State(rest, BodyPhase(cfg, f)))
  {
  }

  // One unfolding each, so that the proofs below need not look inside.

  lemma WireCons(cfg: Config, gap: string, frames: seq<Frame>)
    requires frames != []
    ensures Wire(cfg, gap, frames)
         == gap + Opening(cfg, frames[0]) + (frames[0].body + Wire(cfg, "\r\n", frames[1..]))
  {
    hide Opening;
  }

  lemma CompleteCons(cfg: Config, frames: seq<Frame>, left: int)
    requires frames != []
    ensures Sized(cfg, frames[0]) ==>
              CompleteFrom(cfg, frames, left) == if left < 0 then 0 else 1 + Complete(cfg, "\r\n", frames[1..], left)
    ensures !Sized(cfg, frames[0]) ==>
              CompleteFrom(cfg, frames, left)
              == if |frames| == 1 || left < 2 + |cfg.delim| + 2 then 0 else 1 + Complete(cfg, "", frames[1..], left - 2)
  {
    hide Sized;
  }

  lemma WritableCons(cfg: Config, frames: seq<Frame>)
    requires Writable(cfg, frames) && frames != []
    ensures Writable(cfg, frames[1..]) && |cfg.delim| + 1 <= cfg.maxGap
    ensures Sized(cfg, frames[0]) || Open(cfg, frames[0])
    ensures PlainBlock(cfg, frames[0])
    ensures !Sized(cfg, frames[0]) ==>
              NoInnerDelimiter(cfg, frames[0].body) && |frames[0].body| + |cfg.delim| + 1 <= cfg.maxPart
  {
    hide PlainBlock, NoInnerDelimiter;
  }

  /** What one call of the parser does with any prefix of the wire: no error,
      and exactly the parts that are complete in it. */
  lemma {:induction false} RunPrefix(cfg: Config, gap: string, frames: seq<Frame>, q: string)
    requires IsGap(gap) && Writable(cfg, frames) && q <= Wire(cfg, gap, frames)
    ensures Yields(cfg, State(q, SeekBoundary), frames[..Complete(cfg, gap, frames, |q|)])
    decreases |frames|, 2
  {
    if frames == [] {
      hide Run, IsGap;
      assert q <= gap + cfg.delim + "\r\n" + "";
      SeekShort(cfg, q, gap, "");
      YieldsNothing(cfg, State(q, SeekBoundary), frames);
    } else {
      hide Run, IsGap, Writable, Wire, Opening, Yields, Complete;
      WireCons(cfg, gap, frames);
      RunFrame(cfg, gap, frames, q, frames[0].body + Wire(cfg, "\r\n", frames[1..]));
    }
  }

  lemma {:induction false} RunFrame(cfg: Config, gap: string, frames: seq<Frame>, q: string, y: string)
    requires frames != [] && IsGap(gap) && Writable(cfg, frames)
    requires y == frames[0].body + Wire(cfg, "\r\n", frames[1..])
    requires q <= gap + Opening(cfg, frames[0]) + y
    ensures Yields(cfg, State(q, SeekBoundary), frames[..Complete(cfg, gap, frames, |q|)])
    decreases |frames|, 1
  {
    hide Run, Advance, EndHeaders, Writable, PlainBlock, Wire, Opening, Sized, Open, CompleteFrom, HeadersOf, IsGap;
    WritableCons(cfg, frames);
    var f, m := frames[0], |gap| + |Opening(cfg, frames[0])|;
    RunOpening(cfg, gap, f, q, y);
    assert Complete(cfg, gap, frames, |q|) == CompleteFrom(cfg, frames, |q| - m - |f.body|);
    CompleteCons(cfg, frames, |q| - m - |f.body|);
    if |q| < m {
      assert PartsOf(cfg, frames[..0]) == [];
    } else {
      EndOfBlock(cfg, f, q[m..]);
      if Sized(cfg, f) {
        RunSized(cfg, frames, q[m..]);
      } else {
        RunOpen(cfg, frames, q[m..]);
      }
    }
  }

  lemma {:induction false} RunSized(cfg: Config, frames: seq<Frame>, q: string)
    requires frames != [] && Writable(cfg, frames) && Sized(cfg, frames[0])
    requires q <= frames[0].body + Wire(cfg, "\r\n", frames[1..])
    ensures Yields(cfg, State(q, BodyPhase(cfg, frames[0])),
                   frames[..CompleteFrom(cfg, frames, |q| - |frames[0].body|)])
    decreases |frames|, 0
  {
    hide Run, Yields, Sized, Open, Writable, PlainBlock, Wire, Complete, CompleteFrom, HeadersOf;
    WritableCons(cfg, frames);
    var f, rest := frames[0], frames[1..];
    var s := State(q, BodyPhase(cfg, f));
    CompleteCons(cfg, frames, |q| - |f.body|);
    if |q| < |f.body| {
      YieldsNothing(cfg, s, frames);
    } else {
      PrefixDrop(q, f.body, Wire(cfg, "\r\n", rest));
      var left := q[|f.body|..];
      RunPrefix(cfg, "\r\n", rest, left);
      assert q[..|f.body|] == f.body;
      YieldsFirst(cfg, s, State(left, SeekBoundary), frames, Complete(cfg, "\r\n", rest, |left|));
    }
  }

  lemma {:induction false} RunOpen(cfg: Config, frames: seq<Frame>, q: string)
    requires frames != [] && Writable(cfg, frames) && !Sized(cfg, frames[0])
    requires q <= frames[0].body + Wire(cfg, "\r\n", frames[1..])
    ensures Yields(cfg, State(q, BodyPhase(cfg, frames[0])),
                   frames[..CompleteFrom(cfg, frames, |q| - |frames[0].body|)])
    decreases |frames|, 0
  {
    hide Run, Yields, Sized, Open, Writable, PlainBlock, NoInnerDelimiter, Wire, Complete, CompleteFrom, HeadersOf,
      AdvanceScan;
    WritableCons(cfg, frames);
    var f, rest := frames[0], frames[1..];
    var h, s := HeadersOf(cfg, f), State(q, BodyPhase(cfg, f));
    CompleteCons(cfg, frames, |q| - |f.body|);
    if rest == [] {
      LastBody(cfg, f.body, q);
      ScanShort(cfg, h, f.body, q, "");
      YieldsNothing(cfg, s, frames);
    } else {
      var y := WireAfterLine(cfg, f.body, rest);
      if |q| < |f.body| + 2 + |cfg.delim| + 2 {
        ScanShort(cfg, h, f.body, q, y);
        YieldsNothing(cfg, s, frames);
      } else {
        var left := OpenBodyOut(cfg, h, f.body, q, y, Wire(cfg, "", rest));
        RunPrefix(cfg, "", rest, left);
        YieldsFirst(cfg, s, State(left, SeekBoundary), frames, Complete(cfg, "", rest, |left|));
      }
    }
  }

  lemma LastBody(cfg: Config, body: string, q: string)
    requires q <= body + Wire(cfg, "\r\n", [])
    ensures q <= body + "\r\n" + cfg.delim + "\r\n" + "" && |q| <= |body| + 2
  {
    assert body + "\r\n" + cfg.delim + "\r\n" + "" == body + "\r\n" + (cfg.delim + "\r\n");
  }

  lemma OpenBodyOut(cfg: Config, h: HeaderMap, body: string, q: string, y: string, wire: string)
    returns (left: string)
    requires NoInnerDelimiter(cfg, body) && q <= body + "\r\n" + cfg.delim + "\r\n" + y
    requires |q| >= |body| + 2 + |cfg.delim| + 2 && wire == cfg.delim + "\r\n" + y
    ensures left <= wire && |left| == |q| - |body| - 2
    ensures AdvanceScan(cfg, h, q) == Emit(Part(h, body), State(left, SeekBoundary))
  {
    PrefixDrop(q, body + "\r\n" + cfg.delim + "\r\n", y);
    var z := q[|body| + 2 + |cfg.delim| + 2..];
    ScanWhole(cfg, h, body, z);
    left := cfg.delim + "\r\n" + z;
  }

  /** The wire after a body and after its delimiter line. */
  lemma WireAfterLine(cfg: Config, body: string, rest: seq<Frame>) returns (y: string)
    requires rest != []
    ensures Wire(cfg, "", rest) == cfg.delim + "\r\n" + y
    ensures body + Wire(cfg, "\r\n", rest) == body + "\r\n" + cfg.delim + "\r\n" + y
  {
    var f, tail := rest[0], rest[0].body + Wire(cfg, "\r\n", rest[1..]);
    y := f.block + "\r\n\r\n" + tail;
    assert Opening(cfg, f) + tail == cfg.delim + "\r\n" + y;
    assert Wire(cfg, "", rest) == Opening(cfg, f) + tail;
    assert Wire(cfg, "\r\n", rest) == "\r\n" + (Opening(cfg, f) + tail);
  }

  /** Main result: any frames on the wire, any prefix of it, any chunking. */
  lemma PrefixParses(cfg: Config, frames: seq<Frame>, chunks: seq<string>)
    requires Writable(cfg, frames) && Join(chunks) <= Wire(cfg, "", frames)
    ensures var o := FeedAll(cfg, START, chunks);
            o.error.None?
            && o.parts == PartsOf(cfg, frames[..Complete(cfg, "", frames, |Join(chunks)|)])
  {
    assert Quiet(cfg, START) by {
      RunPrefix(cfg, "", [], "");
      assert Find("", cfg.delim, 0).None?;
    }
    forall k | 0 <= k <= |chunks| ensures Feed(cfg, START, Join(chunks[..k])).error.None? {
      assert chunks == chunks[..k] + chunks[k..];
      JoinAppend(chunks[..k], chunks[k..]);
      RunPrefix(cfg, "", frames, Join(chunks[..k]));
      assert Append(START, Join(chunks[..k])) == State(Join(chunks[..k]), SeekBoundary);
    }
    CutByPrefixes(cfg, START, chunks);
    FeedAllIsFeed(cfg, START, chunks);
    assert Append(START, Join(chunks)) == State(Join(chunks), SeekBoundary);
    RunPrefix(cfg, "", frames, Join(chunks));
  }
}
