/** The parser does not care how the stream is cut into chunks. */
module MultipartConfluence {
  import opened Bytes
  import opened HeaderBlock
  import opened MultipartSpec

  /** The loop has stopped here: it waits for input. */
  predicate Quiet(cfg: Config, s: State) {
    Advance(cfg, s) == NeedMore(s)
  }

  // ---- a step that does something does the same on a longer buffer -------

  lemma SeekIs(cfg: Config, buf: string, idx: nat, nl: nat)
    requires Find(buf, cfg.delim, 0) == Some(idx)
    requires idx + |cfg.delim| + 2 <= |buf|
    requires buf[idx + |cfg.delim|..idx + |cfg.delim| + 2] != "--"
    requires Find(buf, "\n", idx + |cfg.delim|) == Some(nl)
    ensures AdvanceSeek(cfg, buf) == Progress(State(buf[nl + 1..], Headers))
  {
    hide Find;
  }

  lemma SeekExtends(cfg: Config, buf: string, x: string)
    requires AdvanceSeek(cfg, buf).Progress?
    ensures AdvanceSeek(cfg, buf + x) == Progress(Append(AdvanceSeek(cfg, buf).next, x))
  {
    hide Find;
    var idx := Find(buf, cfg.delim, 0).value;
    var after := idx + |cfg.delim|;
    var nl := Find(buf, "\n", after).value;
    FindExtends(buf, x, cfg.delim, 0);
    FindExtends(buf, x, "\n", after);
    assert (buf + x)[after..after + 2] == buf[after..after + 2] by { SliceExtends(buf, x, after, after + 2); }
    assert (buf + x)[nl + 1..] == buf[nl + 1..] + x by { SliceExtends(buf, x, 0, nl + 1); }
    SeekIs(cfg, buf + x, idx, nl);
  }

  lemma SeekDoneExtends(cfg: Config, buf: string, x: string)
    requires AdvanceSeek(cfg, buf).NeedMore? && AdvanceSeek(cfg, buf).next.phase.Done?
    ensures AdvanceSeek(cfg, buf + x) == NeedMore(State("", Done)) == AdvanceSeek(cfg, buf)
  {
    hide Find;
    FindExtends(buf, x, cfg.delim, 0);
    var after := Find(buf, cfg.delim, 0).value + |cfg.delim|;
    SliceExtends(buf, x, after, after + 2);
  }

  lemma TerminatorsApart(s: string, lf: int, crlf: int)
    requires OccursAt(s, "\n\n", lf) && OccursAt(s, "\r\n\r\n", crlf)
    ensures crlf != lf && crlf + 1 != lf
  {
    assert s[lf..lf + 2][0] == s[lf] == '\n' && s[lf..lf + 2][1] == s[lf + 1] == '\n';
    assert s[crlf..crlf + 4][0] == s[crlf] == '\r' && s[crlf..crlf + 4][2] == s[crlf + 2] == '\r';
  }

  /** The earliest terminator stays the earliest: a CRLF CRLF completed by the
      new bytes cannot start before an LF LF already seen, nor the reverse. */
  lemma TerminatorExtends(buf: string, x: string)
    requires HeaderTerminator(buf).Some?
    ensures HeaderTerminator(buf + x) == HeaderTerminator(buf)
  {
    hide OccursAt, Find;
    SearchExtends(buf, x, "\r\n\r\n");
    SearchExtends(buf, x, "\n\n");
    var crlf, lf := Find(buf + x, "\r\n\r\n", 0), Find(buf + x, "\n\n", 0);
    if crlf.Some? && lf.Some? {
      FindMeans(buf + x, "\r\n\r\n", 0);
      FindMeans(buf + x, "\n\n", 0);
      TerminatorsApart(buf + x, lf.value, crlf.value);
    }
  }

  /** A search on a longer buffer finds the same, or something reaching into
      the new bytes. */
  lemma SearchExtends(buf: string, x: string, pat: string)
    ensures Find(buf, pat, 0).Some? ==> Find(buf + x, pat, 0) == Find(buf, pat, 0)
    ensures Find(buf, pat, 0).None? && Find(buf + x, pat, 0).Some? ==>
              Find(buf + x, pat, 0).value + |pat| > |buf|
  {
    hide OccursAt, Find;
    if Find(buf, pat, 0).Some? {
      FindExtends(buf, x, pat, 0);
    } else if Find(buf + x, pat, 0).Some? {
      FindMeans(buf, pat, 0);
      FindMeans(buf + x, pat, 0);
      OccursExtends(buf, x, pat, Find(buf + x, pat, 0).value);
    }
  }

  lemma HeadersExtend(cfg: Config, buf: string, x: string)
    requires HeaderTerminator(buf).Some?
    ensures var t := HeaderTerminator(buf).value;
            AdvanceHeaders(cfg, buf) == EndHeaders(cfg, buf[..t.at], buf[t.at + t.len..])
            && AdvanceHeaders(cfg, buf + x)
            == EndHeaders(cfg, buf[..t.at], buf[t.at + t.len..] + x)
  {
    TerminatorExtends(buf, x);
    var t := HeaderTerminator(buf).value;
    assert (buf + x)[..t.at] == buf[..t.at];
    assert (buf + x)[t.at + t.len..] == buf[t.at + t.len..] + x;
  }

  lemma DelimiterLineExtends(buf: string, x: string, delim: Delimiter, i: int)
    requires 0 <= i && Judgeable(buf, delim, i)
    ensures DelimiterLine(buf + x, delim, i) <==> DelimiterLine(buf, delim, i)
  {
    OccursExtends(buf, x, delim, i);
  }

  /** The scan finds exactly the first delimiter line. */
  lemma ScanFindsFirst(buf: string, delim: Delimiter, i: nat)
    requires FirstDelimiterLine(buf, delim, i)
    ensures ScanFrom(buf, delim, 0) == Found(i)
  {
    ScanFromMeaning(buf, delim, 0);
  }

  lemma ScanFoundExtends(buf: string, x: string, delim: Delimiter)
    requires ScanFrom(buf, delim, 0).Found?
    ensures ScanFrom(buf + x, delim, 0) == ScanFrom(buf, delim, 0)
  {
    ScanFromMeaning(buf, delim, 0);
    var i := ScanFrom(buf, delim, 0).at;
    forall j | 0 <= j <= i
      ensures DelimiterLine(buf + x, delim, j) <==> DelimiterLine(buf, delim, j)
    {
      DelimiterLineExtends(buf, x, delim, j);
    }
    ScanFindsFirst(buf + x, delim, i);
  }

  lemma ScanExtends(cfg: Config, h: HeaderMap, buf: string, x: string)
    requires AdvanceScan(cfg, h, buf).Emit?
    ensures AdvanceScan(cfg, h, buf + x)
         == (var r := AdvanceScan(cfg, h, buf); Emit(r.part, Append(r.next, x)))
  {
    hide ScanFrom, BodyEnd;
    ScanFoundExtends(buf, x, cfg.delim);
    BodyEndExtends(buf, x, ScanFrom(buf, cfg.delim, 0).at);
  }

  lemma BodyEndExtends(buf: string, x: string, i: nat)
    requires i <= |buf|
    ensures BodyEnd(buf + x, i) == BodyEnd(buf, i)
    ensures (buf + x)[..BodyEnd(buf, i)] == buf[..BodyEnd(buf, i)] && (buf + x)[i..] == buf[i..] + x
  {
    SliceExtends(buf, x, if i >= 2 then i - 2 else 0, i);
    SliceExtends(buf, x, if i >= 1 then i - 1 else 0, i);
    SliceExtends(buf, x, 0, BodyEnd(buf, i));
  }

  /** What one step does to a longer buffer, whenever it did anything. */
  lemma StepExtends(cfg: Config, s: State, x: string)
    requires !Advance(cfg, s).Fail? && Advance(cfg, s) != NeedMore(s)
    ensures Advance(cfg, Append(s, x))
         == (match Advance(cfg, s)
             case NeedMore(n) => NeedMore(n)
             case Progress(n) => Progress(Append(n, x))
             case Emit(p, n) => Emit(p, Append(n, x))
             case Fail(e, n) => Fail(e, n))
  {
    match s.phase
    case SeekBoundary =>
      if Advance(cfg, s).Progress? {
        SeekExtends(cfg, s.buf, x);
      } else {
        SeekDoneExtends(cfg, s.buf, x);
      }
    case Headers => HeadersExtend(cfg, s.buf, x);
    case BodyKnown(h, n) =>
      assert (s.buf + x)[..n] == s.buf[..n];
      assert (s.buf + x)[n..] == s.buf[n..] + x;
    case BodyScan(h) => ScanExtends(cfg, h, s.buf, x);
    case Done =>
  }

  // ---- whole runs --------------------------------------------------------

  /** More input after an error-free run simply continues it. */
  lemma PrependTwice(a: seq<Part>, b: seq<Part>, o: Outcome)
    ensures Prepend(a, Prepend(b, o)) == Prepend(a + b, o)
  {
    assert a + (b + o.parts) == a + b + o.parts;
  }

  lemma {:induction false} RunContinues(cfg: Config, s: State, x: string)
    requires Run(cfg, s).error.None?
    ensures Quiet(cfg, Run(cfg, s).next)
    ensures Run(cfg, Append(s, x))
         == Prepend(Run(cfg, s).parts, Feed(cfg, Run(cfg, s).next, x))
    decreases |s.buf|, Rank(s.phase)
  {
    var step := Advance(cfg, s);
    if step != NeedMore(s) {
      StepExtends(cfg, s, x);
      match step
      case NeedMore(n) =>
        assert n.phase.Done?;
      case Progress(n) => RunContinues(cfg, n, x);
      case Emit(p, n) =>
        RunContinues(cfg, n, x);
        PrependTwice([p], Run(cfg, n).parts, Feed(cfg, Run(cfg, n).next, x));
      case Fail(e, n) =>
    }
  }

  lemma AppendJoins(s: State, x: string, y: string)
    ensures Append(Append(s, x), y) == Append(s, x + y)
  {
    assert s.buf + x + y == s.buf + (x + y);
  }

  /** Feeding two chunks is feeding their concatenation. */
  lemma FeedJoins(cfg: Config, s: State, x: string, y: string)
    requires Feed(cfg, s, x).error.None?
    ensures Quiet(cfg, Feed(cfg, s, x).next)
    ensures Feed(cfg, s, x + y)
         == Prepend(Feed(cfg, s, x).parts, Feed(cfg, Feed(cfg, s, x).next, y))
  {
    AppendJoins(s, x, y);
    RunContinues(cfg, Append(s, x), y);
  }

  /** An error-free chunked feed is one feed of the whole. */
  lemma {:induction false} FeedAllIsFeed(cfg: Config, s: State, chunks: seq<string>)
    requires Quiet(cfg, s)
    requires FeedAll(cfg, s, chunks).error.None?
    ensures Feed(cfg, s, Join(chunks)) == FeedAll(cfg, s, chunks)
    ensures Quiet(cfg, FeedAll(cfg, s, chunks).next)
    decreases |chunks|
  {
    if chunks == [] {
      assert Append(s, "") == s;
    } else {
      FeedJoins(cfg, s, chunks[0], Join(chunks[1..]));
      FeedAllIsFeed(cfg, Feed(cfg, s, chunks[0]).next, chunks[1..]);
    }
  }

  lemma {:induction false} FeedAllAppend(cfg: Config, s: State, a: seq<string>, b: seq<string>)
    requires FeedAll(cfg, s, a).error.None?
    ensures FeedAll(cfg, s, a + b)
         == Prepend(FeedAll(cfg, s, a).parts, FeedAll(cfg, FeedAll(cfg, s, a).next, b))
    decreases |a|
  {
    if a == [] {
      assert a + b == b;
    } else {
      assert (a + b)[1..] == a[1..] + b;
      hide Feed;
      var o := Feed(cfg, s, a[0]);
      FeedAllAppend(cfg, o.next, a[1..], b);
      PrependTwice(o.parts, FeedAll(cfg, o.next, a[1..]).parts,
                   FeedAll(cfg, FeedAll(cfg, s, a).next, b));
    }
  }

  lemma {:induction false} FeedAllPrefixOk(cfg: Config, s: State, a: seq<string>, b: seq<string>)
    requires FeedAll(cfg, s, a + b).error.None?
    ensures FeedAll(cfg, s, a).error.None?
    decreases |a|
  {
    if a != [] {
      assert (a + b)[1..] == a[1..] + b;
      FeedAllPrefixOk(cfg, Feed(cfg, s, a[0]).next, a[1..], b);
    }
  }

  /** The chunks of each group merged into one. */
  function Coarsen(groups: seq<seq<string>>): seq<string> {
    if groups == [] then [] else [Join(groups[0])] + Coarsen(groups[1..])
  }

  function Flatten(groups: seq<seq<string>>): seq<string> {
    if groups == [] then [] else groups[0] + Flatten(groups[1..])
  }

  /** Main result: if a cut of the stream raises nothing, every coarser cut
      raises nothing, returns the same parts and ends in the same state. */
  lemma {:induction false} ChunkConfluence(cfg: Config, s: State, groups: seq<seq<string>>)
    requires Quiet(cfg, s)
    requires FeedAll(cfg, s, Flatten(groups)).error.None?
    ensures FeedAll(cfg, s, Coarsen(groups)) == FeedAll(cfg, s, Flatten(groups))
    decreases |groups|
  {
    if groups != [] {
      var g, rest := groups[0], Flatten(groups[1..]);
      FeedAllPrefixOk(cfg, s, g, rest);
      FeedAllAppend(cfg, s, g, rest);
      FeedAllIsFeed(cfg, s, g);
      ChunkConfluence(cfg, FeedAll(cfg, s, g).next, groups[1..]);
    }
  }

  /** A cut raises nothing when every prefix it stops at is accepted in one
      piece; when that is, CutRaisesNothingIff says. */
  lemma {:induction false} CutByPrefixes(cfg: Config, s: State, chunks: seq<string>)
    requires Quiet(cfg, s)
    ensures FeedAll(cfg, s, chunks).error.None?
       <==> forall k :: 0 <= k <= |chunks| ==> Feed(cfg, s, Join(chunks[..k])).error.None?
    decreases |chunks|
  {
    if FeedAll(cfg, s, chunks).error.None? {
      forall k | 0 <= k <= |chunks| ensures Feed(cfg, s, Join(chunks[..k])).error.None? {
        assert chunks == chunks[..k] + chunks[k..];
        FeedAllPrefixOk(cfg, s, chunks[..k], chunks[k..]);
        FeedAllIsFeed(cfg, s, chunks[..k]);
      }
    } else {
      var n := |chunks| - 1;
      var init := chunks[..n];
      assert chunks == init + [chunks[n]] && chunks[..n + 1] == chunks;
      if FeedAll(cfg, s, init).error.None? {
        FeedAllAppend(cfg, s, init, [chunks[n]]);
        FeedAllIsFeed(cfg, s, init);
        JoinAppend(init, [chunks[n]]);
        assert Join([chunks[n]]) == chunks[n] + Join([]) == chunks[n];
        FeedJoins(cfg, s, Join(init), chunks[n]);
        assert Feed(cfg, s, Join(chunks[..n + 1])).error.Some?;
      } else {
        CutByPrefixes(cfg, s, init);
        var k :| 0 <= k <= n && Feed(cfg, s, Join(init[..k])).error.Some?;
        assert init[..k] == chunks[..k];
      }
    }
  }

  // ---- the guards --------------------------------------------------------

  /** The loop would have to wait here, but what it has passes a limit: no
      boundary in more than the gap, no end of a boundary line, no end of the
      headers, no delimiter in more than a part. */
  predicate Overfull(cfg: Config, s: State) {
    match s.phase
    case SeekBoundary => (
      match Find(s.buf, cfg.delim, 0)
      case None => |s.buf| > cfg.maxGap
      case Some(idx) =>
        var after := idx + |cfg.delim|;
        after + 2 <= |s.buf| && s.buf[after..after + 2] != "--"
        && Find(s.buf, "\n", after).None? && |s.buf| - after > cfg.maxHeaderLine
    )
    case Headers => HeaderTerminator(s.buf).None? && |s.buf| > cfg.maxHeadersTotal
    case BodyScan(_) => ScanFrom(s.buf, cfg.delim, 0).Nothing? && |s.buf| > cfg.maxPart
    case _ => false
  }

  /** The parser without its limits on waiting: only what the bytes say, an
      over-long header line or a bad length, is refused. */
  function Patient(cfg: Config, s: State): Outcome
    decreases |s.buf|, Rank(s.phase)
  {
    if Overfull(cfg, s) then Outcome([], s, None)
    else
      match Advance(cfg, s)
      case NeedMore(n) => Outcome([], n, None)
      case Fail(e, n) => Outcome([], n, Some(e))
      case Progress(n) => Patient(cfg, n)
      case Emit(p, n) => Prepend([p], Patient(cfg, n))
  }

  /** The four guards, and what else can fail. */
  lemma FailsIff(cfg: Config, s: State)
    ensures Overfull(cfg, s) ==> Advance(cfg, s).Fail?
    ensures Advance(cfg, s).Fail? && !Overfull(cfg, s) ==> s.phase.Headers? && HeaderTerminator(s.buf).Some?
  {
    hide Find, HeaderTerminator, ScanFrom;
  }

  /** One feed is accepted when the patient parser accepts it and is not left
      waiting with too much. */
  lemma {:induction false} AcceptedIff(cfg: Config, s: State)
    ensures Run(cfg, s).error.None?
       <==> Patient(cfg, s).error.None? && !Overfull(cfg, Patient(cfg, s).next)
    decreases |s.buf|, Rank(s.phase)
  {
    hide Overfull;
    FailsIff(cfg, s);
    if !Overfull(cfg, s) {
      match Advance(cfg, s)
      case NeedMore(n) => WaitsWithinLimits(cfg, s);
      case Progress(n) => AcceptedIff(cfg, n);
      case Emit(p, n) => AcceptedIff(cfg, n);
      case Fail(e, n) =>
    }
  }

  lemma WaitsWithinLimits(cfg: Config, s: State)
    requires Advance(cfg, s).NeedMore?
    ensures !Overfull(cfg, Advance(cfg, s).next)
  {
    FailsIff(cfg, s);
    hide Find, HeaderTerminator, ScanFrom;
  }

  /** What the patient parser refuses, it refuses whatever follows. */
  lemma {:induction false} RefusalLasts(cfg: Config, s: State, x: string)
    requires Patient(cfg, s).error.Some?
    ensures Patient(cfg, Append(s, x)).error == Patient(cfg, s).error
    decreases |s.buf|, Rank(s.phase)
  {
    hide Overfull;
    FailsIff(cfg, s);
    FailsIff(cfg, Append(s, x));
    match Advance(cfg, s)
    case NeedMore(n) =>
    case Progress(n) =>
      StepExtends(cfg, s, x);
      RefusalLasts(cfg, n, x);
    case Emit(p, n) =>
      StepExtends(cfg, s, x);
      RefusalLasts(cfg, n, x);
    case Fail(e, n) => ContentFailureLasts(cfg, s, x);
  }

  lemma ContentFailureLasts(cfg: Config, s: State, x: string)
    requires s.phase.Headers? && HeaderTerminator(s.buf).Some? && Advance(cfg, s).Fail?
    ensures Advance(cfg, Append(s, x)).Fail? && Advance(cfg, Append(s, x)).error == Advance(cfg, s).error
    ensures !Overfull(cfg, Append(s, x))
  {
    HeadersExtend(cfg, s.buf, x);
    TerminatorExtends(s.buf, x);
    hide HeaderTerminator, Parse, ContentLength;
  }

  /** Exactly when a cut raises nothing: the bytes hold nothing the patient
      parser refuses, which no cut changes, and at no chunk's end is the parser
      left waiting with more than the limit for what it waits for. */
  lemma CutRaisesNothingIff(cfg: Config, s: State, chunks: seq<string>)
    requires Quiet(cfg, s)
    ensures FeedAll(cfg, s, chunks).error.None?
       <==> Patient(cfg, Append(s, Join(chunks))).error.None?
            && forall k :: 0 <= k <= |chunks| ==>
                 !Overfull(cfg, Patient(cfg, Append(s, Join(chunks[..k]))).next)
  {
    hide Overfull, Patient, Run, FeedAll, Join;
    CutByPrefixes(cfg, s, chunks);
    forall k | 0 <= k <= |chunks|
      ensures Feed(cfg, s, Join(chunks[..k])).error.None?
         <==> Patient(cfg, Append(s, Join(chunks[..k]))).error.None?
              && !Overfull(cfg, Patient(cfg, Append(s, Join(chunks[..k]))).next)
      ensures Patient(cfg, Append(s, Join(chunks))).error.None? ==>
                Patient(cfg, Append(s, Join(chunks[..k]))).error.None?
    {
      AcceptedIff(cfg, Append(s, Join(chunks[..k])));
      assert chunks == chunks[..k] + chunks[k..];
      JoinAppend(chunks[..k], chunks[k..]);
      AppendJoins(s, Join(chunks[..k]), Join(chunks[k..]));
      if Patient(cfg, Append(s, Join(chunks[..k]))).error.Some? {
        RefusalLasts(cfg, Append(s, Join(chunks[..k])), Join(chunks[k..]));
      }
    }
    assert chunks[..|chunks|] == chunks;
  }

  /** Errors go one way only: a finer cut may be refused where a coarser one
      is accepted, since limits are checked only when nothing was found. */
  lemma FinerCutMayRaise()
    ensures var cfg := Config("--", 100, 100, 0, 100);
            Feed(cfg, START, "x" + "----").error.None?
            && FeedAll(cfg, START, ["x", "----"]).error == Some(NoBoundary)
  {
    var cfg := Config("--", 100, 100, 0, 100);
    var s := "x" + "----";
    assert Append(START, s) == State(s, SeekBoundary) && Append(START, "x") == State("x", SeekBoundary);
    assert Find("x", "--", 0).None?;
    assert s[0..2][0] == 'x' && s[1..3] == "--" && s[3..5] == "--";
    FindIs(s, "--", 0, 1);
  }
}
