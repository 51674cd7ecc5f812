/** The incremental parser object, refining the transition system. */
module MultipartParsing {
  import opened Bytes
  import opened HeaderBlock
  import opened MultipartSpec

  datatype Tag = SEEK_BOUNDARY | HEADERS | BODY_KNOWN | BODY_SCAN | DONE

  /** What one `_advance_*` call answers. */
  datatype Answer = NeedsMore | Progressed | Completed(part: Part) | Raised(error: Error)

  /** The step of the transition system that an answer stands for. */
  function StepOf(a: Answer, next: State): Step {
    match a
    case NeedsMore => Step.NeedMore(next)
    case Progressed => Step.Progress(next)
    case Completed(p) => Step.Emit(p, next)
    case Raised(e) => Step.Fail(e, next)
  }

  /** One turn of the feed loop, seen from the whole run. */
  lemma RunTurn(cfg: Config, start: State, parts: seq<Part>, before: State, a: Answer, after: State)
    requires Run(cfg, start) == Prepend(parts, Run(cfg, before))
    requires Advance(cfg, before) == StepOf(a, after)
    ensures a.NeedsMore? ==> Run(cfg, start) == Outcome(parts, after, None)
    ensures a.Raised? ==> Run(cfg, start) == Outcome(parts, after, Some(a.error))
    ensures a.Progressed? ==> Run(cfg, start) == Prepend(parts, Run(cfg, after))
    ensures a.Completed? ==> Run(cfg, start) == Prepend(parts + [a.part], Run(cfg, after))
  {
    hide Advance;
    assert parts + [] == parts;
    if a.Completed? {
      assert parts + ([a.part] + Run(cfg, after).parts) == parts + [a.part] + Run(cfg, after).parts;
    }
  }

  /** Progress uses up bytes, or settles a body that used none. */
  lemma AdvanceDecreases(cfg: Config, s: State)
    ensures var step := Advance(cfg, s);
            step.Progress? || step.Emit? ==>
              |step.next.buf| < |s.buf| || (|step.next.buf| == |s.buf| && Rank(step.next.phase) < Rank(s.phase))
  {
    hide Find, HeaderTerminator, Parse, ContentLength;
  }

  predicate PrecededOk(buf: string, idx: nat)
    requires idx <= |buf|
  {
    idx == 0
    || (idx >= 2 && buf[idx - 2..idx] == "\r\n")
    || (idx >= 1 && buf[idx - 1..idx] == "\n")
  }

  predicate FollowedOk(buf: string, after: nat)
    requires after + 2 <= |buf|
  {
    buf[after..after + 2] == "--"
    || buf[after..after + 2] == "\r\n"
    || buf[after..after + 1] == "\n"
  }

  lemma AnchoredByBytes(buf: string, delim: Delimiter, idx: nat)
    requires OccursAt(buf, delim, idx)
    ensures Anchored(buf, delim, idx) <==> PrecededOk(buf, idx)
  {
    if idx >= 2 && buf[idx - 2..idx] == "\r\n" {
      assert buf[idx - 2..idx][1] == buf[idx - 1];
    }
    if idx >= 1 {
      assert buf[idx - 1..idx][0] == buf[idx - 1];
    }
  }

  lemma LineByBytes(buf: string, delim: Delimiter, idx: nat)
    requires Anchored(buf, delim, idx) && Judgeable(buf, delim, idx)
    ensures DelimiterLine(buf, delim, idx) <==> FollowedOk(buf, idx + |delim|)
  {
    var a := idx + |delim|;
    assert buf[a..a + 1] == [buf[a]] && buf[a..a + 2] == [buf[a], buf[a + 1]];
  }

  lemma ScanSkips(buf: string, delim: Delimiter, from: nat, idx: nat)
    requires Find(buf, delim, from) == Some(idx)
    requires !Anchored(buf, delim, idx) || (Judgeable(buf, delim, idx) && !DelimiterLine(buf, delim, idx))
    ensures ScanFrom(buf, delim, from) == ScanFrom(buf, delim, idx + 1)
  {
    hide Find, OccursAt;
  }

  class MultipartParser {
    const cfg: Config
    var buf: string
    var state: Tag
    var pendingHeaders: Option<HeaderMap>
    var bodyRemaining: Option<nat>

    ghost predicate Valid()
      reads this
    {
      (pendingHeaders.Some? <==> state == BODY_KNOWN || state == BODY_SCAN)
      && (bodyRemaining.Some? <==> state == BODY_KNOWN)
    }

    ghost function View(): State
      reads this
      requires Valid()
    {
      State(buf,
            match state
            case SEEK_BOUNDARY => SeekBoundary
            case HEADERS => Headers
            case BODY_KNOWN => BodyKnown(pendingHeaders.value, bodyRemaining.value)
            case BODY_SCAN => BodyScan(pendingHeaders.value)
            case DONE => Done)
    }

    constructor (boundary: string, maxHeaderLine: int, maxHeadersTotal: int, maxGap: int, maxPart: int)
      requires boundary != ""   // Create reports the empty boundary
      ensures Valid() && View() == START
      ensures cfg == Config(NormalizeDelimiter(boundary), maxHeaderLine, maxHeadersTotal, maxGap, maxPart)
    {
      cfg := Config(NormalizeDelimiter(boundary), maxHeaderLine, maxHeadersTotal, maxGap, maxPart);
      buf := "";
      state := SEEK_BOUNDARY;
      pendingHeaders := None;
      bodyRemaining := None;
    }

    static method Create(boundary: string, maxHeaderLine: int, maxHeadersTotal: int, maxGap: int, maxPart: int)
      returns (r: Result<MultipartParser, Error>)
      ensures boundary == "" <==> r == Err(EmptyBoundary)
      ensures boundary != "" ==>
                r.Ok? && fresh(r.value) && r.value.Valid() && r.value.View() == START
                && r.value.cfg == Config(NormalizeDelimiter(boundary), maxHeaderLine,
                                         maxHeadersTotal, maxGap, maxPart)
    {
      if boundary == "" {
        return Err(EmptyBoundary);
      }
      var p := new MultipartParser(boundary, maxHeaderLine, maxHeadersTotal, maxGap, maxPart);
      return Ok(p);
    }

    /** Adds bytes; returns every part completed by them, or the error raised. */
    method Feed(data: string) returns (r: Result<seq<Part>, Error>)
      requires Valid()
      modifies this
      ensures Valid()
      ensures var o := MultipartSpec.Feed(cfg, old(View()), data);
              View() == o.next
              && r == if o.error.Some? then Err(o.error.value) else Ok(o.parts)
    {
      if state == DONE {
        return Ok([]);
      }
      buf := buf + data;
      ghost var start := View();
      var parts := [];
      while true
        invariant Valid()
        invariant Run(cfg, start) == Prepend(parts, Run(cfg, View()))
        decreases |buf|, Rank(View().phase)
      {
        ghost var before := View();
        var answer := AdvanceOnce();
        RunTurn(cfg, start, parts, before, answer, View());
        match answer
        case NeedsMore => return Ok(parts);
        case Raised(e) => return Err(e);
        case Progressed =>
        case Completed(part) => parts := parts + [part];
      }
    }

    method AdvanceOnce() returns (a: Answer)
      requires Valid()
      modifies this
      ensures Valid() && Advance(cfg, old(View())) == StepOf(a, View())
      ensures a.Progressed? || a.Completed? ==>
                |buf| < old(|buf|) || (|buf| == old(|buf|) && Rank(View().phase) < Rank(old(View().phase)))
    {
      hide AdvanceSeek, AdvanceHeaders, AdvanceKnown, AdvanceScan;
      AdvanceDecreases(cfg, View());
      match state
      case SEEK_BOUNDARY => a := AdvanceSeekBoundary();
      case HEADERS => a := AdvanceHeaderBlock();
      case BODY_KNOWN => a := AdvanceBodyKnown();
      case BODY_SCAN => a := AdvanceBodyScan();
      case DONE => a := NeedsMore;
    }

    method AdvanceSeekBoundary() returns (a: Answer)
      requires Valid() && state == SEEK_BOUNDARY
      modifies this
      ensures Valid() && AdvanceSeek(cfg, old(buf)) == StepOf(a, View())
    {
      var idx := Find(buf, cfg.delim, 0);
      if idx.None? {
        return if |buf| > cfg.maxGap then Raised(NoBoundary) else NeedsMore;
      }
      var after := idx.value + |cfg.delim|;
      if |buf| < after + 2 {
        return NeedsMore;
      }
      if buf[after..after + 2] == "--" {
        buf := "";
        state := DONE;
        return NeedsMore;
      }
      var nl := Find(buf, "\n", after);
      if nl.None? {
        return if |buf| - after > cfg.maxHeaderLine then Raised(BoundaryLineTooLong) else NeedsMore;
      }
      buf := buf[nl.value + 1..];
      state := HEADERS;
      return Progressed;
    }

    method AdvanceHeaderBlock() returns (a: Answer)
      requires Valid() && state == HEADERS
      modifies this
      ensures Valid() && AdvanceHeaders(cfg, old(buf)) == StepOf(a, View())
    {
      var sep := HeaderTerminator(buf);
      if sep.None? {
        return if |buf| > cfg.maxHeadersTotal then Raised(HeadersTooLong) else NeedsMore;
      }
      var block := buf[..sep.value.at];
      buf := buf[sep.value.at + sep.value.len..];
      var headers := ParseHeaderBlock(block);
      if headers.None? {
        return Raised(HeaderLineTooLong);
      }
      var length := ContentLength(headers.value, cfg.maxPart);
      if length.Illegal? {
        return Raised(BadContentLength);
      }
      pendingHeaders := headers;
      if length.Absent? {
        state := BODY_SCAN;
      } else {
        state := BODY_KNOWN;
        bodyRemaining := Some(length.size);
      }
      return Progressed;
    }

    method ParseHeaderBlock(block: string) returns (headers: Option<HeaderMap>)
      ensures headers == Parse(block, cfg.maxHeaderLine)
    {
      var lines, found := SplitLines(block), map[];
      for k := 0 to |lines|
        invariant AddLines(found, lines[k..], cfg.maxHeaderLine) == Parse(block, cfg.maxHeaderLine)
      {
        var line := lines[k];
        assert lines[k..][1..] == lines[k + 1..];
        if line == "" {
          assert AddLine(found, line) == found by { assert Find("", ":", 0).None?; }
          continue;
        }
        if |line| > cfg.maxHeaderLine {
          return None;
        }
        found := AddLine(found, line);
      }
      return Some(found);
    }

    method AdvanceBodyKnown() returns (a: Answer)
      requires Valid() && state == BODY_KNOWN
      modifies this
      ensures Valid()
      ensures AdvanceKnown(old(pendingHeaders.value), old(bodyRemaining.value), old(buf))
           == StepOf(a, View())
    {
      var needed := bodyRemaining.value;
      if |buf| < needed {
        return NeedsMore;
      }
      var body := buf[..needed];
      buf := buf[needed..];
      var headers := pendingHeaders.value;
      pendingHeaders := None;
      bodyRemaining := None;
      state := SEEK_BOUNDARY;
      return Completed(Part(headers, body));
    }

    method AdvanceBodyScan() returns (a: Answer)
      requires Valid() && state == BODY_SCAN
      modifies this
      ensures Valid()
      ensures AdvanceScan(cfg, old(pendingHeaders.value), old(buf)) == StepOf(a, View())
    {
      var scan := FindDelimiterLine();
      match scan
      case Undecided => return NeedsMore;
      case Nothing => return if |buf| > cfg.maxPart then Raised(PartTooLong) else NeedsMore;
      case Found(idx) =>
        var bodyEnd := idx;
        if bodyEnd >= 2 && buf[bodyEnd - 2..bodyEnd] == "\r\n" {
          bodyEnd := bodyEnd - 2;
        } else if bodyEnd >= 1 && buf[bodyEnd - 1..bodyEnd] == "\n" {
          bodyEnd := bodyEnd - 1;
        }
        var body := buf[..bodyEnd];
        buf := buf[idx..];
        var headers := pendingHeaders.value;
        pendingHeaders := None;
        state := SEEK_BOUNDARY;
        return Completed(Part(headers, body));
    }

    /** The search loop of `_advance_body_scan`. */
    method FindDelimiterLine() returns (scan: Scan)
      ensures scan == ScanFrom(buf, cfg.delim, 0)
    {
      hide Anchored, DelimiterLine, PrecededOk, FollowedOk, OccursAt, Find;
      var searchFrom := 0;
      while true
        invariant ScanFrom(buf, cfg.delim, searchFrom) == ScanFrom(buf, cfg.delim, 0)
        decreases |buf| - searchFrom
      {
        var found := Find(buf, cfg.delim, searchFrom);
        if found.None? {
          return Nothing;
        }
        var idx := found.value;
        FindMeans(buf, cfg.delim, searchFrom);
        AnchoredByBytes(buf, cfg.delim, idx);
        if !PrecededOk(buf, idx) {
          ScanSkips(buf, cfg.delim, searchFrom, idx);
          searchFrom := idx + 1;
          continue;
        }
        var after := idx + |cfg.delim|;
        if |buf| < after + 2 {
          return Undecided;
        }
        LineByBytes(buf, cfg.delim, idx);
        if !FollowedOk(buf, after) {
          ScanSkips(buf, cfg.delim, searchFrom, idx);
          searchFrom := idx + 1;
          continue;
        }
        return Found(idx);
      }
    }
  }
}
