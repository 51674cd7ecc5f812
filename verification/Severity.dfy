/** Area and severity: the rasterised union of the counted boxes. */
module Severity {
  import opened Geometry
  import opened Suppression
  import opened Decode

  datatype Params = Params(procWidth: nat, procHeight: nat, decodeThreshold: real, decodeTopN: int,
                           nmsIou: real, nmsDetections: int, scoresThreshold: real, imgSensitivity: real,
                           contentX: int, contentY: int, contentWidth: int, contentHeight: int)

  predicate ValidParams(p: Params) {
    ValidContentRect(p.contentX, p.contentY, p.contentWidth, p.contentHeight, p.procWidth, p.procHeight)
  }

  /** A C++ cast to int: truncation toward zero. */
  function Trunc(r: real): int { if r >= 0.0 then r.Floor else -((-r).Floor) }

  function ClampInt(v: int, lo: int, hi: int): int {
    var m := if hi - 1 < v then hi - 1 else v;
    if lo < m then m else lo
  }

  function ClampX(p: Params, v: real): int { ClampInt(Trunc(v), p.contentX, p.contentX + p.contentWidth) }

  function ClampY(p: Params, v: real): int { ClampInt(Trunc(v), p.contentY, p.contentY + p.contentHeight) }

  /** The half-open cells of one counted box. */
  predicate Covers(p: Params, c: Candidate, x: int, y: int) {
    c.score > p.scoresThreshold
    && ClampX(p, c.box.x1) <= x < ClampX(p, c.box.x2)
    && ClampY(p, c.box.y1) <= y < ClampY(p, c.box.y2)
  }

  predicate Marked(p: Params, kept: seq<Candidate>, x: int, y: int) {
    exists k :: 0 <= k < |kept| && Covers(p, kept[k], x, y)
  }

  predicate InContent(p: Params, x: int, y: int) {
    p.contentX <= x < p.contentX + p.contentWidth && p.contentY <= y < p.contentY + p.contentHeight
  }

  /** The distinct cells in the union of the counted boxes. */
  ghost function Union(p: Params, kept: seq<Candidate>): set<(int, int)> {
    set x, y | p.contentX <= x < p.contentX + p.contentWidth
               && p.contentY <= y < p.contentY + p.contentHeight
               && Marked(p, kept, x, y) :: (x, y)
  }

  lemma CoversInContent(p: Params, c: Candidate, x: int, y: int)
    requires ValidParams(p) && Covers(p, c, x, y)
    ensures InContent(p, x, y) && x < p.contentX + p.contentWidth - 1 && y < p.contentY + p.contentHeight - 1
  {
  }

  /** What counts as covered, in terms of the box itself: the cells of the
      content, less its last row and column, whose far edges the box reaches and
      whose far edges lie beyond its near ones. */
  lemma CoversMeans(p: Params, c: Candidate, x: int, y: int)
    requires ValidParams(p)
    ensures Covers(p, c, x, y)
       <==> c.score > p.scoresThreshold
            && p.contentX <= x < p.contentX + p.contentWidth - 1
            && p.contentY <= y < p.contentY + p.contentHeight - 1
            && c.box.x1 < (x + 1) as real <= c.box.x2
            && c.box.y1 < (y + 1) as real <= c.box.y2
  {
    TruncBounds(c.box.x1, x);
    TruncBounds(c.box.x2, x);
    TruncBounds(c.box.y1, y);
    TruncBounds(c.box.y2, y);
    hide Trunc;
  }

  lemma TruncBounds(v: real, x: int)
    ensures x >= 0 ==> (Trunc(v) <= x <==> v < (x + 1) as real)
  {
    var low, up := v.Floor, (-v).Floor;
    assert low as real <= v < low as real + 1.0;
    assert up as real <= -v < up as real + 1.0;
  }

  // ---- the flat bitmap ---------------------------------------------------

  function At(p: Params, x: int, y: int): int { y * p.procWidth + x }

  predicate OnCanvas(p: Params, x: int, y: int) { 0 <= x < p.procWidth && 0 <= y < p.procHeight }

  lemma AtInRange(p: Params, x: int, y: int)
    requires OnCanvas(p, x, y)
    ensures 0 <= At(p, x, y) < p.procWidth * p.procHeight
    ensures At(p, x, y) / p.procWidth == y && At(p, x, y) % p.procWidth == x
  {
    QuotRem(y, x, p.procWidth);
    MulMono(y + 1, p.procHeight, p.procWidth);
  }

  lemma FromIndex(p: Params, k: int)
    requires 0 <= k < p.procWidth * p.procHeight
    ensures p.procWidth > 0 && OnCanvas(p, k % p.procWidth, k / p.procWidth)
    ensures At(p, k % p.procWidth, k / p.procWidth) == k
  {
    assert p.procWidth * p.procHeight == p.procHeight * p.procWidth;
    DivBelow(k, p.procWidth, p.procHeight);
  }

  ghost predicate Shows(p: Params, bits: seq<int>, kept: seq<Candidate>)
    requires |bits| == p.procWidth * p.procHeight
  {
    forall x, y :: OnCanvas(p, x, y) ==>
      0 <= At(p, x, y) < |bits| && bits[At(p, x, y)] == if Marked(p, kept, x, y) then 1 else 0
  }

  /** One more box painted over what was there. */
  ghost predicate Painted(p: Params, was: seq<int>, now: seq<int>, c: Candidate, toX: int, toY: int)
    requires |was| == |now| == p.procWidth * p.procHeight
  {
    forall x, y :: OnCanvas(p, x, y) ==>
      0 <= At(p, x, y) < |now|
      && now[At(p, x, y)] == if Covers(p, c, x, y) && (y < toY || (y == toY && x < toX)) then 1
                             else was[At(p, x, y)]
  }

  lemma PaintedNone(p: Params, was: seq<int>, c: Candidate, toX: int, toY: int)
    requires |was| == p.procWidth * p.procHeight
    requires toX <= ClampX(p, c.box.x1) && toY <= ClampY(p, c.box.y1)
    ensures Painted(p, was, was, c, toX, toY)
  {
    forall x, y | OnCanvas(p, x, y) ensures 0 <= At(p, x, y) < |was| { AtInRange(p, x, y); }
  }

  lemma PaintedOne(p: Params, was: seq<int>, now: seq<int>, c: Candidate, x: int, y: int)
    requires |was| == |now| == p.procWidth * p.procHeight
    requires Painted(p, was, now, c, x, y) && OnCanvas(p, x, y) && Covers(p, c, x, y)
    ensures 0 <= At(p, x, y) < |now|
    ensures Painted(p, was, now[At(p, x, y) := 1], c, x + 1, y)
  {
    AtInRange(p, x, y);
    hide At, Covers;
    forall x', y' | OnCanvas(p, x', y') ensures At(p, x', y') == At(p, x, y) ==> x' == x && y' == y {
      AtInRange(p, x', y');
    }
  }

  lemma PaintedRow(p: Params, was: seq<int>, now: seq<int>, c: Candidate, toX: int, y: int)
    requires |was| == |now| == p.procWidth * p.procHeight
    requires Painted(p, was, now, c, toX, y) && toX >= ClampX(p, c.box.x2)
    ensures Painted(p, was, now, c, ClampX(p, c.box.x1), y + 1)
  {
    hide At;
  }

  method FillBox(p: Params, bitmap: array<int>, c: Candidate)
    requires ValidParams(p) && bitmap.Length == p.procWidth * p.procHeight
    requires c.score > p.scoresThreshold
    modifies bitmap
    ensures forall x, y :: OnCanvas(p, x, y) ==>
              0 <= At(p, x, y) < bitmap.Length
              && bitmap[At(p, x, y)] == if Covers(p, c, x, y) then 1 else old(bitmap[At(p, x, y)])
  {
    hide At;
    ghost var was := bitmap[..];
    var x1, y1 := ClampX(p, c.box.x1), ClampY(p, c.box.y1);
    var x2, y2 := ClampX(p, c.box.x2), ClampY(p, c.box.y2);
    PaintedNone(p, was, c, x1, y1);
    var yy := y1;
    while yy < y2
      invariant y1 <= yy && (yy <= y2 || yy == y1)
      invariant Painted(p, was, bitmap[..], c, x1, yy)
    {
      var xx := x1;
      while xx < x2
        invariant x1 <= xx && (xx <= x2 || xx == x1)
        invariant Painted(p, was, bitmap[..], c, xx, yy)
      {
        PaintedOne(p, was, bitmap[..], c, xx, yy);
        ghost var before := bitmap[..];
        bitmap[At(p, xx, yy)] := 1;
        assert bitmap[..] == before[At(p, xx, yy) := 1];
        xx := xx + 1;
      }
      PaintedRow(p, was, bitmap[..], c, xx, yy);
      yy := yy + 1;
    }
    forall x, y | OnCanvas(p, x, y)
      ensures 0 <= At(p, x, y) < bitmap.Length
              && bitmap[At(p, x, y)] == if Covers(p, c, x, y) then 1 else was[At(p, x, y)]
    {
      assert bitmap[..][At(p, x, y)] == bitmap[At(p, x, y)];
    }
  }

  // ---- counting ----------------------------------------------------------

  ghost function Ones(p: Params, bits: seq<int>, n: int): set<(int, int)>
    requires n <= |bits| == p.procWidth * p.procHeight
  {
    set k | 0 <= k < n && bits[k] == 1 :: (k % WidthOr1(p), k / WidthOr1(p))
  }

  function WidthOr1(p: Params): nat { if p.procWidth > 0 then p.procWidth else 1 }

  lemma OnesNext(p: Params, bits: seq<int>, n: int)
    requires 0 <= n < |bits| == p.procWidth * p.procHeight && (bits[n] == 0 || bits[n] == 1)
    ensures |Ones(p, bits, n + 1)| == |Ones(p, bits, n)| + bits[n]
  {
    var next := Ones(p, bits, n);
    if bits[n] == 1 {
      CellIsNew(p, bits, n);
      assert Ones(p, bits, n + 1) == next + {(n % WidthOr1(p), n / WidthOr1(p))};
    } else {
      assert Ones(p, bits, n + 1) == next;
    }
  }

  lemma CellIsNew(p: Params, bits: seq<int>, n: int)
    requires 0 <= n < |bits| == p.procWidth * p.procHeight
    ensures (n % WidthOr1(p), n / WidthOr1(p)) !in Ones(p, bits, n)
  {
    hide At;
    FromIndex(p, n);
    forall k | 0 <= k < n ensures (k % WidthOr1(p), k / WidthOr1(p)) != (n % WidthOr1(p), n / WidthOr1(p)) {
      FromIndex(p, k);
    }
  }

  lemma OnesAreUnion(p: Params, bits: seq<int>, kept: seq<Candidate>)
    requires ValidParams(p) && |bits| == p.procWidth * p.procHeight && Shows(p, bits, kept)
    ensures Ones(p, bits, |bits|) == Union(p, kept)
  {
    hide Covers, At;
    forall cell | cell in Ones(p, bits, |bits|) ensures cell in Union(p, kept) {
      var k :| 0 <= k < |bits| && bits[k] == 1 && cell == (k % WidthOr1(p), k / WidthOr1(p));
      FromIndex(p, k);
      assert Marked(p, kept, cell.0, cell.1);
      MarkedInContent(p, kept, cell.0, cell.1);
    }
    forall cell | cell in Union(p, kept) ensures cell in Ones(p, bits, |bits|) {
      AtInRange(p, cell.0, cell.1);
      assert OnCanvas(p, cell.0, cell.1);
    }
  }

  lemma MarkedInContent(p: Params, kept: seq<Candidate>, x: int, y: int)
    requires ValidParams(p) && Marked(p, kept, x, y)
    ensures InContent(p, x, y) && x < p.contentX + p.contentWidth - 1 && y < p.contentY + p.contentHeight - 1
  {
    var k :| 0 <= k < |kept| && Covers(p, kept[k], x, y);
    CoversInContent(p, kept[k], x, y);
  }

  /** Painting the counted boxes and adding up the bytes counts the union. */
  method TotalArea(p: Params, kept: seq<Candidate>) returns (total: int)
    requires ValidParams(p)
    ensures total == |Union(p, kept)|
  {
    hide At, Covers;
    var bitmap := new int[p.procWidth * p.procHeight](_ => 0);
    forall x, y | OnCanvas(p, x, y) ensures 0 <= At(p, x, y) < bitmap.Length { AtInRange(p, x, y); }
    for k := 0 to |kept|
      invariant Shows(p, bitmap[..], kept[..k])
    {
      var c := kept[k];
      ghost var was := bitmap[..];
      if c.score > p.scoresThreshold {
        FillBox(p, bitmap, c);
      }
      ShowsNext(p, was, bitmap[..], kept, k);
    }
    assert kept[..|kept|] == kept;
    total := SumBytes(p, bitmap, kept);
  }

  /** `sum(bitmap)`, of zeros and ones. */
  method SumBytes(p: Params, bitmap: array<int>, kept: seq<Candidate>) returns (total: int)
    requires ValidParams(p) && bitmap.Length == p.procWidth * p.procHeight && Shows(p, bitmap[..], kept)
    ensures total == |Union(p, kept)|
  {
    hide At, Covers;
    total := 0;
    ghost var bits := bitmap[..];
    assert Ones(p, bits, 0) == {};
    forall i | 0 <= i < |bits| ensures bits[i] == 0 || bits[i] == 1 { FromIndex(p, i); }
    for i := 0 to bitmap.Length
      invariant bitmap[..] == bits
      invariant total == |Ones(p, bits, i)|
    {
      OnesNext(p, bits, i);
      total := total + bitmap[i];
    }
    OnesAreUnion(p, bits, kept);
  }

  lemma ShowsNext(p: Params, was: seq<int>, now: seq<int>, kept: seq<Candidate>, k: nat)
    requires k < |kept| && |was| == |now| == p.procWidth * p.procHeight
    requires Shows(p, was, kept[..k])
    requires if kept[k].score > p.scoresThreshold then
               forall x, y :: OnCanvas(p, x, y) ==>
                 0 <= At(p, x, y) < |now|
                 && now[At(p, x, y)] == if Covers(p, kept[k], x, y) then 1 else was[At(p, x, y)]
             else now == was
    ensures Shows(p, now, kept[..k + 1])
  {
    hide At;
    forall x, y | OnCanvas(p, x, y)
      ensures Marked(p, kept[..k + 1], x, y) <==> Marked(p, kept[..k], x, y) || Covers(p, kept[k], x, y)
    {
      MarkedNext(p, kept, k, x, y);
    }
    hide Covers;
  }

  lemma MarkedNext(p: Params, kept: seq<Candidate>, k: nat, x: int, y: int)
    requires k < |kept|
    ensures Marked(p, kept[..k + 1], x, y) <==> Marked(p, kept[..k], x, y) || Covers(p, kept[k], x, y)
  {
    hide Covers;
    if Marked(p, kept[..k], x, y) {
      var j :| 0 <= j < k && Covers(p, kept[..k][j], x, y);
      assert kept[..k + 1][j] == kept[j];
    }
    if Covers(p, kept[k], x, y) {
      assert kept[..k + 1][k] == kept[k];
    }
  }

  // ---- what the area depends on ------------------------------------------

  /** More boxes never cover less; order and repetitions do not matter. */
  lemma UnionMonotone(p: Params, a: seq<Candidate>, b: seq<Candidate>)
    requires forall c :: c in a ==> c in b
    ensures Union(p, a) <= Union(p, b) && |Union(p, a)| <= |Union(p, b)|
    ensures (forall c :: c in b ==> c in a) ==> Union(p, a) == Union(p, b)
  {
    hide Covers;
    UnionSubset(p, a, b);
    SubsetSize(Union(p, a), Union(p, b));
    if forall c :: c in b ==> c in a {
      UnionSubset(p, b, a);
    }
  }

  lemma UnionSubset(p: Params, a: seq<Candidate>, b: seq<Candidate>)
    requires forall c :: c in a ==> c in b
    ensures Union(p, a) <= Union(p, b)
  {
    hide Covers;
    forall cell | cell in Union(p, a) ensures cell in Union(p, b) {
      var k :| 0 <= k < |a| && Covers(p, a[k], cell.0, cell.1);
      assert a[k] in b;
      var j :| 0 <= j < |b| && b[j] == a[k];
      assert Covers(p, b[j], cell.0, cell.1);
    }
  }

  lemma {:induction false} SubsetSize<T>(a: set<T>, b: set<T>)
    requires a <= b
    ensures |a| <= |b|
  {
    if a != {} {
      var x :| x in a;
      SubsetSize(a - {x}, b - {x});
    }
  }

  ghost function Rect(x0: int, y0: int, w: nat, h: nat): set<(int, int)> {
    set x, y | x0 <= x < x0 + w && y0 <= y < y0 + h :: (x, y)
  }

  lemma {:induction false} RowSize(x0: int, y: int, w: nat)
    ensures |Rect(x0, y, w, 1)| == w
  {
    if w == 0 {
      assert Rect(x0, y, w, 1) == {};
    } else {
      RowSize(x0, y, w - 1);
      assert Rect(x0, y, w, 1) == Rect(x0, y, w - 1, 1) + {(x0 + w - 1, y)};
    }
  }

  lemma {:induction false} RectSize(x0: int, y0: int, w: nat, h: nat)
    ensures |Rect(x0, y0, w, h)| == w * h
  {
    if h == 0 {
      assert Rect(x0, y0, w, h) == {};
    } else {
      RectSize(x0, y0, w, h - 1);
      RowSize(x0, y0 + h - 1, w);
      var below, row := Rect(x0, y0, w, h - 1), Rect(x0, y0 + h - 1, w, 1);
      assert Rect(x0, y0, w, h) == below + row && below !! row;
      OneRowMore(w, h - 1);
    }
  }

  lemma OneRowMore(w: nat, h: nat)
    ensures w * h + w == w * (h + 1)
  {
  }

  /** The half-open clamp never reaches the last row or column. */
  lemma AreaBound(p: Params, kept: seq<Candidate>)
    requires ValidParams(p)
    ensures |Union(p, kept)| <= (p.contentWidth - 1) * (p.contentHeight - 1)
    ensures (p.contentWidth - 1) * (p.contentHeight - 1) < p.contentWidth * p.contentHeight
  {
    var w, h := p.contentWidth - 1, p.contentHeight - 1;
    forall cell | cell in Union(p, kept) ensures cell in Rect(p.contentX, p.contentY, w, h) {
      MarkedInContent(p, kept, cell.0, cell.1);
    }
    RectSize(p.contentX, p.contentY, w, h);
    ShrunkArea(w, h);
    SubsetSize(Union(p, kept), Rect(p.contentX, p.contentY, w, h));
  }

  lemma ShrunkArea(w: nat, h: nat)
    ensures w * h < (w + 1) * (h + 1)
  {
    assert (w + 1) * (h + 1) == w * h + w + h + 1;
  }

  // ---- the result --------------------------------------------------------

  datatype Result = Result(detections: seq<Candidate>, severity: real, percentageArea: real, totalArea: int)

  /** `max(0, min(area / sensitivity, 1))`, with what IEEE division by a zero
      sensitivity gives. */
  function SeverityOf(area: real, sensitivity: real): real {
    if sensitivity == 0.0 then (if area > 0.0 then 1.0 else 0.0)
    else Max(0.0, Min(area / sensitivity, 1.0))
  }

  /** Up to the sensitivity the severity is the area's share of it. */
  lemma SeverityIsShare(area: real, sensitivity: real)
    requires 0.0 <= area <= sensitivity && sensitivity > 0.0
    ensures Times(SeverityOf(area, sensitivity), sensitivity) == area
  {
    var q := area / sensitivity;
    assert Times(q, sensitivity) == area;
    assert 0.0 <= q <= 1.0;
  }

  /** Alarming is an area above the sensitivity, not a severity above a half:
      it implies full severity, but half severity does not imply it. */
  lemma AlarmIsFullSeverity(area: real, sensitivity: real)
    requires area >= 0.0 && sensitivity > 0.0
    ensures SeverityOf(area, sensitivity) == 1.0 <==> area >= sensitivity
    ensures area > sensitivity ==> SeverityOf(area, sensitivity) == 1.0
  {
    assert area / sensitivity >= 1.0 <==> area >= sensitivity;
  }

  /** Half severity without an alarm: from half the sensitivity up to it. */
  lemma HalfSeverityMayNotAlarm(area: real, sensitivity: real)
    requires area >= 0.0 && sensitivity > 0.0
    ensures SeverityOf(area, sensitivity) >= 0.5 && !(area > sensitivity)
       <==> sensitivity / 2.0 <= area <= sensitivity
  {
    var q := area / sensitivity;
    assert Times(q, sensitivity) == area;
    HalfTimes(q, sensitivity);
  }

  lemma HalfTimes(q: real, s: real)
    requires s > 0.0
    ensures q >= 0.5 <==> Times(q, s) >= s / 2.0
  {
    if q >= 0.5 {
      assert (q - 0.5) * s >= 0.0;
    } else {
      assert (0.5 - q) * s > 0.0;
    }
  }

  predicate ValidLevels(p: Params, levels: seq<Level>) {
    forall i :: 0 <= i < |levels| ==> ValidLevel(levels[i], 1) && levels[i].width <= p.procWidth
  }

  ghost predicate ValidPriors(priors: nat -> seq<Prior>) {
    forall s :: |priors(s)| == ANCHORS && forall k :: 0 <= k < ANCHORS ==> ValidPrior(priors(s)[k])
  }

  /** Every level's candidates, in level order. */
  function AllDecoded(levels: seq<Level>, p: Params, priors: nat -> seq<Prior>, exp: real -> real): seq<Candidate>
    requires ValidLevels(p, levels) && (forall s :: |priors(s)| == ANCHORS)
  {
    if levels == [] then []
    else
      var n := |levels| - 1;
      var stride := p.procWidth / levels[n].width;
      AllDecoded(levels[..n], p, priors, exp)
      + Decoded(levels[n], stride, p.decodeThreshold, p.decodeTopN, 1, priors(stride), exp)
  }

  /** Everything decoded is what each level gives, at the level's own stride. */
  lemma {:induction false} AllDecodedHas(levels: seq<Level>, p: Params, priors: nat -> seq<Prior>, exp: real -> real,
                                         c: Candidate)
    requires ValidLevels(p, levels) && forall s :: |priors(s)| == ANCHORS
    ensures c in AllDecoded(levels, p, priors, exp)
       <==> exists i :: 0 <= i < |levels|
                        && c in Decoded(levels[i], p.procWidth / levels[i].width, p.decodeThreshold, p.decodeTopN, 1,
                                        priors(p.procWidth / levels[i].width), exp)
    decreases |levels|
  {
    hide Decoded;
    if levels != [] {
      var n := |levels| - 1;
      AllDecodedHas(levels[..n], p, priors, exp, c);
      assert forall i :: 0 <= i < n ==> levels[..n][i] == levels[i];
    }
  }

  lemma {:induction false} AllDecodedIsSane(levels: seq<Level>, p: Params, priors: nat -> seq<Prior>, exp: real -> real)
    requires ValidLevels(p, levels) && ValidPriors(priors) && forall t :: exp(t) > 0.0
    ensures AllSane(AllDecoded(levels, p, priors, exp))
  {
    hide Decoded, Sane;
    if levels != [] {
      var n := |levels| - 1;
      var stride := p.procWidth / levels[n].width;
      StridePositive(p.procWidth, levels[n].width);
      AllDecodedIsSane(levels[..n], p, priors, exp);
      DecodedIsSane(levels[n], stride, p.decodeThreshold, p.decodeTopN, 1, priors(stride), exp);
    }
  }

  /** Decode, suppress, rasterise. The detections are the suppression result of
      everything decoded, and the area is the union's share of the content. */
  method Postprocess(levels: seq<Level>, p: Params, priors: nat -> seq<Prior>, exp: real -> real) returns (r: Result)
    requires ValidParams(p) && ValidLevels(p, levels) && ValidPriors(priors) && forall t :: exp(t) > 0.0
    ensures IsSuppression(AllDecoded(levels, p, priors, exp), r.detections, p.nmsIou, p.nmsDetections)
    ensures r.totalArea == |Union(p, r.detections)|
    ensures r.percentageArea == r.totalArea as real / (p.contentWidth * p.contentHeight) as real
    ensures 0.0 <= r.percentageArea < 1.0 && 0.0 <= r.severity <= 1.0
    ensures r.severity == SeverityOf(r.percentageArea, p.imgSensitivity)
  {
    hide Union, Marked, IsSuppression, Decoded, Sane;
    var all := [];
    for i := 0 to |levels|
      invariant all == AllDecoded(levels[..i], p, priors, exp)
    {
      var stride := p.procWidth / levels[i].width;
      assert levels[..i + 1][..i] == levels[..i];
      all := DecodeLevel(levels[i], stride, p.decodeThreshold, p.decodeTopN, 1, priors(stride), exp, all);
    }
    assert levels[..|levels|] == levels;
    AllDecodedIsSane(levels, p, priors, exp);
    AreaBound(p, []);
    FractionBelowOne(0, p.contentWidth * p.contentHeight);
    if all == [] {
      NothingSuppressed(p, p.nmsIou, p.nmsDetections);
      return Result([], 0.0, 0.0, 0);
    }
    var kept := Nms(all, p.nmsIou, p.nmsDetections);
    NmsResultIs(all, p.nmsIou, p.nmsDetections);
    var total := TotalArea(p, kept);
    AreaBound(p, kept);
    FractionBelowOne(total, p.contentWidth * p.contentHeight);
    var area := total as real / (p.contentWidth * p.contentHeight) as real;
    r := Result(kept, SeverityOf(area, p.imgSensitivity), area, total);
  }

  lemma StridePositive(a: nat, b: nat)
    requires 0 < b <= a
    ensures a / b > 0
  {
  }

  lemma FractionBelowOne(n: int, d: int)
    requires 0 <= n < d
    ensures 0.0 <= n as real / d as real < 1.0
  {
  }

  lemma NothingSuppressed(p: Params, iou: real, nd: int)
    ensures IsSuppression([], [], iou, nd) && Union(p, []) == {}
  {
  }
}
