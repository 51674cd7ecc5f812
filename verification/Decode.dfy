/** Decoding one output level of the detector into candidate boxes. */
module Decode {
  import opened Geometry
  import opened Suppression
  import Ranking

  const ANCHORS := 9

  /** An anchor's deltas: two shifts and two log-scales. */
  datatype Delta = Delta(dx: real, dy: real, dw: real, dh: real)

  /** One box prior: its base size (positive square roots) and its scale. */
  datatype Prior = Prior(dw: real, dh: real, scale: real)

  predicate ValidPrior(p: Prior) { p.dw > 0.0 && p.dh > 0.0 && p.scale > 0.0 }

  datatype Level = Level(cls: seq<real>, box: seq<Delta>, height: nat, width: nat)

  /** The shape the daemon checks before it decodes. */
  predicate ValidLevel(lv: Level, classes: nat) {
    lv.height > 0 && lv.width > 0 && classes > 0
    && |lv.cls| == ANCHORS * classes * lv.height * lv.width
    && |lv.box| >= |lv.cls|
  }

  // ---- the flat index ----------------------------------------------------

  datatype Place = Place(cls: int, anchor: int, y: int, x: int)

  /** The index arithmetic of the decode loop, one field per division. */
  function PlaceOf(idx: nat, classes: nat, height: nat, width: nat): Place
    requires classes > 0 && height > 0 && width > 0
  {
    MulPos(width, height);
    MulPos(width * height, ANCHORS);
    Place(idx / (width * height * ANCHORS) + 1,
          idx / classes / height / width,
          (idx / width) % height,
          idx % width)
  }

  lemma DivBelow(a: nat, b: nat, c: nat)
    requires b > 0 && a < c * b
    ensures a / b < c
  {
  }

  lemma MulAssoc(a: nat, b: nat, c: nat)
    ensures a * b * c == a * (b * c) && a * b == b * a
  {
  }

  /** Whatever the class count, the anchor row stays inside the table. */
  lemma AnchorInRange(idx: nat, classes: nat, height: nat, width: nat)
    requires classes > 0 && height > 0 && width > 0
    requires idx < ANCHORS * classes * height * width
    ensures 0 <= PlaceOf(idx, classes, height, width).anchor < ANCHORS
    ensures 0 <= PlaceOf(idx, classes, height, width).y < height
    ensures 0 <= PlaceOf(idx, classes, height, width).x < width
  {
    calc {
      ANCHORS * classes * height * width;
      { MulAssoc(ANCHORS * classes, height, width); }
      ANCHORS * classes * (height * width);
      { MulAssoc(ANCHORS, classes, height * width); MulAssoc(ANCHORS, height * width, classes); }
      ANCHORS * (height * width) * classes;
    }
    DivBelow(idx, classes, ANCHORS * (height * width));
    MulAssoc(ANCHORS, width, height);
    MulAssoc(height, width, 1);
    assert ANCHORS * (height * width) == ANCHORS * width * height;
    DivBelow(idx / classes, height, ANCHORS * width);
    DivBelow(idx / classes / height, width, ANCHORS);
  }

  lemma QuotRem(q: nat, r: nat, n: nat)
    requires r < n
    ensures (q * n + r) / n == q && (q * n + r) % n == r
  {
    var v := q * n + r;
    assert v == v / n * n + v % n;
    NextMultiple(v / n, q, n);
    NextMultiple(q, v / n, n);
  }

  lemma NextMultiple(a: nat, b: nat, n: nat)
    ensures a < b ==> a * n + n <= b * n
  {
    if a < b {
      MulMono(a + 1, b, n);
    }
  }

  /** With the model's single class the asymmetric divisions are one layout:
      index (anchor, y, x) in row-major order, decoded without loss. */
  lemma PlaceInverts(anchor: nat, y: nat, x: nat, height: nat, width: nat)
    requires anchor < ANCHORS && y < height && x < width
    ensures PlaceOf((anchor * height + y) * width + x, 1, height, width) == Place(1, anchor, y, x)
  {
    var row := anchor * height + y;
    var idx := row * width + x;
    QuotRem(row, x, width);
    QuotRem(anchor, y, height);
    DivSwap(idx, height, width);
    MulPos(width, height);
    FlatIndexBelow(anchor, y, x, height, width);
    SmallDiv(idx, width * height * ANCHORS);
    assert idx / 1 == idx;
  }

  lemma FlatIndexBelow(anchor: nat, y: nat, x: nat, height: nat, width: nat)
    requires anchor < ANCHORS && y < height && x < width
    ensures (anchor * height + y) * width + x < width * height * ANCHORS
  {
    var row := anchor * height + y;
    NextMultiple(anchor, ANCHORS, height);
    NextMultiple(row, ANCHORS * height, width);
    calc {
      ANCHORS * height * width;
      { MulAssoc(ANCHORS, height, width); }
      ANCHORS * (height * width);
      { MulAssoc(height, width, 1); }
      ANCHORS * (width * height);
      { MulAssoc(width * height, ANCHORS, 1); }
      width * height * ANCHORS;
    }
  }

  lemma MulMono(a: nat, b: nat, c: nat)
    requires a <= b
    ensures a * c <= b * c
  {
  }

  lemma SmallDiv(a: nat, b: nat)
    requires a < b
    ensures a / b == 0
  {
  }

  lemma DivSwap(a: nat, m: nat, n: nat)
    requires m > 0 && n > 0
    ensures a / m / n == a / n / m
  {
    DivDiv(a, m, n);
    DivDiv(a, n, m);
    MulAssoc(m, n, 1);
  }

  lemma Regroup(a: nat, m: nat, n: nat, q: nat, r: nat, r1: nat)
    requires a == (q * n + r) * m + r1 && r < n && r1 < m
    ensures a == q * (m * n) + (r * m + r1) && r * m + r1 < m * n
  {
    assert (q * n + r) * m == q * n * m + r * m;
    assert q * n * m == q * (m * n);
    MulMono(r + 1, n, m);
    assert (r + 1) * m == r * m + m;
  }

  lemma DivDiv(a: nat, m: nat, n: nat)
    requires m > 0 && n > 0
    ensures m * n > 0 && a / m / n == a / (m * n)
  {
    var q, r, r1 := a / m / n, a / m % n, a % m;
    MulPos(m, n);
    assert a / m == q * n + r;
    assert a == (q * n + r) * m + r1;
    Regroup(a, m, n, q, r, r1);
    QuotRem(q, r * m + r1, m * n);
  }

  lemma MulPos(m: nat, n: nat)
    requires m > 0 && n > 0
    ensures m * n > 0
  {
  }

  // ---- one box -----------------------------------------------------------

  /** The prior shifted to a grid position. */
  function GridBox(p: Prior, x: nat, y: nat, stride: nat): Box {
    var s, gx, gy := stride as real, (x * stride) as real, (y * stride) as real;
    var w, h := Times(p.dw, p.scale), Times(p.dh, p.scale);
    Box(gx + 0.5 * (s - w), gy + 0.5 * (s - h), gx + 0.5 * (s + w), gy + 0.5 * (s + h))
  }

  function Clamp(t: real, hi: real): real { Max(0.0, Min(t, hi)) }

  /** Delta2Box, with `exp` any positive function. */
  function Delta2Box(d: Delta, grid: Box, width: nat, height: nat, stride: nat, exp: real -> real): Box {
    var aw, ah := grid.x2 - grid.x1 + 1.0, grid.y2 - grid.y1 + 1.0;
    var cx, cy := Times(d.dx, aw) + (grid.x1 + 0.5 * aw), Times(d.dy, ah) + (grid.y1 + 0.5 * ah);
    var pw, ph := Times(exp(d.dw), aw), Times(exp(d.dh), ah);
    BoxAround(cx, cy, pw, ph, (width * stride) as real - 1.0, (height * stride) as real - 1.0)
  }

  /** The inclusive box of a centre and an extent, clamped to the canvas. */
  function BoxAround(cx: real, cy: real, pw: real, ph: real, mx: real, my: real): Box {
    Box(Clamp(cx - 0.5 * pw, mx), Clamp(cy - 0.5 * ph, my),
        Clamp(cx + 0.5 * pw - 1.0, mx), Clamp(cy + 0.5 * ph - 1.0, my))
  }

  /** Inside the canvas and of positive inclusive extent. */
  predicate InCanvas(b: Box, mx: real, my: real) {
    0.0 <= b.x1 <= mx && 0.0 <= b.x2 <= mx && 0.0 <= b.y1 <= my && 0.0 <= b.y2 <= my
  }

  /** Clamping is 1-Lipschitz, so it cannot invert an extent below one. */
  lemma ClampKeepsExtent(c: real, p: real, m: real)
    requires p > 0.0 && m >= 0.0
    ensures Clamp(c + 0.5 * p - 1.0, m) - Clamp(c - 0.5 * p, m) + 1.0 > 0.0
  {
  }

  /** For every delta, every prior and every positive `exp`, the decoded box
      has positive extent, even when it covers less than a pixel. */
  lemma DecodedBoxIsSane(d: Delta, p: Prior, x: nat, y: nat, width: nat, height: nat, stride: nat,
                         exp: real -> real)
    requires ValidPrior(p) && width > 0 && height > 0 && stride > 0
    requires forall t :: exp(t) > 0.0
    ensures var b := Delta2Box(d, GridBox(p, x, y, stride), width, height, stride, exp);
            Sane(b) && InCanvas(b, (width * stride) as real - 1.0, (height * stride) as real - 1.0)
  {
    var grid := GridBox(p, x, y, stride);
    GridExtent(p, x, y, stride);
    hide GridBox;
    MulPos(width, stride);
    MulPos(height, stride);
    DeltaIsSane(d, grid, width, height, stride, exp);
  }

  lemma GridExtent(p: Prior, x: nat, y: nat, stride: nat)
    requires ValidPrior(p)
    ensures Sane(GridBox(p, x, y, stride))
  {
    hide Times;
    ProductPositive(p.dw, p.scale);
    ProductPositive(p.dh, p.scale);
  }

  lemma DeltaIsSane(d: Delta, grid: Box, width: nat, height: nat, stride: nat, exp: real -> real)
    requires Sane(grid) && width * stride > 0 && height * stride > 0
    requires forall t :: exp(t) > 0.0
    ensures var b := Delta2Box(d, grid, width, height, stride, exp);
            Sane(b) && InCanvas(b, (width * stride) as real - 1.0, (height * stride) as real - 1.0)
  {
    hide Times, BoxAround;
    var aw, ah := grid.x2 - grid.x1 + 1.0, grid.y2 - grid.y1 + 1.0;
    var cx, cy := Times(d.dx, aw) + (grid.x1 + 0.5 * aw), Times(d.dy, ah) + (grid.y1 + 0.5 * ah);
    var pw, ph := Times(exp(d.dw), aw), Times(exp(d.dh), ah);
    ProductPositive(exp(d.dw), aw);
    ProductPositive(exp(d.dh), ah);
    BoxAroundIsSane(cx, cy, pw, ph, (width * stride) as real - 1.0, (height * stride) as real - 1.0);
  }

  lemma BoxAroundIsSane(cx: real, cy: real, pw: real, ph: real, mx: real, my: real)
    requires pw > 0.0 && ph > 0.0 && mx >= 0.0 && my >= 0.0
    ensures Sane(BoxAround(cx, cy, pw, ph, mx, my)) && InCanvas(BoxAround(cx, cy, pw, ph, mx, my), mx, my)
  {
    ClampedPair(cx, pw, mx);
    ClampedPair(cy, ph, my);
  }

  lemma ClampedPair(c: real, p: real, m: real)
    requires p > 0.0 && m >= 0.0
    ensures var lo, hi := Clamp(c - 0.5 * p, m), Clamp(c + 0.5 * p - 1.0, m);
            0.0 <= lo <= m && 0.0 <= hi <= m && hi - lo + 1.0 > 0.0
  {
    ClampKeepsExtent(c, p, m);
  }

  // ---- one level ---------------------------------------------------------

  function KeepFrom(lv: Level, threshold: real, from: nat): (r: seq<nat>)
    ensures Ranking.Within(lv.cls, r)
    decreases |lv.cls| - from
  {
    if from >= |lv.cls| then []
    else if lv.cls[from] >= threshold then [from] + KeepFrom(lv, threshold, from + 1)
    else KeepFrom(lv, threshold, from + 1)
  }

  lemma {:induction false} KeepMeans(lv: Level, threshold: real, from: nat)
    ensures Ranking.Distinct(KeepFrom(lv, threshold, from))
    ensures forall i: nat :: i in KeepFrom(lv, threshold, from)
                             <==> from <= i < |lv.cls| && lv.cls[i] >= threshold
    decreases |lv.cls| - from
  {
    if from < |lv.cls| {
      KeepMeans(lv, threshold, from + 1);
    }
  }

  function TopCount(kept: nat, topN: int): nat { if 0 <= topN < kept then topN else kept }

  function CandidateAt(lv: Level, idx: nat, stride: nat, classes: nat, priors: seq<Prior>, exp: real -> real): Candidate
    requires ValidLevel(lv, classes) && idx < |lv.cls| && |priors| == ANCHORS
  {
    AnchorInRange(idx, classes, lv.height, lv.width);
    var at := PlaceOf(idx, classes, lv.height, lv.width);
    Candidate(lv.cls[idx],
              Delta2Box(lv.box[idx], GridBox(priors[at.anchor], at.x, at.y, stride),
                        lv.width, lv.height, stride, exp),
              at.cls)
  }

  function Ranked(lv: Level, threshold: real, topN: int): (r: seq<nat>)
    ensures Ranking.Within(lv.cls, r)
  {
    var keep := KeepFrom(lv, threshold, 0);
    Ranking.Sort(lv.cls, keep)[..TopCount(|keep|, topN)]
  }

  /** The candidates of one level, best first. */
  function Decoded(lv: Level, stride: nat, threshold: real, topN: int, classes: nat,
                   priors: seq<Prior>, exp: real -> real): seq<Candidate>
    requires ValidLevel(lv, classes) && |priors| == ANCHORS
  {
    var r := Ranked(lv, threshold, topN);
    seq(|r|, k requires 0 <= k < |r| => CandidateAt(lv, r[k], stride, classes, priors, exp))
  }

  /** The decode loop of one level, appending to the shared vector. */
  method DecodeLevel(lv: Level, stride: nat, threshold: real, topN: int, classes: nat,
                     priors: seq<Prior>, exp: real -> real, all: seq<Candidate>)
    returns (out: seq<Candidate>)
    requires ValidLevel(lv, classes) && |priors| == ANCHORS
    ensures out == all + Decoded(lv, stride, threshold, topN, classes, priors, exp)
  {
    hide CandidateAt, Ranking.Sort;
    var keep: seq<nat> := [];
    var i: nat := 0;
    while i < |lv.cls|
      invariant 0 <= i <= |lv.cls|
      invariant Ranking.Within(lv.cls, keep)
      invariant keep + KeepFrom(lv, threshold, i) == KeepFrom(lv, threshold, 0)
    {
      if lv.cls[i] >= threshold {
        keep := keep + [i];
      }
      i := i + 1;
    }
    out := all;
    assert keep == KeepFrom(lv, threshold, 0);
    if keep == [] {
      return;
    }
    keep := Ranking.Sort(lv.cls, keep)[..TopCount(|keep|, topN)];
    ghost var decoded := Decoded(lv, stride, threshold, topN, classes, priors, exp);
    for k := 0 to |keep|
      invariant out == all + decoded[..k]
    {
      var c := CandidateAt(lv, keep[k], stride, classes, priors, exp);
      out := out + [c];
    }
  }

  lemma DecodedIsSane(lv: Level, stride: nat, threshold: real, topN: int, classes: nat,
                      priors: seq<Prior>, exp: real -> real)
    requires ValidLevel(lv, classes) && stride > 0
    requires |priors| == ANCHORS && forall k :: 0 <= k < ANCHORS ==> ValidPrior(priors[k])
    requires forall t :: exp(t) > 0.0
    ensures AllSane(Decoded(lv, stride, threshold, topN, classes, priors, exp))
  {
    hide CandidateAt, Sane;
    var r := Ranked(lv, threshold, topN);
    forall k | 0 <= k < |r| ensures Sane(CandidateAt(lv, r[k], stride, classes, priors, exp).box) {
      CandidateIsSane(lv, r[k], stride, classes, priors, exp);
    }
  }

  lemma CandidateIsSane(lv: Level, idx: nat, stride: nat, classes: nat, priors: seq<Prior>, exp: real -> real)
    requires ValidLevel(lv, classes) && idx < |lv.cls| && stride > 0
    requires |priors| == ANCHORS && forall k :: 0 <= k < ANCHORS ==> ValidPrior(priors[k])
    requires forall t :: exp(t) > 0.0
    ensures var c := CandidateAt(lv, idx, stride, classes, priors, exp);
            Sane(c.box) && c.score == lv.cls[idx]
            && InCanvas(c.box, (lv.width * stride) as real - 1.0, (lv.height * stride) as real - 1.0)
  {
    AnchorInRange(idx, classes, lv.height, lv.width);
    var at := PlaceOf(idx, classes, lv.height, lv.width);
    DecodedBoxIsSane(lv.box[idx], priors[at.anchor], at.x, at.y, lv.width, lv.height, stride, exp);
  }

  /** What is decoded is the top of what reaches the threshold: an index left
      out scores below it, or ranks after everything that was taken. */
  lemma RankedIsTop(lv: Level, threshold: real, topN: int, x: nat)
    requires x < |lv.cls|
    ensures var r := Ranked(lv, threshold, topN);
            x in r || lv.cls[x] < threshold
            || (|r| == TopCount(|KeepFrom(lv, threshold, 0)|, topN)
                && forall i :: 0 <= i < |r| ==> Ranking.Precedes(lv.cls, r[i], x))
  {
    var keep := KeepFrom(lv, threshold, 0);
    KeepMeans(lv, threshold, 0);
    var n := TopCount(|keep|, topN);
    if x in keep && x !in Ranked(lv, threshold, topN) {
      Ranking.TopNIsTop(lv.cls, keep, n, x);
    }
  }
}
