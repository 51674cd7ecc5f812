/** Where a decoded box lies: decoding undoes the encoding of boxes as offsets
    and log-scales relative to a prior. */
module DecodeLaw {
  import opened Geometry
  import opened Suppression
  import opened Decode
  import Ranking

  // Boxes are inclusive: a box from pixel 3 to pixel 5 is three wide.

  function Width(b: Box): real { b.x2 - b.x1 + 1.0 }

  function Height(b: Box): real { b.y2 - b.y1 + 1.0 }

  function CentreX(b: Box): real { (b.x1 + b.x2 + 1.0) / 2.0 }

  function CentreY(b: Box): real { (b.y1 + b.y2 + 1.0) / 2.0 }

  /** The deltas say of this box: its centre lies dx widths right and dy heights
      below the prior's, and it is exp(dw) times as wide, exp(dh) as high. */
  predicate Describes(d: Delta, prior: Box, b: Box, exp: real -> real) {
    && CentreX(b) - CentreX(prior) == Times(d.dx, Width(prior))
    && CentreY(b) - CentreY(prior) == Times(d.dy, Height(prior))
    && Width(b) == Times(exp(d.dw), Width(prior))
    && Height(b) == Times(exp(d.dh), Height(prior))
  }

  /** The nearest value that is not below 0 and not above `hi`. */
  predicate IsNearest(t: real, hi: real, r: real) {
    && 0.0 <= r <= hi
    && (0.0 <= t <= hi ==> r == t) && (t < 0.0 ==> r == 0.0) && (t > hi ==> r == hi)
  }

  predicate IsClamped(b: Box, mx: real, my: real, r: Box) {
    IsNearest(b.x1, mx, r.x1) && IsNearest(b.y1, my, r.y1) && IsNearest(b.x2, mx, r.x2) && IsNearest(b.y2, my, r.y2)
  }

  /** The decoding law: what comes out is the box the deltas describe, clamped
      to the canvas; that box itself if it lies inside. */
  lemma DecodesWhatIsDescribed(d: Delta, prior: Box, b: Box, width: nat, height: nat, stride: nat, exp: real -> real)
    requires Describes(d, prior, b, exp) && width * stride > 0 && height * stride > 0
    ensures var r, mx, my := Delta2Box(d, prior, width, height, stride, exp),
                             (width * stride) as real - 1.0, (height * stride) as real - 1.0;
            IsClamped(b, mx, my, r) && (InCanvas(b, mx, my) ==> r == b)
  {
    hide Times;
  }

  /** Every delta describes one box. */
  lemma EveryDeltaDescribes(d: Delta, prior: Box, exp: real -> real) returns (b: Box)
    ensures Describes(d, prior, b, exp)
    ensures forall c :: Describes(d, prior, c, exp) ==> c == b
  {
    var cx, cy := CentreX(prior) + Times(d.dx, Width(prior)), CentreY(prior) + Times(d.dy, Height(prior));
    var w, h := Times(exp(d.dw), Width(prior)), Times(exp(d.dh), Height(prior));
    hide Times;
    b := Box(cx - 0.5 * w, cy - 0.5 * h, cx + 0.5 * w - 1.0, cy + 0.5 * h - 1.0);
  }

  /** A prior is centred on its grid cell and as large as its scaled base. */
  lemma PriorIsCentred(p: Prior, x: nat, y: nat, stride: nat)
    ensures var b, s := GridBox(p, x, y, stride), stride as real;
            && (b.x1 + b.x2) / 2.0 == (x * stride) as real + s / 2.0
            && (b.y1 + b.y2) / 2.0 == (y * stride) as real + s / 2.0
            && b.x2 - b.x1 == p.dw * p.scale && b.y2 - b.y1 == p.dh * p.scale
  {
  }

  function Flat(anchor: nat, y: nat, x: nat, height: nat, width: nat): nat { (anchor * height + y) * width + x }

  lemma FlatInRange(lv: Level, anchor: nat, y: nat, x: nat)
    requires ValidLevel(lv, 1) && anchor < ANCHORS && y < lv.height && x < lv.width
    ensures Flat(anchor, y, x, lv.height, lv.width) < |lv.cls|
  {
    FlatIndexBelow(anchor, y, x, lv.height, lv.width);
    var h, w := lv.height, lv.width;
    MulAssoc(ANCHORS, h, w);
    MulAssoc(h, w, 1);
    MulAssoc(w * h, ANCHORS, 1);
  }

  /** Main result: the candidate of an anchor at a grid cell has the score the
      network gives there and, if its deltas describe a box of the canvas
      relative to that anchor's prior at that cell, exactly that box. */
  lemma CandidateIsDescribed(lv: Level, anchor: nat, y: nat, x: nat, stride: nat, priors: seq<Prior>,
                             exp: real -> real, b: Box)
    requires ValidLevel(lv, 1) && anchor < ANCHORS && y < lv.height && x < lv.width
    requires |priors| == ANCHORS && stride > 0
    requires Flat(anchor, y, x, lv.height, lv.width) < |lv.cls|   // FlatInRange
    requires Describes(lv.box[Flat(anchor, y, x, lv.height, lv.width)], GridBox(priors[anchor], x, y, stride), b, exp)
    ensures var idx, mx, my := Flat(anchor, y, x, lv.height, lv.width),
                               (lv.width * stride) as real - 1.0, (lv.height * stride) as real - 1.0;
            var c := CandidateAt(lv, idx, stride, 1, priors, exp);
            && c.score == lv.cls[idx] && c.cls == 1
            && IsClamped(b, mx, my, c.box) && (InCanvas(b, mx, my) ==> c.box == b)
  {
    PlaceInverts(anchor, y, x, lv.height, lv.width);
    MulPos(lv.width, stride);
    MulPos(lv.height, stride);
    var idx := Flat(anchor, y, x, lv.height, lv.width);
    AnchorInRange(idx, 1, lv.height, lv.width);
    hide GridBox, Describes, Delta2Box, PlaceOf, IsClamped, InCanvas, IsNearest;
    DecodesWhatIsDescribed(lv.box[idx], GridBox(priors[anchor], x, y, stride), b, lv.width, lv.height, stride, exp);
  }

  /** Which candidates a level gives: one for each index taken, best first; an
      index is taken if it reaches the threshold, unless there are more than
      `topN` such and `topN` of them score higher, or equal with lower index. */
  lemma DecodedAre(lv: Level, stride: nat, threshold: real, topN: int, priors: seq<Prior>, exp: real -> real, x: nat)
    requires ValidLevel(lv, 1) && |priors| == ANCHORS && x < |lv.cls|
    ensures var r := Ranked(lv, threshold, topN);
            var out := Decoded(lv, stride, threshold, topN, 1, priors, exp);
            && |out| == |r| && (forall i :: 0 <= i < |r| ==> out[i] == CandidateAt(lv, r[i], stride, 1, priors, exp))
            && (forall i :: 0 <= i < |r| ==> lv.cls[r[i]] >= threshold)
            && (forall i, j :: 0 <= i < j < |r| ==>
                  lv.cls[r[i]] > lv.cls[r[j]] || (lv.cls[r[i]] == lv.cls[r[j]] && r[i] < r[j]))
            && (topN >= 0 ==> |r| <= topN)
            && (lv.cls[x] >= threshold ==>
                  x in r
                  || (|r| == topN && forall i :: 0 <= i < |r| ==>
                        lv.cls[r[i]] > lv.cls[x] || (lv.cls[r[i]] == lv.cls[x] && r[i] < x)))
  {
    hide CandidateAt;
    var keep := KeepFrom(lv, threshold, 0);
    KeepMeans(lv, threshold, 0);
    Ranking.SortArranges(lv.cls, keep);
    RankedIsTop(lv, threshold, topN, x);
    var sorted, r := Ranking.Sort(lv.cls, keep), Ranked(lv, threshold, topN);
    if lv.cls[x] >= threshold {
      assert x in Ranking.Elems(keep);
      assert TopCount(|keep|, topN) == |keep| ==> r == sorted;
    }
    forall i | 0 <= i < |r| ensures lv.cls[r[i]] >= threshold {
      assert sorted[i] in Ranking.Elems(sorted);
    }
  }
}
