/** Non-maximum suppression: the in-place loop and the greedy rule it computes. */
module Suppression {
  import opened Geometry
  import Ranking

  datatype Box = Box(x1: real, y1: real, x2: real, y2: real)

  datatype Candidate = Candidate(score: real, box: Box, cls: int)

  // ---- overlap of inclusive boxes ----------------------------------------

  /** Positive extent on both axes, which every decoded box has. */
  predicate Sane(b: Box) { b.x2 - b.x1 + 1.0 > 0.0 && b.y2 - b.y1 + 1.0 > 0.0 }

  predicate AllSane(s: seq<Candidate>) { forall i :: 0 <= i < |s| ==> Sane(s[i].box) }

  function Area(b: Box): real { Times(b.x2 - b.x1 + 1.0, b.y2 - b.y1 + 1.0) }

  function Span(a1: real, a2: real, b1: real, b2: real): real {
    Max(0.0, Min(a2, b2) - Max(a1, b1) + 1.0)
  }

  function Inter(a: Box, b: Box): real {
    Times(Span(a.x1, a.x2, b.x1, b.x2), Span(a.y1, a.y2, b.y1, b.y2))
  }

  function Iou(a: Box, b: Box): real
    requires Sane(a) && Sane(b)
  {
    OverlapBounds(a, b);
    Inter(a, b) / (Area(a) + Area(b) - Inter(a, b))
  }

  lemma ProductMono(a: real, b: real, c: real, d: real)
    requires 0.0 <= a <= c && 0.0 <= b <= d
    ensures 0.0 <= Times(a, b) <= Times(c, d)
  {
    assert a * b <= c * b;
    assert c * b <= c * d;
  }

  lemma ProductPositive(a: real, b: real)
    requires 0.0 < a && 0.0 < b
    ensures 0.0 < Times(a, b)
  {
  }

  lemma AreaPositive(b: Box)
    requires Sane(b)
    ensures 0.0 < Area(b)
  {
    hide Times;
    ProductPositive(b.x2 - b.x1 + 1.0, b.y2 - b.y1 + 1.0);
  }

  lemma InterBelowArea(a: Box, b: Box)
    requires Sane(a) && Sane(b)
    ensures 0.0 <= Inter(a, b) <= Area(a)
  {
    hide Times;
    ProductMono(Span(a.x1, a.x2, b.x1, b.x2), Span(a.y1, a.y2, b.y1, b.y2),
                a.x2 - a.x1 + 1.0, a.y2 - a.y1 + 1.0);
  }

  lemma OverlapBounds(a: Box, b: Box)
    requires Sane(a) && Sane(b)
    ensures 0.0 < Area(a) && 0.0 < Area(b)
    ensures 0.0 <= Inter(a, b) <= Area(a) && Inter(a, b) <= Area(b)
    ensures Inter(a, b) == Inter(b, a)
  {
    hide Times, Area;
    AreaPositive(a);
    AreaPositive(b);
    InterBelowArea(a, b);
    InterBelowArea(b, a);
  }

  /** IoU is a symmetric ratio in [0, 1], and 1 for a box with itself. */
  lemma IouIsRatio(a: Box, b: Box)
    requires Sane(a) && Sane(b)
    ensures 0.0 <= Iou(a, b) <= 1.0 && Iou(a, b) == Iou(b, a) && Iou(a, a) == 1.0
  {
    hide Times;
    OverlapBounds(a, b);
    OverlapBounds(a, a);
    RatioBounds(Inter(a, b), Area(a) + Area(b) - Inter(a, b));
    assert Inter(a, a) == Area(a);
    SelfRatio(Area(a));
  }

  lemma RatioBounds(n: real, d: real)
    requires 0.0 <= n <= d && 0.0 < d
    ensures 0.0 <= n / d <= 1.0
  {
  }

  lemma SelfRatio(n: real)
    requires 0.0 < n
    ensures n / (n + n - n) == 1.0
  {
  }

  // ---- the greedy rule ---------------------------------------------------

  /** The negation of the loop's three-part criterion. */
  predicate Suppressed(kept: Candidate, c: Candidate, iou: real)
    requires Sane(kept.box) && Sane(c.box)
  {
    !(c.score > kept.score || Iou(c.box, kept.box) <= iou || c.cls != kept.cls)
  }

  function Survivors(s: seq<Candidate>, kept: Candidate, iou: real): (r: seq<Candidate>)
    requires AllSane(s) && Sane(kept.box)
    ensures AllSane(r) && |r| <= |s|
  {
    if s == [] then []
    else
      var rest := Survivors(s[1..], kept, iou);
      if Suppressed(kept, s[0], iou) then rest else [s[0]] + rest
  }

  /** Keep the best, drop what it suppresses, repeat. */
  function Greedy(s: seq<Candidate>, iou: real): (r: seq<Candidate>)
    requires AllSane(s)
    ensures |r| <= |s|
    decreases |s|
  {
    if s == [] then [] else [s[0]] + Greedy(Survivors(s[1..], s[0], iou), iou)
  }

  function Positive(v: seq<Candidate>): seq<Candidate> {
    if v == [] then []
    else if v[0].score > 0.0 then [v[0]] + Positive(v[1..])
    else Positive(v[1..])
  }

  function Scores(s: seq<Candidate>): seq<real> {
    seq(|s|, i requires 0 <= i < |s| => s[i].score)
  }

  function Iota(n: nat): seq<nat> { seq(n, i => i) }

  function Gather(s: seq<Candidate>, order: seq<nat>): seq<Candidate>
    requires Ranking.Within(Scores(s), order)
  {
    seq(|order|, i requires 0 <= i < |order| => s[order[i]])
  }

  function Sorted(s: seq<Candidate>): seq<Candidate> {
    Gather(s, Ranking.Sort(Scores(s), Iota(|s|)))
  }

  function Take<T>(s: seq<T>, n: int): seq<T> {
    if n <= 0 then [] else if n < |s| then s[..n] else s
  }

  predicate Descending(s: seq<Candidate>) {
    forall i, j :: 0 <= i < j < |s| ==> s[i].score >= s[j].score
  }

  lemma SortedMeans(s: seq<Candidate>)
    ensures Descending(Sorted(s)) && |Sorted(s)| == |s|
    ensures AllSane(s) ==> AllSane(Sorted(s))
    ensures forall x :: x in Sorted(s) <==> x in s
  {
    var order := Ranking.Sort(Scores(s), Iota(|s|));
    Ranking.SortArranges(Scores(s), Iota(|s|));
    forall i, j | 0 <= i < j < |s| ensures Sorted(s)[i].score >= Sorted(s)[j].score {
      assert Ranking.Precedes(Scores(s), order[i], order[j]);
    }
    forall k | 0 <= k < |s| ensures s[k] in Sorted(s) {
      assert Iota(|s|)[k] == k;
      assert k in Ranking.Elems(order);
      var i :| 0 <= i < |order| && order[i] == k;
      assert Sorted(s)[i] == s[k];
    }
  }

  // ---- what survives -----------------------------------------------------

  lemma {:induction false} SurvivorsMeans(s: seq<Candidate>, kept: Candidate, iou: real)
    requires AllSane(s) && Sane(kept.box)
    ensures forall x :: x in Survivors(s, kept, iou) <==> x in s && Sane(x.box) && !Suppressed(kept, x, iou)
    ensures Descending(s) ==> Descending(Survivors(s, kept, iou))
  {
    hide Suppressed, Sane;
    if s != [] {
      var rest := Survivors(s[1..], kept, iou);
      SurvivorsMeans(s[1..], kept, iou);
      assert s == [s[0]] + s[1..];
      if Descending(s) {
        forall j | 0 <= j < |rest| ensures s[0].score >= rest[j].score {
          assert rest[j] in s[1..];
        }
      }
    }
  }

  lemma {:induction false} SurvivorsAppend(a: seq<Candidate>, b: seq<Candidate>, kept: Candidate, iou: real)
    requires AllSane(a) && AllSane(b) && Sane(kept.box)
    ensures AllSane(a + b)
    ensures Survivors(a + b, kept, iou) == Survivors(a, kept, iou) + Survivors(b, kept, iou)
  {
    hide Suppressed, Sane;
    if a == [] {
      assert a + b == b;
    } else {
      assert AllSane(a + b);
      assert (a + b)[1..] == a[1..] + b;
      SurvivorsAppend(a[1..], b, kept, iou);
    }
  }

  lemma {:induction false} NoneDropped(s: seq<Candidate>, kept: Candidate, iou: real)
    requires AllSane(s) && Sane(kept.box)
    requires forall x :: x in s && Sane(x.box) ==> !Suppressed(kept, x, iou)
    ensures Survivors(s, kept, iou) == s
  {
    if s != [] {
      assert s == [s[0]] + s[1..];
      NoneDropped(s[1..], kept, iou);
    }
  }

  // ---- the loop ----------------------------------------------------------

  /** The state of the vector before round `i`: the boxes already passed, then
      the boxes none of them suppresses. */
  predicate RoundInvariant(sorted: seq<Candidate>, s: seq<Candidate>, i: nat, iou: real) {
    i <= |s| && AllSane(sorted) && AllSane(s) && Descending(s)
    && NoneSuppresses(s[..i], s[i..], iou)
    && Greedy(sorted, iou) == s[..i] + Greedy(s[i..], iou)
  }

  /** Before position i nothing is dropped: such a box scores at least as
      high, and if the scores tie, IoU's symmetry says it was already found
      compatible with box i. */
  lemma EarlierIsKept(s: seq<Candidate>, i: nat, iou: real)
    requires i < |s| && AllSane(s) && Descending(s)
    requires NoneSuppresses(s[..i], s[i..], iou)
    ensures Survivors(s[..i], s[i], iou) == s[..i]
  {
    var kept := s[i];
    assert kept in s[i..];
    forall x | x in s[..i] && Sane(x.box) ensures !Suppressed(kept, x, iou) {
      assert !Suppressed(x, kept, iou);
      IouIsRatio(x.box, kept.box);
    }
    NoneDropped(s[..i], kept, iou);
  }

  predicate NoneSuppresses(a: seq<Candidate>, b: seq<Candidate>, iou: real) {
    forall x, y :: x in a && y in b && Sane(x.box) && Sane(y.box) ==> !Suppressed(x, y, iou)
  }

  lemma DescendingJoin(a: seq<Candidate>, b: seq<Candidate>, s: seq<Candidate>)
    requires Descending(s) && Descending(b) && a <= s && a != []
    requires forall y :: y in b ==> y in s[|a|..]
    ensures Descending(a + b)
  {
    forall j, k | 0 <= j < k < |a + b| ensures (a + b)[j].score >= (a + b)[k].score {
      if j < |a| <= k {
        assert b[k - |a|] in s[|a|..];
      }
    }
  }

  lemma GreedyRound(sorted: seq<Candidate>, s: seq<Candidate>, i: nat, iou: real)
    requires i < |s| && AllSane(sorted) && AllSane(s)
    requires Greedy(sorted, iou) == s[..i] + Greedy(s[i..], iou)
    ensures Greedy(sorted, iou) == s[..i + 1] + Greedy(Survivors(s[i + 1..], s[i], iou), iou)
  {
    assert s[i..][1..] == s[i + 1..];
    assert s[..i + 1] == s[..i] + [s[i]];
    var g := Greedy(Survivors(s[i + 1..], s[i], iou), iou);
    assert s[..i] + ([s[i]] + g) == s[..i] + [s[i]] + g;
  }

  lemma RoundStep(sorted: seq<Candidate>, s: seq<Candidate>, i: nat, iou: real)
    requires RoundInvariant(sorted, s, i, iou) && i < |s|
    ensures RoundInvariant(sorted, s[..i + 1] + Survivors(s[i + 1..], s[i], iou), i + 1, iou)
  {
    hide Suppressed, Greedy, Descending;
    var rest := Survivors(s[i + 1..], s[i], iou);
    assert Descending(s[i + 1..]) by { TailDescends(s, i + 1); }
    SurvivorsMeans(s[i + 1..], s[i], iou);
    GreedyRound(sorted, s, i, iou);
    DescendingJoin(s[..i + 1], rest, s);
    var t := s[..i + 1] + rest;
    assert t[..i + 1] == s[..i + 1] && t[i + 1..] == rest;
    forall a, x | a in s[..i + 1] && x in rest && Sane(a.box) && Sane(x.box)
      ensures !Suppressed(a, x, iou)
    {
      assert s[..i + 1] == s[..i] + [s[i]];
      assert s[i..] == [s[i]] + s[i + 1..];
    }
  }

  lemma TailDescends(s: seq<Candidate>, i: nat)
    requires Descending(s) && i <= |s|
    ensures Descending(s[i..])
  {
  }

  /** The whole filter of round i, box i itself protected. */
  lemma FilterIsRound(s: seq<Candidate>, i: nat, iou: real)
    requires i < |s| && AllSane(s) && Descending(s)
    requires NoneSuppresses(s[..i], s[i..], iou)
    ensures Survivors(s[..i], s[i], iou) + [s[i]] + Survivors(s[i + 1..], s[i], iou)
         == s[..i + 1] + Survivors(s[i + 1..], s[i], iou)
  {
    EarlierIsKept(s, i, iou);
  }

  lemma PositiveIsSane(v: seq<Candidate>)
    requires AllSane(v)
    ensures AllSane(Positive(v)) && AllSane(Sorted(Positive(v)))
  {
    PositiveMeans(v);
    SortedMeans(Positive(v));
  }

  /** The method is proved against the greedy rule on the sorted positives. */
  function Suppress(v: seq<Candidate>, nmsIou: real, nmsDetections: int): seq<Candidate>
    requires AllSane(v)
  {
    PositiveIsSane(v);
    Take(Greedy(Sorted(Positive(v)), nmsIou), nmsDetections)
  }

  method Nms(v: seq<Candidate>, nmsIou: real, nmsDetections: int) returns (out: seq<Candidate>)
    requires AllSane(v)
    ensures out == Suppress(v, nmsIou, nmsDetections)
  {
    hide Greedy, Suppressed, Iou, Descending;
    var s := FilterPositive(v);
    PositiveIsSane(v);
    if s == [] {
      return [];
    }
    var order := Ranking.Sort(Scores(s), Iota(|s|));
    s := Gather(s, order);
    ghost var sorted := s;
    SortedMeans(Positive(v));
    assert s[..0] == [] && s[0..] == s;
    var areas := seq(|s|, k requires 0 <= k < |s| => Area(s[k].box));

    var i := -1;
    var t := 0;
    while t < nmsDetections
      invariant 0 <= t && i == t - 1
      invariant t <= nmsDetections || (nmsDetections < 0 && t == 0)
      invariant RoundInvariant(sorted, s, t, nmsIou)
      invariant |areas| == |s| && forall k :: 0 <= k < |s| ==> areas[k] == Area(s[k].box)
    {
      i := t;
      if i >= |s| {
        i := i - 1;
        break;
      }
      var ks, ka := KeepAround(s, areas, i, nmsIou);
      FilterIsRound(s, i, nmsIou);
      RoundStep(sorted, s, i, nmsIou);
      s, areas := ks, ka;
      t := t + 1;
    }

    var n := i + 1;
    ResultIsTake(sorted, s, t, nmsIou, nmsDetections);
    if n <= 0 {
      return [];
    }
    out := s[..if n < |s| then n else |s|];
  }

  method FilterPositive(v: seq<Candidate>) returns (s: seq<Candidate>)
    ensures s == Positive(v)
  {
    s := [];
    for k := 0 to |v|
      invariant s + Positive(v[k..]) == Positive(v)
    {
      assert v[k..][1..] == v[k + 1..];
      if v[k].score > 0.0 {
        s := s + [v[k]];
      }
    }
  }

  /** `out[:i+1]` after the loop, however it ended. */
  lemma ResultIsTake(sorted: seq<Candidate>, s: seq<Candidate>, t: nat, iou: real, nd: int)
    requires RoundInvariant(sorted, s, t, iou)
    requires t == |s| < nd || t == nd || (t == 0 && nd < 0)
    ensures s[..t] == Take(Greedy(sorted, iou), nd)
  {
    var g := Greedy(sorted, iou);
    assert g[..t] == s[..t];
    if |g| == t {
      assert g == s[..t];
    }
  }

  /** One round: the boxes the criterion keeps, with their areas. */
  method KeepAround(s: seq<Candidate>, areas: seq<real>, i: nat, nmsIou: real)
    returns (ks: seq<Candidate>, ka: seq<real>)
    requires i < |s| == |areas| && AllSane(s)
    requires forall k :: 0 <= k < |s| ==> areas[k] == Area(s[k].box)
    ensures ks == Survivors(s[..i], s[i], nmsIou) + [s[i]] + Survivors(s[i + 1..], s[i], nmsIou)
    ensures |ka| == |ks| && forall k :: 0 <= k < |ks| ==> ka[k] == Area(ks[k].box)
  {
    hide Suppressed, Iou, Inter, Area, Times, KeptUpTo, Survivors;
    ks, ka := [], [];
    var a := s[i].box;
    KeptAtEnds(s, i, nmsIou);
    for k := 0 to |s|
      invariant ks == KeptUpTo(s, i, k, nmsIou)
      invariant |ka| == |ks| && forall j :: 0 <= j < |ks| ==> ka[j] == Area(ks[j].box)
    {
      var crit := true;
      if k != i {
        var b := s[k].box;
        var w := Max(0.0, Min(b.x2, a.x2) - Max(b.x1, a.x1) + 1.0);
        var h := Max(0.0, Min(b.y2, a.y2) - Max(b.y1, a.y1) + 1.0);
        var inter := Times(w, h);
        CriterionMeans(s[i], s[k], areas[i], areas[k], inter, nmsIou);
        var iou := inter / (areas[k] + areas[i] - inter);
        crit := s[k].score > s[i].score || iou <= nmsIou || s[k].cls != s[i].cls;
      }
      assert crit <==> k == i || !Suppressed(s[i], s[k], nmsIou);
      KeptNext(s, i, k, nmsIou);
      if crit {
        ks := ks + [s[k]];
        ka := ka + [areas[k]];
      }
    }
  }

  lemma KeptAtEnds(s: seq<Candidate>, i: nat, iou: real)
    requires i < |s| && AllSane(s)
    ensures KeptUpTo(s, i, 0, iou) == []
    ensures KeptUpTo(s, i, |s|, iou) == Survivors(s[..i], s[i], iou) + [s[i]] + Survivors(s[i + 1..], s[i], iou)
  {
    hide Suppressed;
    assert s[i + 1..|s|] == s[i + 1..];
  }

  function KeptUpTo(s: seq<Candidate>, i: nat, k: nat, iou: real): seq<Candidate>
    requires i < |s| && k <= |s| && AllSane(s)
  {
    if k <= i then Survivors(s[..k], s[i], iou)
    else Survivors(s[..i], s[i], iou) + [s[i]] + Survivors(s[i + 1..k], s[i], iou)
  }

  lemma KeptNext(s: seq<Candidate>, i: nat, k: nat, iou: real)
    requires i < |s| && k < |s| && AllSane(s)
    ensures KeptUpTo(s, i, k + 1, iou)
         == KeptUpTo(s, i, k, iou) + if k == i || !Suppressed(s[i], s[k], iou) then [s[k]] else []
  {
    hide Suppressed;
    if k < i {
      SurvivorsSnoc(s[..k], s[k], s[i], iou);
      assert s[..k + 1] == s[..k] + [s[k]];
    } else if k > i {
      SurvivorsSnoc(s[i + 1..k], s[k], s[i], iou);
      assert s[i + 1..k + 1] == s[i + 1..k] + [s[k]];
    }
  }

  lemma CriterionMeans(kept: Candidate, c: Candidate, areaKept: real, area: real, inter: real, iou: real)
    requires Sane(kept.box) && Sane(c.box) && areaKept == Area(kept.box) && area == Area(c.box)
    requires inter == Times(Span(c.box.x1, c.box.x2, kept.box.x1, kept.box.x2),
                            Span(c.box.y1, c.box.y2, kept.box.y1, kept.box.y2))
    ensures area + areaKept - inter > 0.0
    ensures (c.score > kept.score || inter / (area + areaKept - inter) <= iou || c.cls != kept.cls)
        == !Suppressed(kept, c, iou)
  {
    hide Times, Area;
    OverlapBounds(c.box, kept.box);
  }

  lemma SurvivorsSnoc(s: seq<Candidate>, c: Candidate, kept: Candidate, iou: real)
    requires AllSane(s) && Sane(c.box) && Sane(kept.box)
    ensures AllSane(s + [c])
    ensures Survivors(s + [c], kept, iou)
         == Survivors(s, kept, iou) + if Suppressed(kept, c, iou) then [] else [c]
  {
    SurvivorsAppend(s, [c], kept, iou);
  }

  // ---- what the result is ------------------------------------------------

  predicate Overlapping(a: Candidate, b: Candidate, iou: real) {
    Sane(a.box) && Sane(b.box) && a.cls == b.cls && Iou(a.box, b.box) > iou
  }

  predicate NoOverlaps(s: seq<Candidate>, iou: real) {
    forall i, j :: 0 <= i < j < |s| ==> !Overlapping(s[i], s[j], iou)
  }

  /** Dropped for a box of the same class scoring at least as high. */
  predicate Explained(x: Candidate, out: seq<Candidate>, iou: real) {
    exists y :: y in out && y.score >= x.score && Overlapping(y, x, iou)
  }

  lemma SuppressedMeans(a: Candidate, b: Candidate, iou: real)
    requires Sane(a.box) && Sane(b.box)
    ensures Suppressed(a, b, iou) <==> a.score >= b.score && Overlapping(a, b, iou)
  {
    IouIsRatio(a.box, b.box);
  }

  lemma {:induction false} GreedyShape(s: seq<Candidate>, iou: real)
    requires AllSane(s) && Descending(s)
    ensures Descending(Greedy(s, iou)) && NoOverlaps(Greedy(s, iou), iou)
    ensures forall x :: x in Greedy(s, iou) ==> x in s
    ensures forall x :: x in s ==> x in Greedy(s, iou) || Explained(x, Greedy(s, iou), iou)
    decreases |s|
  {
    if s != [] {
      var top, rest := s[0], Survivors(s[1..], s[0], iou);
      hide Suppressed, Overlapping, Iou, Sane;
      assert s == [top] + s[1..];
      TailDescends(s, 1);
      SurvivorsMeans(s[1..], top, iou);
      GreedyShape(rest, iou);
      var g := Greedy(rest, iou);
      assert Greedy(s, iou) == [top] + g;
      forall x | x in s[1..] ensures top.score >= x.score && (Suppressed(top, x, iou) <==> Overlapping(top, x, iou)) {
        SuppressedMeans(top, x, iou);
      }
      forall j | 0 <= j < |g| ensures top.score >= g[j].score && !Overlapping(top, g[j], iou) {
        assert g[j] in rest;
      }
      TopFirst(top, g, iou);
      forall x | x in s ensures x in [top] + g || Explained(x, [top] + g, iou) {
        ExplainedInTail(top, g, rest, s, x, iou);
      }
    }
  }

  lemma TopFirst(top: Candidate, g: seq<Candidate>, iou: real)
    requires Descending(g) && NoOverlaps(g, iou)
    requires forall j :: 0 <= j < |g| ==> top.score >= g[j].score && !Overlapping(top, g[j], iou)
    ensures Descending([top] + g) && NoOverlaps([top] + g, iou)
  {
    hide Overlapping;
  }

  lemma ExplainedInTail(top: Candidate, g: seq<Candidate>, rest: seq<Candidate>, s: seq<Candidate>,
                        x: Candidate, iou: real)
    requires x in s && s != [] && s[0] == top
    requires x in s[1..] ==> top.score >= x.score && (x in rest || Overlapping(top, x, iou))
    requires forall z :: z in rest ==> z in g || Explained(z, g, iou)
    ensures x in [top] + g || Explained(x, [top] + g, iou)
  {
    hide Overlapping;
    if x != top {
      assert x in s[1..];
      if x !in rest {
        assert top in [top] + g;
      } else if x !in g {
        var y :| y in g && y.score >= x.score && Overlapping(y, x, iou);
        assert y in [top] + g;
      }
    }
  }

  /** The result in one statement: at most the cap, scores descending, no two
      boxes of a class overlapping beyond the threshold, and every positive
      candidate is in it, explained by it, or pushed out by a full list of
      boxes scoring at least as high. */
  predicate IsSuppression(v: seq<Candidate>, out: seq<Candidate>, iou: real, nd: int) {
    && (|out| == 0 || |out| <= nd)
    && Descending(out) && NoOverlaps(out, iou)
    && (forall x :: x in out ==> x in v && x.score > 0.0)
    && (forall x :: x in v && x.score > 0.0 ==>
          x in out || Explained(x, out, iou)
          || (|out| == (if nd <= 0 then 0 else nd) && forall y :: y in out ==> y.score >= x.score))
  }

  lemma NmsResultIs(v: seq<Candidate>, iou: real, nd: int)
    requires AllSane(v)
    ensures IsSuppression(v, Suppress(v, iou, nd), iou, nd)
  {
    hide Overlapping, Greedy, Positive, Sorted;
    var sorted := Sorted(Positive(v));
    SortedMeans(Positive(v));
    PositiveMeans(v);
    GreedyShape(sorted, iou);
    var g := Greedy(sorted, iou);
    var out := Take(g, nd);
    assert out <= g && forall x :: x in out ==> x in g;
    forall x | x in v && x.score > 0.0
      ensures x in out || Explained(x, out, iou)
              || (|out| == (if nd <= 0 then 0 else nd) && forall y :: y in out ==> y.score >= x.score)
    {
      assert x in sorted;
      if x in g {
        RankedOut(g, out, nd, x);
      } else {
        var y :| y in g && y.score >= x.score && Overlapping(y, x, iou);
        RankedOut(g, out, nd, y);
      }
    }
  }

  lemma {:induction false} PositiveMeans(v: seq<Candidate>)
    ensures forall x :: x in Positive(v) <==> x in v && x.score > 0.0
    ensures AllSane(v) ==> AllSane(Positive(v))
  {
    hide Sane;
    if v != [] {
      PositiveMeans(v[1..]);
      assert v == [v[0]] + v[1..];
    }
  }

  lemma RankedOut(g: seq<Candidate>, out: seq<Candidate>, nd: int, x: Candidate)
    requires Descending(g) && out == Take(g, nd) && x in g
    ensures x in out
            || (|out| == (if nd <= 0 then 0 else nd) && forall y :: y in out ==> y.score >= x.score)
  {
    var j :| 0 <= j < |g| && g[j] == x;
    if j < |out| {
      assert out[j] == x;
    }
  }

  // ---- drawing -----------------------------------------------------------

  /** The `break` in the view's box loop. */
  method BoxesToDraw(kept: seq<Candidate>, threshold: real) returns (shown: seq<Candidate>)
    ensures shown <= kept && forall i :: 0 <= i < |shown| ==> kept[i].score >= threshold
    ensures |shown| < |kept| ==> kept[|shown|].score < threshold
  {
    shown := [];
    for k := 0 to |kept|
      invariant shown == kept[..k] && forall i :: 0 <= i < k ==> kept[i].score >= threshold
    {
      if kept[k].score < threshold {
        break;
      }
      shown := shown + [kept[k]];
    }
  }

  /** On a suppression result the break is a filter: a box is drawn exactly
      when it reaches the threshold, so every box counted in the area (which
      must exceed it) is drawn. */
  lemma BreakIsFilter(v: seq<Candidate>, kept: seq<Candidate>, iou: real, nd: int,
                      shown: seq<Candidate>, threshold: real)
    requires IsSuppression(v, kept, iou, nd)
    requires shown <= kept && forall i :: 0 <= i < |shown| ==> kept[i].score >= threshold
    requires |shown| < |kept| ==> kept[|shown|].score < threshold
    ensures forall i :: 0 <= i < |kept| ==> (kept[i].score >= threshold <==> i < |shown|)
    ensures forall x :: x in kept && x.score > threshold ==> x in shown
  {
  }
}
