/** Overlap as counting: for boxes on whole pixels, the area is the number of
    pixels and the IoU the shared pixels' part of all of them. */
module IouPixels {
  import opened Geometry
  import opened Suppression
  import opened Severity

  datatype PixelBox = PixelBox(x1: int, y1: int, x2: int, y2: int)

  predicate NonEmpty(b: PixelBox) { b.x1 <= b.x2 && b.y1 <= b.y2 }

  function AsBox(b: PixelBox): Box { Box(b.x1 as real, b.y1 as real, b.x2 as real, b.y2 as real) }

  /** Both corners belong to the box. */
  ghost function Pixels(b: PixelBox): set<(int, int)> {
    set x, y | b.x1 <= x <= b.x2 && b.y1 <= y <= b.y2 :: (x, y)
  }

  function MaxInt(a: int, b: int): int { if a < b then b else a }

  function MinInt(a: int, b: int): int { if b < a then b else a }

  /** The box of the shared pixels, empty or not. */
  function Common(a: PixelBox, b: PixelBox): PixelBox {
    PixelBox(MaxInt(a.x1, b.x1), MaxInt(a.y1, b.y1), MinInt(a.x2, b.x2), MinInt(a.y2, b.y2))
  }

  lemma PixelCount(b: PixelBox)
    ensures |Pixels(b)| == MaxInt(0, b.x2 - b.x1 + 1) * MaxInt(0, b.y2 - b.y1 + 1)
  {
    var w, h := MaxInt(0, b.x2 - b.x1 + 1), MaxInt(0, b.y2 - b.y1 + 1);
    RectSize(b.x1, b.y1, w, h);
    assert Pixels(b) == Rect(b.x1, b.y1, w, h);
  }

  lemma ProductOfInts(m: int, n: int)
    ensures Times(m as real, n as real) == (m * n) as real
  {
  }

  lemma AreaCounts(b: PixelBox)
    requires NonEmpty(b)
    ensures Sane(AsBox(b)) && Area(AsBox(b)) == |Pixels(b)| as real
  {
    PixelCount(b);
    ProductOfInts(b.x2 - b.x1 + 1, b.y2 - b.y1 + 1);
    assert b.x2 as real - b.x1 as real + 1.0 == (b.x2 - b.x1 + 1) as real;
    assert b.y2 as real - b.y1 as real + 1.0 == (b.y2 - b.y1 + 1) as real;
    hide Times;
  }

  lemma SpanCounts(a1: int, a2: int, b1: int, b2: int)
    ensures Span(a1 as real, a2 as real, b1 as real, b2 as real)
         == MaxInt(0, MinInt(a2, b2) - MaxInt(a1, b1) + 1) as real
  {
  }

  lemma InterCounts(a: PixelBox, b: PixelBox)
    ensures Inter(AsBox(a), AsBox(b)) == |Pixels(a) * Pixels(b)| as real
  {
    hide Pixels, Times, Span;
    var c := Common(a, b);
    PixelCount(c);
    SpanCounts(a.x1, a.x2, b.x1, b.x2);
    SpanCounts(a.y1, a.y2, b.y1, b.y2);
    ProductOfInts(MaxInt(0, c.x2 - c.x1 + 1), MaxInt(0, c.y2 - c.y1 + 1));
    CommonPixels(a, b);
  }

  lemma CommonPixels(a: PixelBox, b: PixelBox)
    ensures Pixels(a) * Pixels(b) == Pixels(Common(a, b))
  {
  }

  /** Shared pixels over all pixels. */
  lemma IouCounts(a: PixelBox, b: PixelBox)
    requires NonEmpty(a) && NonEmpty(b)
    ensures Sane(AsBox(a)) && Sane(AsBox(b)) && |Pixels(a) + Pixels(b)| > 0
    ensures Iou(AsBox(a), AsBox(b)) == |Pixels(a) * Pixels(b)| as real / |Pixels(a) + Pixels(b)| as real
  {
    AreaCounts(a);
    AreaCounts(b);
    InterCounts(a, b);
    OverlapBounds(AsBox(a), AsBox(b));
    hide Pixels, Area, Inter;
    UnionSize(Pixels(a), Pixels(b));
  }

  lemma UnionSize<T>(a: set<T>, b: set<T>)
    ensures |a + b| == |a| + |b| - |a * b|
  {
    assert a + b == a + (b - a) && b == (b - a) + a * b;
  }
}
