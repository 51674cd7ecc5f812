/** What the fitting step keeps: the frame's shape, to the pixel, its upright
    side, and where each pixel and point of the frame goes. */
module LetterboxFit {
  import opened Geometry
  import opened Letterbox

  // ---- the size ----------------------------------------------------------

  /** The integer nearest to x; of two equally near, the even one. */
  predicate IsNearest(x: real, n: int) {
    var off := x - n as real;
    -0.5 < off < 0.5 || ((off == 0.5 || off == -0.5) && n % 2 == 0)
  }

  lemma RoundIsNearest(x: real, n: int)
    ensures RoundHalfEven(x) == n <==> IsNearest(x, n)
  {
    var low := x.Floor;
    assert low as real <= x < low as real + 1.0;
  }

  /** n pixels for a side of exactly `a / b`, a pixel at least. */
  predicate IsFitted(n: int, a: nat, b: nat)
    requires b > 0
  {
    IsNearest(a as real / b as real, n) || (n == 1 && IsNearest(a as real / b as real, 0))
  }

  lemma SideIs(side: nat, scale: real, a: nat, b: nat)
    requires b > 0 && Times(side as real, scale) == Over(a as real, b as real)
    ensures IsFitted(FittedSide(side, scale), a, b)
  {
    var x := side as real * scale;
    RoundIsNearest(x, RoundHalfEven(x));
    assert a as real / b as real >= 0.0 by { QuotientPositive(a, b); }
  }

  lemma QuotientPositive(a: nat, b: nat)
    requires b > 0
    ensures a as real / b as real >= 0.0
  {
  }

  /** One side reaches the canvas, and the other is scaled in proportion. */
  lemma FitIsProportional(width: nat, height: nat)
    requires width > 0 && height > 0
    ensures var (w, h) := Upright(width, height);
            var r := Fit(width, height).rect;
            && (PROC_WIDTH * h <= PROC_HEIGHT * w ==> r.width == PROC_WIDTH && IsFitted(r.height, PROC_WIDTH * h, w))
            && (PROC_WIDTH * h >= PROC_HEIGHT * w ==> r.height == PROC_HEIGHT && IsFitted(r.width, PROC_HEIGHT * w, h))
  {
    var (w, h) := Upright(width, height);
    ScaleIs(w, h);
    var s := Scale(w, h);
    hide Scale, FittedSide, Times, Over, IsFitted;
    ScaledSides(w, h);
    SideBounds(w, s, PROC_WIDTH);
    SideBounds(h, s, PROC_HEIGHT);
    if PROC_WIDTH * h <= PROC_HEIGHT * w { SideIs(h, s, PROC_WIDTH * h, w); }
    if PROC_WIDTH * h >= PROC_HEIGHT * w { SideIs(w, s, PROC_HEIGHT * w, h); }
  }

  lemma ScaleIs(w: nat, h: nat)
    requires w > 0 && h > 0
    ensures var s := Scale(w, h);
            && (PROC_WIDTH * h <= PROC_HEIGHT * w ==>
                  Times(w as real, s) == 640.0 && Times(h as real, s) == Over((PROC_WIDTH * h) as real, w as real))
            && (PROC_WIDTH * h >= PROC_HEIGHT * w ==>
                  Times(h as real, s) == 384.0 && Times(w as real, s) == Over((PROC_HEIGHT * w) as real, h as real))
  {
    var a, b := 640.0 / w as real, 384.0 / h as real;
    assert a * w as real == 640.0 && b * h as real == 384.0;
    QuotientOrder(w, h, a, b);
    if PROC_WIDTH * h <= PROC_HEIGHT * w {
      assert Scale(w, h) == a;
      assert (h as real * a) * w as real == (PROC_WIDTH * h) as real;
      TimesOver(h as real * a, w as real);
    }
    if PROC_WIDTH * h >= PROC_HEIGHT * w {
      assert Scale(w, h) == b;
      assert (w as real * b) * h as real == (PROC_HEIGHT * w) as real;
      TimesOver(w as real * b, h as real);
    }
  }

  lemma QuotientOrder(w: nat, h: nat, a: real, b: real)
    requires w > 0 && h > 0 && a * w as real == 640.0 && b * h as real == 384.0
    ensures PROC_WIDTH * h <= PROC_HEIGHT * w <==> a <= b
    ensures PROC_WIDTH * h >= PROC_HEIGHT * w <==> a >= b
  {
    var n := w as real * h as real;
    ProductPositive(w as real, h as real);
    assert a * n == 640.0 * h as real;
    assert b * n == 384.0 * w as real;
    TimesOrder(a, b, n);
    TimesOrder(b, a, n);
    hide Times;
  }

  lemma ProductPositive(a: real, b: real)
    requires a > 0.0 && b > 0.0
    ensures a * b > 0.0
  {
  }

  /** The content rectangle has the shape of the upright frame, up to rounding;
      the frame is turned exactly if it is higher than wide. */
  lemma FitKeepsShape(width: nat, height: nat)
    requires width > 0 && height > 0
    ensures var (w, h) := Upright(width, height);
            var f := Fit(width, height);
            && -(w + h) <= f.rect.width * h - f.rect.height * w <= w + h
            && (f.turned <==> height > width)
            && w >= h && {w, h} == {width, height}
  {
    var (w, h) := Upright(width, height);
    var s, r := Scale(w, h), Fit(width, height).rect;
    ScaleIsPositive(w, h);
    SideIsNear(w, s);
    SideIsNear(h, s);
    hide Scale, FittedSide;
    Shape(w, h, r.width, r.height, s);
  }

  lemma ScaleIsPositive(w: nat, h: nat)
    requires w > 0 && h > 0
    ensures Scale(w, h) > 0.0
  {
    assert 640.0 / w as real > 0.0 && 384.0 / h as real > 0.0;
  }

  lemma SideIsNear(side: nat, scale: real)
    requires scale > 0.0
    ensures -1.0 <= FittedSide(side, scale) as real - side as real * scale <= 1.0
  {
    var x := side as real * scale;
    assert x >= 0.0;
    RoundIsNearest(x, RoundHalfEven(x));
  }

  lemma Shape(w: nat, h: nat, fw: int, fh: int, s: real)
    requires -1.0 <= fw as real - w as real * s <= 1.0 && -1.0 <= fh as real - h as real * s <= 1.0
    ensures -(w + h) <= fw * h - fh * w <= w + h
  {
    Cross(fw as real, fh as real, fw as real - w as real * s, fh as real - h as real * s, s, w as real, h as real);
    CrossOfInts(fw, h, fh, w);
    assert (w + h) as real == w as real + h as real;
  }

  lemma Cross(f: real, g: real, a: real, b: real, s: real, W: real, H: real)
    requires f == a + W * s && g == b + H * s && W >= 0.0 && H >= 0.0
    requires -1.0 <= a <= 1.0 && -1.0 <= b <= 1.0
    ensures -(W + H) <= f * H - g * W <= W + H
  {
    Bounded(a, H);
    Bounded(b, W);
    Spread(f, a, W, s, H);
    Spread(g, b, H, s, W);
    SwapEnds(W, s, H);
    hide Times;
  }

  lemma Spread(f: real, a: real, W: real, s: real, H: real)
    requires f == a + W * s
    ensures f * H == Times(a, H) + Times(Times(W, s), H)
  {
    assert (a + W * s) * H == a * H + W * s * H;
  }

  lemma SwapEnds(W: real, s: real, H: real)
    ensures Times(Times(W, s), H) == Times(Times(H, s), W)
  {
    assert W * s * H == H * s * W;
  }

  lemma CrossOfInts(fw: int, h: nat, fh: int, w: nat)
    ensures (fw * h - fh * w) as real == fw as real * h as real - fh as real * w as real
  {
  }

  lemma Bounded(a: real, n: real)
    requires -1.0 <= a <= 1.0 && n >= 0.0
    ensures -n <= Times(a, n) <= n
  {
    TimesGrows(-1.0, a, n);
    TimesGrows(a, 1.0, n);
    UnitTimes(n);
    hide Times;
  }

  lemma UnitTimes(n: real)
    ensures Times(1.0, n) == n && Times(-1.0, n) == -n
  {
  }

  // ---- the turn ----------------------------------------------------------

  /** A quarter turn clockwise of an image of this height: the bottom row
      becomes the left column. */
  function TurnedPixel(x: int, y: int, height: nat): (int, int) { (height - 1 - y, x) }

  /** The pixels, as unit squares, that a box covers whole. */
  predicate Covers(b: Corners, x: int, y: int) {
    b.x1 <= x as real && (x + 1) as real <= b.x2 && b.y1 <= y as real && (y + 1) as real <= b.y2
  }

  /** Turning a box and turning the pixels under it is the same. */
  lemma TurnMovesPixels(b: Corners, height: nat, x: int, y: int)
    ensures var (tx, ty) := TurnedPixel(x, y, height);
            Covers(b, x, y) <==> Covers(Turn(b, height as real), tx, ty)
  {
  }

  // ---- where points go ---------------------------------------------------

  /** The whole frame goes onto the whole content rectangle, and points between
      go in proportion on either axis; so there is only one way to place a box. */
  lemma PlaceIsProportional(rect: Rect, width: nat, height: nat, b: Corners, t: real)
    requires width > 0 && height > 0
    ensures Place(Corners(0.0, 0.0, width as real, height as real), rect, false, width, height)
         == Corners(rect.padX as real, rect.padY as real, (rect.padX + rect.width) as real, (rect.padY + rect.height) as real)
    ensures Place(Corners(0.0, 0.0, width as real, height as real), rect, true, width, height)
         == Corners(rect.padX as real, rect.padY as real, (rect.padX + rect.width) as real, (rect.padY + rect.height) as real)
    ensures var p := Place(Corners(t * width as real, t * height as real, width as real, height as real), rect, false, width, height);
            p.x1 == rect.padX as real + t * rect.width as real && p.y1 == rect.padY as real + t * rect.height as real
  {
    OntoPart(t, rect.padX, width, rect.width);
    OntoPart(t, rect.padY, height, rect.height);
    OntoPart(0.0, rect.padX, width, rect.width);
    OntoPart(0.0, rect.padY, height, rect.height);
    OntoPart(1.0, rect.padX, width, rect.width);
    OntoPart(1.0, rect.padY, height, rect.height);
    OntoPart(0.0, rect.padX, height, rect.width);
    OntoPart(0.0, rect.padY, width, rect.height);
    OntoPart(1.0, rect.padX, height, rect.width);
    OntoPart(1.0, rect.padY, width, rect.height);
    hide Onto;
  }

  lemma OntoPart(t: real, pad: int, source: nat, fit: int)
    requires source > 0
    ensures Onto(t * source as real, pad, source, fit) == pad as real + t * fit as real
  {
    OntoIs(t * source as real, pad, source, fit);
    SwapLast(t, source as real, fit as real);
    TimesOver(t * fit as real, source as real);
    hide Onto, Times, Over;
  }

  lemma SwapLast(a: real, b: real, c: real)
    ensures Times(a * b, c) == Times(a * c, b)
  {
    assert a * b * c == a * c * b;
  }
}
