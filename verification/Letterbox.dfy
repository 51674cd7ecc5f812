/** Scaling a camera frame onto the model canvas, and mapping boxes back.
    Ratios are exact reals; rounding to pixels is Python's, half to even. */
module Letterbox {
  import opened Geometry

  const PROC_WIDTH := 640
  const PROC_HEIGHT := 384

  function RoundHalfEven(x: real): int {
    var low := x.Floor;
    var rest := x - low as real;
    if rest < 0.5 || (rest == 0.5 && low % 2 == 0) then low else low + 1
  }

  lemma RoundBelow(x: real, n: int)
    requires x <= n as real
    ensures RoundHalfEven(x) <= n
  {
    if x == n as real {
      assert x.Floor == n;
    }
  }

  lemma RoundExact(n: int)
    ensures RoundHalfEven(n as real) == n
  {
  }

  datatype Rect = Rect(padX: int, padY: int, width: int, height: int)

  datatype Fitted = Fitted(rect: Rect, turned: bool)

  /** The frame size once a portrait frame has been turned. */
  function Upright(width: nat, height: nat): (nat, nat) { if height > width then (height, width) else (width, height) }

  function Scale(width: nat, height: nat): real
    requires width > 0 && height > 0
  {
    Min(PROC_WIDTH as real / width as real, PROC_HEIGHT as real / height as real)
  }

  /** One side of the scaled frame, never less than a pixel. */
  function FittedSide(side: nat, scale: real): int {
    var n := RoundHalfEven(side as real * scale);
    if n < 1 then 1 else n
  }

  /** The content rectangle: scaled to fit, at least a pixel, centred. */
  function Fit(width: nat, height: nat): Fitted
    requires width > 0 && height > 0
  {
    var (w, h) := Upright(width, height);
    Fitted(Centred(FittedSide(w, Scale(w, h)), FittedSide(h, Scale(w, h))), height > width)
  }

  function Centred(w: int, h: int): Rect { Rect((PROC_WIDTH - w) / 2, (PROC_HEIGHT - h) / 2, w, h) }

  /** A quotient by name, as Times is a product. */
  function Over(a: real, b: real): real
    requires b != 0.0
  {
    a / b
  }

  lemma TimesOver(a: real, b: real)
    requires b != 0.0
    ensures Times(Over(a, b), b) == a && Over(Times(a, b), b) == a && Times(b, Over(a, b)) == a
  {
  }

  lemma TimesGrows(a: real, b: real, c: real)
    requires c >= 0.0 && a <= b
    ensures Times(a, c) <= Times(b, c) && Times(c, a) <= Times(c, b)
  {
    assert (b - a) * c >= 0.0;
  }

  lemma TimesOrder(a: real, b: real, c: real)
    requires c > 0.0
    ensures Times(a, c) <= Times(b, c) <==> a <= b
  {
    assert (b - a) * c == b * c - a * c;
    if a <= b {
      assert (b - a) * c >= 0.0;
    } else {
      assert (a - b) * c > 0.0;
    }
  }

  lemma TimesZero(c: real)
    ensures Times(0.0, c) == 0.0
  {
  }

  lemma TimesSwaps(a: real, b: real)
    ensures Times(a, b) == Times(b, a)
  {
  }

  /** The scaled sides never pass the canvas, and one of them reaches it. */
  lemma ScaledSides(w: nat, h: nat)
    requires w > 0 && h > 0
    ensures var s := Scale(w, h);
            Times(w as real, s) <= 640.0 && Times(h as real, s) <= 384.0
            && (Times(w as real, s) == 640.0 || Times(h as real, s) == 384.0)
  {
    var a, b := Over(640.0, w as real), Over(384.0, h as real);
    assert Scale(w, h) == Min(a, b);
    TimesOver(640.0, w as real);
    TimesOver(384.0, h as real);
    TimesGrows(Min(a, b), a, w as real);
    TimesGrows(Min(a, b), b, h as real);
    hide Times, Over, Scale;
  }

  /** Main result on fitting: the rectangle passes the daemon's own check,
      touches the canvas on at least one axis, and is centred to the pixel. */
  lemma FitIsValid(width: nat, height: nat)
    requires width > 0 && height > 0
    ensures var r := Fit(width, height).rect;
            && ValidContentRect(r.padX, r.padY, r.width, r.height, PROC_WIDTH, PROC_HEIGHT)
            && (r.width == PROC_WIDTH || r.height == PROC_HEIGHT)
            && 0 <= (PROC_WIDTH - r.width) - 2 * r.padX <= 1
            && 0 <= (PROC_HEIGHT - r.height) - 2 * r.padY <= 1
  {
    var (w, h) := Upright(width, height);
    var s := Scale(w, h);
    ScaledSides(w, h);
    hide Times, Scale, FittedSide;
    SideBounds(w, s, PROC_WIDTH);
    SideBounds(h, s, PROC_HEIGHT);
  }

  lemma SideBounds(side: nat, scale: real, limit: nat)
    requires limit >= 1 && Times(side as real, scale) <= limit as real
    ensures 1 <= FittedSide(side, scale) <= limit
    ensures Times(side as real, scale) == limit as real ==> FittedSide(side, scale) == limit
  {
    assert Times(side as real, scale) == side as real * scale;
    RoundBelow(side as real * scale, limit);
    RoundExact(limit);
    hide RoundHalfEven;
  }

  // ---- mapping boxes -----------------------------------------------------

  datatype Corners = Corners(x1: real, y1: real, x2: real, y2: real)

  predicate Ordered(b: Corners) { b.x1 <= b.x2 && b.y1 <= b.y2 }

  predicate Inside(b: Corners, width: real, height: real) {
    && 0.0 <= b.x1 <= width && 0.0 <= b.x2 <= width
    && 0.0 <= b.y1 <= height && 0.0 <= b.y2 <= height
  }

  /** One coordinate off the canvas, clamped to the source's side. */
  function Back(v: real, pad: int, source: nat, fit: int): real
    requires fit > 0
  {
    Min(Max((v - pad as real) * source as real / fit as real, 0.0), source as real)
  }

  function Unfit(box: Corners, rect: Rect, turned: bool, width: nat, height: nat): Corners
    requires rect.width > 0 && rect.height > 0
  {
    var (srcW, srcH) := if turned then (height, width) else (width, height);
    var x1 := Back(box.x1, rect.padX, srcW, rect.width);
    var y1 := Back(box.y1, rect.padY, srcH, rect.height);
    var x2 := Back(box.x2, rect.padX, srcW, rect.width);
    var y2 := Back(box.y2, rect.padY, srcH, rect.height);
    var (a1, b1, a2, b2) := if turned then (y1, srcW as real - x2, y2, srcW as real - x1) else (x1, y1, x2, y2);
    Corners(Min(a1, a2), Min(b1, b2), Max(a1, a2), Max(b1, b2))
  }

  /** Whatever the canvas box, the result is ordered and inside the image. */
  lemma UnfitIsInside(box: Corners, rect: Rect, turned: bool, width: nat, height: nat)
    requires rect.width > 0 && rect.height > 0
    ensures Ordered(Unfit(box, rect, turned, width, height))
    ensures Inside(Unfit(box, rect, turned, width, height), width as real, height as real)
  {
  }

  /** A point of a portrait image after the clockwise quarter turn. */
  function Turn(b: Corners, height: real): Corners { Corners(height - b.y2, b.x1, height - b.y1, b.x2) }

  /** One coordinate onto the canvas. */
  function Onto(u: real, pad: int, source: nat, fit: int): real
    requires source > 0
  {
    u * fit as real / source as real + pad as real
  }

  /** Where the fitting step puts an image box on the canvas: the turn, then
      each axis scaled and padded. */
  function Place(b: Corners, rect: Rect, turned: bool, width: nat, height: nat): Corners
    requires width > 0 && height > 0
  {
    var (srcW, srcH) := if turned then (height, width) else (width, height);
    var t := if turned then Turn(b, height as real) else b;
    Corners(Onto(t.x1, rect.padX, srcW, rect.width), Onto(t.y1, rect.padY, srcH, rect.height),
            Onto(t.x2, rect.padX, srcW, rect.width), Onto(t.y2, rect.padY, srcH, rect.height))
  }

  lemma BackOnto(u: real, pad: int, source: nat, fit: int)
    requires source > 0 && fit > 0 && 0.0 <= u <= source as real
    ensures Back(Onto(u, pad, source, fit), pad, source, fit) == u
  {
    hide Times, Over, Back, Onto;
    var n, d := source as real, fit as real;
    OntoIs(u, pad, source, fit);
    BackIs(Onto(u, pad, source, fit), pad, source, fit);
    TimesOver(Times(u, d), n);
    TimesOver(u, d);
  }

  /** Clamping to one side of the content rectangle. */
  function ClampTo(v: real, pad: int, fit: int): real { Min(Max(v, pad as real), (pad + fit) as real) }

  lemma OntoBack(v: real, pad: int, source: nat, fit: int)
    requires source > 0 && fit > 0
    ensures Onto(Back(v, pad, source, fit), pad, source, fit) == ClampTo(v, pad, fit)
  {
    hide Times, Over, Back, Onto;
    var n, d, a := source as real, fit as real, v - pad as real;
    var q := Over(Times(a, n), d);
    BackIs(v, pad, source, fit);
    OntoIs(0.0, pad, source, fit);
    OntoIs(n, pad, source, fit);
    OntoIs(q, pad, source, fit);
    TimesOver(Times(a, n), d);
    TimesOver(a, n);
    TimesOver(0.0, n);
    TimesOver(d, n);
    TimesZero(d);
    TimesZero(n);
    TimesOrder(q, 0.0, d);
    TimesOrder(a, 0.0, n);
    TimesOrder(n, q, d);
    TimesOrder(d, a, n);
    TimesSwaps(n, d);
  }

  lemma BackIs(v: real, pad: int, source: nat, fit: int)
    requires fit > 0
    ensures Back(v, pad, source, fit)
         == Min(Max(Over(Times(v - pad as real, source as real), fit as real), 0.0), source as real)
  {
  }

  lemma OntoIs(u: real, pad: int, source: nat, fit: int)
    requires source > 0
    ensures Onto(u, pad, source, fit) == Over(Times(u, fit as real), source as real) + pad as real
  {
  }

  /** Main result on mapping: undoing the fit returns every box of the image
      exactly, turned or not. */
  lemma UnfitInvertsPlace(b: Corners, rect: Rect, turned: bool, width: nat, height: nat)
    requires width > 0 && height > 0 && rect.width > 0 && rect.height > 0
    requires Ordered(b) && Inside(b, width as real, height as real)
    ensures Unfit(Place(b, rect, turned, width, height), rect, turned, width, height) == b
  {
    var (srcW, srcH) := if turned then (height, width) else (width, height);
    var t := if turned then Turn(b, height as real) else b;
    BackOnto(t.x1, rect.padX, srcW, rect.width);
    BackOnto(t.x2, rect.padX, srcW, rect.width);
    BackOnto(t.y1, rect.padY, srcH, rect.height);
    BackOnto(t.y2, rect.padY, srcH, rect.height);
    hide Back, Onto;
  }

  /** And the other way: a canvas box is returned to where it was, less the
      part of it that lay over the padding. */
  lemma PlaceInvertsUnfit(box: Corners, rect: Rect, turned: bool, width: nat, height: nat)
    requires width > 0 && height > 0 && rect.width > 0 && rect.height > 0 && Ordered(box)
    ensures Place(Unfit(box, rect, turned, width, height), rect, turned, width, height)
         == Corners(ClampTo(box.x1, rect.padX, rect.width), ClampTo(box.y1, rect.padY, rect.height),
                    ClampTo(box.x2, rect.padX, rect.width), ClampTo(box.y2, rect.padY, rect.height))
  {
    var (srcW, srcH) := if turned then (height, width) else (width, height);
    OntoBack(box.x1, rect.padX, srcW, rect.width);
    OntoBack(box.x2, rect.padX, srcW, rect.width);
    OntoBack(box.y1, rect.padY, srcH, rect.height);
    OntoBack(box.y2, rect.padY, srcH, rect.height);
    BackGrows(box.x1, box.x2, rect.padX, srcW, rect.width);
    BackGrows(box.y1, box.y2, rect.padY, srcH, rect.height);
    hide Back, Onto;
  }

  lemma BackGrows(u: real, v: real, pad: int, source: nat, fit: int)
    requires fit > 0 && u <= v
    ensures Back(u, pad, source, fit) <= Back(v, pad, source, fit)
  {
    hide Times, Over, Back;
    var n, d := source as real, fit as real;
    BackIs(u, pad, source, fit);
    BackIs(v, pad, source, fit);
    var a, b := Times(u - pad as real, n), Times(v - pad as real, n);
    TimesGrows(u - pad as real, v - pad as real, n);
    TimesOver(a, d);
    TimesOver(b, d);
    TimesOrder(Over(a, d), Over(b, d), d);
  }
}
