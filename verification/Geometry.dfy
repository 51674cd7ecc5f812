/** The few geometric terms that the postprocess, the pipe and the letterbox
    share. */
module Geometry {

  function Max(a: real, b: real): real { if a < b then b else a }

  function Min(a: real, b: real): real { if b < a then b else a }

  /** A product by name, for proofs that need not look inside it. */
  function Times(a: real, b: real): real { a * b }

  /** The daemon's check of a content rectangle; what it means: the rectangle is
      not empty and none of its pixels lies outside (ContentRectIff). */
  predicate ValidContentRect(x: int, y: int, width: int, height: int, procWidth: int, procHeight: int) {
    x >= 0 && y >= 0 && width > 0 && height > 0 && x + width <= procWidth && y + height <= procHeight
  }

  predicate InRect(x: int, y: int, width: int, height: int, px: int, py: int) {
    x <= px < x + width && y <= py < y + height
  }

  lemma ContentRectIff(x: int, y: int, width: int, height: int, procWidth: int, procHeight: int)
    ensures ValidContentRect(x, y, width, height, procWidth, procHeight)
       <==> width > 0 && height > 0
            && forall px, py :: InRect(x, y, width, height, px, py) ==> InRect(0, 0, procWidth, procHeight, px, py)
  {
    if width > 0 && height > 0 {
      assert InRect(x, y, width, height, x, y) && InRect(x, y, width, height, x + width - 1, y + height - 1);
    }
  }
}
