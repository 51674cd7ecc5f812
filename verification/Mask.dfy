/** The detection mask: its stored string, its grid, and the black cells
    painted over a frame of any size. */
module Masking {

  type Grid = seq<seq<bool>>

  datatype Rgb = Rgb(red: int, green: int, blue: int)

  const BLACK := Rgb(0, 0, 0)

  predicate Square(m: Grid, n: nat) { |m| == n && forall r :: 0 <= r < n ==> |m[r]| == n }

  // ---- integer edges -----------------------------------------------------

  lemma TimesLe(a: nat, b: nat, c: nat)
    requires a <= b
    ensures a * c <= b * c && c * a <= c * b
  {
    assert b * c == a * c + (b - a) * c;
    assert (b - a) * c >= 0;
  }

  lemma QuotientBrackets(b: nat, w: nat)
    requires w > 0
    ensures w * (b / w) <= b < w * (b / w + 1)
  {
    assert b == w * (b / w) + b % w;
  }

  lemma FloorBelow(a: nat, g: nat, x: nat)
    requires g > 0
    ensures a / g <= x <==> a < (x + 1) * g
  {
    var q := a / g;
    QuotientBrackets(a, g);
    if q <= x {
      TimesLe(q + 1, x + 1, g);
    } else {
      TimesLe(x + 1, q, g);
    }
  }

  lemma QuotientAtLeast(c: nat, w: nat, b: nat)
    requires w > 0
    ensures c <= b / w <==> w * c <= b
  {
    var q := b / w;
    QuotientBrackets(b, w);
    if c <= q {
      TimesLe(c, q, w);
    } else {
      TimesLe(q + 1, c, w);
    }
  }

  lemma QuotientIs(q: nat, w: nat, b: nat)
    requires w > 0 && w * q <= b < w * (q + 1)
    ensures b / w == q
  {
    QuotientAtLeast(q, w, b);
    QuotientAtLeast(q + 1, w, b);
  }

  /** Left edge, in pixels, of cell `c` of `grid` cells over `extent` pixels. */
  function Edge(c: nat, extent: nat, grid: nat): nat
    requires grid > 0
  {
    extent * c / grid
  }

  /** The cell a pixel belongs to. */
  function CellOf(x: nat, extent: nat, grid: nat): (c: nat)
    requires x < extent && grid > 0
    ensures c < grid
  {
    CellInGrid(x, extent, grid);
    ((x + 1) * grid - 1) / extent
  }

  lemma CellInGrid(x: nat, extent: nat, grid: nat)
    requires x < extent && grid > 0
    ensures (x + 1) * grid - 1 >= 0 && ((x + 1) * grid - 1) / extent < grid
  {
    TimesLe(1, x + 1, grid);
    TimesLe(x + 1, extent, grid);
    QuotientAtLeast(grid, extent, (x + 1) * grid - 1);
  }

  /** A run of cells covers exactly the pixels whose cell is in the run. */
  lemma RunCovers(x: nat, extent: nat, grid: nat, first: nat, end: nat)
    requires x < extent && grid > 0
    ensures Edge(first, extent, grid) <= x < Edge(end, extent, grid) <==> first <= CellOf(x, extent, grid) < end
  {
    EdgeReaches(x, extent, grid, first);
    EdgeReaches(x, extent, grid, end);
    hide Edge, CellOf;
  }

  lemma EdgeReaches(x: nat, extent: nat, grid: nat, c: nat)
    requires x < extent && grid > 0
    ensures Edge(c, extent, grid) <= x <==> c <= CellOf(x, extent, grid)
  {
    CellInGrid(x, extent, grid);
    FloorBelow(extent * c, grid, x);
    QuotientAtLeast(c, extent, (x + 1) * grid - 1);
  }

  /** The cells' intervals partition the extent, whatever its size: every pixel
      lies in exactly one, and the outer edges are the image's own. */
  lemma CellsPartition(extent: nat, grid: nat)
    requires grid > 0
    ensures Edge(0, extent, grid) == 0 && Edge(grid, extent, grid) == extent
    ensures forall x, c: nat :: 0 <= x < extent ==>
              (Edge(c, extent, grid) <= x < Edge(c + 1, extent, grid) <==> c == CellOf(x, extent, grid))
  {
    QuotientIs(extent, grid, extent * grid);
    hide Edge, CellOf;
    forall x, c: nat | 0 <= x < extent
      ensures Edge(c, extent, grid) <= x < Edge(c + 1, extent, grid) <==> c == CellOf(x, extent, grid)
    {
      RunCovers(x, extent, grid, c, c + 1);
    }
  }

  /** No cell is more than a pixel wider than another. */
  lemma CellsAreEven(extent: nat, grid: nat, c: nat)
    requires grid > 0
    ensures extent / grid <= Edge(c + 1, extent, grid) - Edge(c, extent, grid) <= extent / grid + 1
  {
    assert extent * (c + 1) == extent * c + extent;
    SumOfQuotients(extent * c, extent, grid);
  }

  lemma SumOfQuotients(a: nat, b: nat, g: nat)
    requires g > 0
    ensures a / g + b / g <= (a + b) / g <= a / g + b / g + 1
  {
    var lo, q := a / g, b / g;
    QuotientBrackets(a, g);
    QuotientBrackets(b, g);
    assert g * (lo + q) == g * lo + g * q;
    assert g * (lo + 1) + g * (q + 1) == g * (lo + q + 2);
    QuotientAtLeast(lo + q, g, a + b);
    QuotientAtLeast(lo + q + 2, g, a + b);
  }

  // Products and quotients by name, so that the next proofs need not look
  // inside them.
  function Prod(a: nat, b: nat): nat { a * b }

  function Quot(a: nat, b: nat): nat
    requires b > 0
  {
    a / b
  }

  lemma ProdLe(a: nat, b: nat, c: nat)
    requires a <= b
    ensures Prod(c, a) <= Prod(c, b) && Prod(a, c) <= Prod(b, c)
  {
    TimesLe(a, b, c);
  }

  lemma ProdPositive(a: nat, b: nat)
    requires a > 0 && b > 0
    ensures Prod(a, b) > 0
  {
    TimesLe(1, a, b);
  }

  lemma ProdShuffles(a: nat, b: nat, c: nat)
    ensures Prod(a, Prod(b, c)) == Prod(Prod(a, b), c) == Prod(Prod(a, c), b) == Prod(b, Prod(a, c))
  {
  }

  lemma ProdNext(a: nat, b: nat)
    ensures Prod(a + 1, b) == Prod(a, b) + b && Prod(a, b) == Prod(b, a)
  {
  }

  lemma QuotIs(q: nat, w: nat, b: nat)
    requires w > 0
    ensures Quot(b, w) == q <==> Prod(w, q) <= b < Prod(w, q + 1)
  {
    QuotientAtLeast(q, w, b);
    QuotientAtLeast(q + 1, w, b);
  }

  lemma NestedQuotient(b: nat, w: nat, k: nat)
    requires w > 0 && k > 0
    ensures Prod(w, k) > 0 && Quot(Quot(b, w), k) == Quot(b, Prod(w, k))
  {
    hide Prod, Quot;
    var q := Quot(b, w);
    var c := Quot(q, k);
    ProdPositive(w, k);
    QuotIs(q, w, b);
    QuotIs(c, k, q);
    ProdLe(Prod(k, c), q, w);
    ProdLe(q + 1, Prod(k, c + 1), w);
    ProdShuffles(w, k, c);
    ProdShuffles(w, k, c + 1);
    QuotIs(c, Prod(w, k), b);
  }

  lemma ScaledQuotient(a: nat, w: nat, k: nat)
    requires a > 0 && w > 0 && k > 0
    ensures Prod(w, k) > 0 && Prod(a, k) > 0 && Quot(Prod(a, k) - 1, Prod(w, k)) == Quot(a - 1, w)
  {
    hide Prod, Quot;
    var q := Quot(a - 1, w);
    ProdPositive(w, k);
    ProdPositive(a, k);
    QuotIs(q, w, a - 1);
    ProdLe(Prod(w, q) + 1, a, k);
    ProdNext(Prod(w, q), k);
    ProdLe(a, Prod(w, q + 1), k);
    ProdShuffles(w, k, q);
    ProdShuffles(w, k, q + 1);
    ProdShuffles(w, q, k);
    ProdShuffles(w, q + 1, k);
    QuotIs(q, Prod(w, k), Prod(a, k) - 1);
  }

  /** A pixel's coarse cell is the one that holds its fine cell. */
  lemma CoarseCell(x: nat, extent: nat, n: nat, k: nat)
    requires x < extent && n > 0 && k > 0
    ensures n * k > 0 && CellOf(x, extent, n * k) / k == CellOf(x, extent, n)
  {
    var a := Prod(x + 1, n);
    ProdPositive(x + 1, n);
    ProdPositive(n, k);
    ScaledQuotient(a, extent, k);
    NestedQuotient(Prod(a, k) - 1, extent, k);
    ProdShuffles(x + 1, n, k);
    CellQuot(x, extent, n);
    CellQuot(x, extent, Prod(n, k));
    hide CellOf, Quot;
    assert n * k == Prod(n, k);
    QuotIsSlash(CellOf(x, extent, n * k), k);
    hide Prod;
  }

  lemma CellQuot(x: nat, extent: nat, grid: nat)
    requires x < extent && grid > 0
    ensures Prod(x + 1, grid) > 0 && CellOf(x, extent, grid) == Quot(Prod(x + 1, grid) - 1, extent)
  {
    CellInGrid(x, extent, grid);
  }

  lemma QuotIsSlash(a: nat, b: nat)
    requires b > 0
    ensures Quot(a, b) == a / b
  {
  }

  // ---- the stored string -------------------------------------------------

  /** Integer square root. */
  function Root(n: nat): (r: nat)
    ensures r * r <= n < (r + 1) * (r + 1)
  {
    if n == 0 then 0
    else
      var r := Root(n - 1);
      if (r + 1) * (r + 1) <= n then r + 1 else r
  }

  lemma RootOfSquare(n: nat)
    ensures Root(n * n) == n
  {
    var r := Root(n * n);
    assert r * r <= n * n < (r + 1) * (r + 1);
    hide Root;
    if r < n {
      TimesLe(r + 1, n, r + 1);
      TimesLe(r + 1, n, n);
    } else if r > n {
      TimesLe(n + 1, r, r);
      TimesLe(n + 1, r, n + 1);
    }
  }

  function Blank(grid: nat): Grid { seq(grid, r => seq(grid, c => false)) }

  /** Where cell (r, c) of a stored square is. */
  function Index(r: nat, c: nat, size: nat): (i: nat)
    requires c < size
    ensures r < size ==> i < size * size
  {
    if r < size then TimesLe(r + 1, size, size); r * size + c else r * size + c
  }

  /** The matrix written row by row. */
  function Rows(data: string, size: nat): Grid
    requires size * size == |data|
  {
    seq(size, r requires 0 <= r < size => seq(size, c requires 0 <= c < size => data[Index(r, c, size)] == '1'))
  }

  /** The source index of a target row or column, by nearest neighbour. */
  function Sampled(i: nat, size: nat, grid: nat): (s: nat)
    requires i < grid && size > 0
    ensures s < size
  {
    SampleInside(i, size, grid);
    i * size / grid
  }

  lemma SampleInside(i: nat, size: nat, grid: nat)
    requires i < grid && size > 0
    ensures i * size / grid < size
  {
    TimesLe(i + 1, grid, size);
    QuotientAtLeast(size, grid, i * size);
  }

  function Decode(data: string, grid: nat): (m: Grid)
    ensures Square(m, grid)
  {
    var size := Root(|data|);
    if data == "" || size == 0 || size * size != |data| then Blank(grid)
    else if size == grid then Rows(data, size)
    else
      var rows := Rows(data, size);
      seq(grid, r requires 0 <= r < grid => seq(grid, c requires 0 <= c < grid =>
        rows[Sampled(r, size, grid)][Sampled(c, size, grid)]))
  }

  function EncodeRow(row: seq<bool>): string { seq(|row|, c requires 0 <= c < |row| => if row[c] then '1' else '0') }

  function Encode(m: Grid): string {
    if m == [] then "" else EncodeRow(m[0]) + Encode(m[1..])
  }

  predicate IsEmpty(data: string) { '1' !in data }

  predicate AnyMasked(m: Grid) { exists r :: 0 <= r < |m| && true in m[r] }

  /** One decoded cell: nothing is masked unless the length is a square. */
  lemma DecodedAt(data: string, grid: nat, r: nat, c: nat)
    requires r < grid && c < grid
    ensures var size := Root(|data|);
            if size == 0 || size * size != |data| then !Decode(data, grid)[r][c]
            else (var (i, j) := if size == grid then (r, c) else (Sampled(r, size, grid), Sampled(c, size, grid));
                  Decode(data, grid)[r][c] == (data[Index(i, j, size)] == '1'))
  {
    hide Root, Index, Sampled;
  }

  lemma {:induction false} EncodedLength(m: Grid, n: nat)
    requires forall r :: 0 <= r < |m| ==> |m[r]| == n
    ensures |Encode(m)| == |m| * n
  {
    if m != [] {
      EncodedLength(m[1..], n);
      assert |m| * n == n + |m[1..]| * n;
    }
  }

  /** Cell (r, c) is character `r * n + c`. */
  lemma {:induction false} EncodedAt(m: Grid, n: nat, r: nat, c: nat)
    requires forall r :: 0 <= r < |m| ==> |m[r]| == n
    requires r < |m| && c < n
    ensures Index(r, c, n) < |Encode(m)| && Encode(m)[Index(r, c, n)] == if m[r][c] then '1' else '0'
    decreases r
  {
    var head, tail := EncodeRow(m[0]), Encode(m[1..]);
    assert Encode(m) == head + tail && |head| == n;
    if r == 0 {
      assert Index(0, c, n) == c;
    } else {
      EncodedAt(m[1..], n, r - 1, c);
      assert (r - 1) * n + n == r * n;
    }
  }

  /** The round trip: a grid written and read back at its own size is itself. */
  lemma DecodeEncode(m: Grid, n: nat)
    requires Square(m, n)
    ensures Decode(Encode(m), n) == m
  {
    EncodedLength(m, n);
    RootOfSquare(n);
    hide Encode, Root, Index, Decode, Sampled;
    forall r, c | 0 <= r < n && 0 <= c < n ensures Decode(Encode(m), n)[r][c] == m[r][c] {
      EncodedAt(m, n, r, c);
      DecodedAt(Encode(m), n, r, c);
    }
    SameCells(Decode(Encode(m), n), m, n);
  }

  lemma SameCells(a: Grid, b: Grid, n: nat)
    requires Square(a, n) && Square(b, n)
    requires forall r, c :: 0 <= r < n && 0 <= c < n ==> a[r][c] == b[r][c]
    ensures a == b
  {
    forall r | 0 <= r < n ensures a[r] == b[r] {
    }
  }

  lemma RowAndColumn(i: nat, n: nat)
    requires i < n * n
    ensures n > 0 && i / n < n && i % n < n && Index(i / n, i % n, n) == i
  {
    QuotientAtLeast(n, n, i);
    assert i == n * (i / n) + i % n;
  }

  /** The other way round: a string of the grid's size comes back with every
      character that is not `1` written as `0`. */
  lemma EncodeDecode(data: string, n: nat)
    requires |data| == n * n
    ensures |Encode(Decode(data, n))| == |data|
    ensures forall i :: 0 <= i < |data| ==> Encode(Decode(data, n))[i] == if data[i] == '1' then '1' else '0'
  {
    hide Encode, Root, Index, Decode, Sampled;
    EncodedLength(Decode(data, n), n);
    forall i | 0 <= i < |data| ensures Encode(Decode(data, n))[i] == if data[i] == '1' then '1' else '0' {
      EncodeDecodeAt(data, n, i);
    }
  }

  lemma EncodeDecodeAt(data: string, n: nat, i: nat)
    requires i < |data| == n * n
    ensures i < |Encode(Decode(data, n))| && Encode(Decode(data, n))[i] == if data[i] == '1' then '1' else '0'
  {
    hide Encode, Root, Index, Decode, Sampled;
    var m := Decode(data, n);
    EncodedLength(m, n);
    RootOfSquare(n);
    RowAndColumn(i, n);
    var r, c := i / n, i % n;
    EncodedAt(m, n, r, c);
    DecodedAt(data, n, r, c);
  }

  /** A coarser stored mask is read by repeating each cell k times each way. */
  lemma Upscaled(m: Grid, n: nat, k: nat, grid: nat, r: nat, c: nat, i: nat, j: nat)
    requires Square(m, n) && n > 0 && k > 0 && grid == n * k && r < grid && c < grid
    requires i == r / k && j == c / k
    ensures i < n && j < n && Decode(Encode(m), grid)[r][c] == m[i][j]
  {
    hide Encode, Root, Sampled, Index, Decode;
    SampledIs(r, n, k);
    SampledIs(c, n, k);
    EncodedLength(m, n);
    RootOfSquare(n);
    if grid == n {
      SameSizeOnce(n, k);
    }
    UpscaledCell(m, n, grid, r, c, i, j);
  }

  lemma UpscaledCell(m: Grid, n: nat, grid: nat, r: nat, c: nat, i: nat, j: nat)
    requires Square(m, n) && n > 0 && r < grid && c < grid && i < n && j < n
    requires |Encode(m)| == n * n && Root(n * n) == n
    requires grid == n ==> i == r && j == c
    requires grid != n ==> i == Sampled(r, n, grid) && j == Sampled(c, n, grid)
    ensures Decode(Encode(m), grid)[r][c] == m[i][j]
  {
    hide Encode, Root, Sampled, Index, Decode;
    EncodedAt(m, n, i, j);
    DecodedAt(Encode(m), grid, r, c);
  }

  lemma SameSizeOnce(n: nat, k: nat)
    requires n > 0 && n * k == n
    ensures k == 1
  {
    QuotientIs(k, n, n);
    QuotientIs(1, n, n);
  }

  lemma SampledIs(i: nat, n: nat, k: nat)
    requires n > 0 && k > 0 && i < n * k
    ensures Sampled(i, n, n * k) == i / k < n
  {
    SampledQuot(i, n, k);
    QuotientAtLeast(n, k, i);
    assert Quot(i, k) == i / k;
    assert Sampled(i, n, n * k) == Quot(Prod(i, n), Prod(n, k));
  }

  lemma SampledQuot(i: nat, n: nat, k: nat)
    requires n > 0 && k > 0
    ensures Prod(n, k) > 0 && Quot(Prod(i, n), Prod(n, k)) == Quot(i, k)
  {
    hide Prod, Quot;
    var q := Quot(i, k);
    ProdPositive(n, k);
    QuotIs(q, k, i);
    ProdLe(Prod(k, q), i, n);
    ProdLe(i + 1, Prod(k, q + 1), n);
    ProdNext(i, n);
    ProdShuffles(k, q, n);
    ProdShuffles(k, q + 1, n);
    ProdShuffles(n, k, q);
    ProdShuffles(n, k, q + 1);
    ProdNext(n, k);
    QuotIs(q, Prod(n, k), Prod(i, n));
  }

  lemma EmptyDecodesBlank(data: string, grid: nat)
    requires IsEmpty(data)
    ensures !AnyMasked(Decode(data, grid))
    ensures forall r, c :: 0 <= r < grid && 0 <= c < grid ==> !Decode(data, grid)[r][c]
  {
    hide Root, Decode, Index, Sampled;
    forall r, c | 0 <= r < grid && 0 <= c < grid ensures !Decode(data, grid)[r][c] {
      DecodedAt(data, grid, r, c);
    }
  }

  // ---- painting ----------------------------------------------------------

  /** The pixel's cell is masked. */
  predicate Masked(m: Grid, n: nat, width: nat, height: nat, x: nat, y: nat)
    requires Square(m, n) && n > 0 && x < width && y < height
  {
    m[CellOf(y, height, n)][CellOf(x, width, n)]
  }

  /** Main result on old masks: one saved at n x n blacks, on a grid that n
      divides, exactly the pixels it would black on its own grid. */
  lemma OwnResolution(m: Grid, n: nat, k: nat, width: nat, height: nat, x: nat, y: nat)
    requires Square(m, n) && n > 0 && k > 0 && x < width && y < height
    ensures n * k > 0
    ensures Masked(Decode(Encode(m), n * k), n * k, width, height, x, y) == Masked(m, n, width, height, x, y)
  {
    CoarseCell(x, width, n, k);
    CoarseCell(y, height, n, k);
    hide CellOf, Decode, Encode;
    Upscaled(m, n, k, n * k, CellOf(y, height, n * k), CellOf(x, width, n * k), CellOf(y, height, n), CellOf(x, width, n));
  }

  /** Which pixels a stored mask of the grid's own size blacks: those of the cell
      in row r and column c if the stored character r * grid + c is a one. */
  lemma PixelFollowsString(data: string, grid: nat, width: nat, height: nat, x: nat, y: nat, r: nat, c: nat)
    requires |data| == grid * grid && r < grid && c < grid && x < width && y < height
    requires Edge(r, height, grid) <= y < Edge(r + 1, height, grid)
    requires Edge(c, width, grid) <= x < Edge(c + 1, width, grid)
    ensures 0 <= r * grid + c < |data|
    ensures Masked(Decode(data, grid), grid, width, height, x, y) <==> data[r * grid + c] == '1'
  {
    RunCovers(x, width, grid, c, c + 1);
    RunCovers(y, height, grid, r, r + 1);
    RootOfSquare(grid);
    DecodedAt(data, grid, r, c);
    var i := Index(r, c, grid);
    hide Decode, CellOf, Edge, Root;
  }

  /** For any other size the nearest stored cell towards the corner counts. */
  lemma SampledBrackets(i: nat, size: nat, grid: nat)
    requires i < grid && size > 0
    ensures grid * Sampled(i, size, grid) <= i * size < grid * (Sampled(i, size, grid) + 1)
  {
    QuotientBrackets(i * size, grid);
  }

  /** Which pixels are painted once rows before `row`, and cells of `row`
      before `col`, are done. */
  predicate Painted(m: Grid, n: nat, width: nat, height: nat, row: nat, col: nat, x: nat, y: nat)
    requires Square(m, n) && n > 0 && x < width && y < height
  {
    && Masked(m, n, width, height, x, y)
    && (CellOf(y, height, n) < row || (CellOf(y, height, n) == row && CellOf(x, width, n) < col))
  }

  /** Fills an inclusive rectangle with black. */
  method DrawRectangle(image: array2<Rgb>, x1: nat, y1: nat, x2: nat, y2: nat)
    requires x1 <= x2 < image.Length1 && y1 <= y2 < image.Length0
    modifies image
    ensures forall y, x :: 0 <= y < image.Length0 && 0 <= x < image.Length1 ==>
              image[y, x] == if x1 <= x <= x2 && y1 <= y <= y2 then BLACK else old(image[y, x])
  {
    forall y, x | y1 <= y <= y2 && x1 <= x <= x2 {
      image[y, x] := BLACK;
    }
  }

  lemma CellInRun(m: Grid, n: nat, width: nat, height: nat, row: nat, start: nat, end: nat, x: nat, y: nat)
    requires Square(m, n) && n > 0 && x < width && y < height && row < n && start < end <= n
    requires forall c :: start <= c < end ==> m[row][c]
    ensures Painted(m, n, width, height, row, end, x, y)
       <==> Painted(m, n, width, height, row, start, x, y)
            || (Edge(start, width, n) <= x < Edge(end, width, n)
                && Edge(row, height, n) <= y < Edge(row + 1, height, n))
  {
    RunCovers(x, width, n, start, end);
    RunCovers(y, height, n, row, row + 1);
    hide CellOf, Edge;
  }

  /** A copy of the frame in which exactly the pixels of masked cells are black. */
  method ApplyToImage(image: array2<Rgb>, data: string, grid: nat) returns (masked: array2<Rgb>)
    ensures fresh(masked) && masked.Length0 == image.Length0 && masked.Length1 == image.Length1
    ensures forall y, x :: 0 <= y < image.Length0 && 0 <= x < image.Length1 ==>
              masked[y, x] == if grid > 0 && Masked(Decode(data, grid), grid, image.Length1, image.Length0, x, y)
                              then BLACK else image[y, x]
  {
    hide Decode, CellOf, Edge;
    var height, width := image.Length0, image.Length1;
    masked := new Rgb[height, width]((y, x) requires 0 <= y < height && 0 <= x < width reads image => image[y, x]);
    if IsEmpty(data) {
      EmptyDecodesBlank(data, grid);
      return;
    }
    var matrix := Decode(data, grid);
    if !AnyMasked(matrix) {
      return;
    }
    var row := 0;
    while row < grid
      invariant 0 <= row <= grid
      invariant forall y, x :: 0 <= y < height && 0 <= x < width ==>
                  masked[y, x] == if grid > 0 && Painted(matrix, grid, width, height, row, 0, x, y)
                                  then BLACK else image[y, x]
    {
      var y1, y2 := Edge(row, height, grid), Edge(row + 1, height, grid);
      var col := 0;
      while col < grid
        invariant 0 <= col <= grid
        invariant forall y, x :: 0 <= y < height && 0 <= x < width ==>
                    masked[y, x] == if Painted(matrix, grid, width, height, row, col, x, y)
                                    then BLACK else image[y, x]
      {
        if !matrix[row][col] {
          col := col + 1;
          continue;
        }
        var start := col;
        while col < grid && matrix[row][col]
          invariant start <= col <= grid
          invariant forall c :: start <= c < col ==> matrix[row][c]
        {
          col := col + 1;
        }
        var x1, x2 := Edge(start, width, grid), Edge(col, width, grid);
        forall y, x | 0 <= y < height && 0 <= x < width
          ensures Painted(matrix, grid, width, height, row, col, x, y)
             <==> Painted(matrix, grid, width, height, row, start, x, y) || (x1 <= x < x2 && y1 <= y < y2)
        {
          CellInRun(matrix, grid, width, height, row, start, col, x, y);
        }
        EdgeInside(col, width, grid);
        EdgeInside(row + 1, height, grid);
        if x2 > x1 && y2 > y1 {
          DrawRectangle(masked, x1, y1, x2 - 1, y2 - 1);
        }
      }
      row := row + 1;
    }
  }

  lemma EdgeInside(c: nat, extent: nat, grid: nat)
    requires 0 < grid && c <= grid
    ensures Edge(c, extent, grid) <= extent
  {
    TimesLe(c, grid, extent);
    TimesLe(extent, extent + 1, grid);
    FloorBelow(extent * c, grid, extent);
  }
}
