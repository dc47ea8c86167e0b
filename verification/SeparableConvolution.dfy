/** 3rd_pkg_cases/cuda/convolutionSeparable/convolutionSeparable_gold.cpp: two one-dimensional passes
    with zero boundary.  Pixels and weights are integers; the passes take the rounding of their
    arithmetic as a parameter, so that one text serves exact arithmetic and binary32. */
module SeparableConvolution {
  import Rounding
  import opened RowMajor

  // ------------------------------------------------- finite sums

  /** The sum of f(lo), ..., f(hi - 1). */
  function Sum(lo: int, hi: int, f: int -> int): int
    decreases hi - lo
  {
    if hi <= lo then 0 else Sum(lo, hi - 1, f) + f(hi - 1)
  }

  lemma {:induction false} SumSame(lo: int, hi: int, f: int -> int, g: int -> int)
    requires forall k | lo <= k < hi :: f(k) == g(k)
    ensures Sum(lo, hi, f) == Sum(lo, hi, g)
    decreases hi - lo
  {
    if lo < hi { SumSame(lo, hi - 1, f, g); }
  }

  lemma {:induction false} SumAdd(lo: int, hi: int, f: int -> int, g: int -> int)
    ensures Sum(lo, hi, k => f(k) + g(k)) == Sum(lo, hi, f) + Sum(lo, hi, g)
    decreases hi - lo
  {
    if lo < hi { SumAdd(lo, hi - 1, f, g); }
  }

  lemma {:induction false} SumScale(lo: int, hi: int, f: int -> int, c: int)
    ensures Sum(lo, hi, k => f(k) * c) == Sum(lo, hi, f) * c
    decreases hi - lo
  {
    if lo < hi { SumScale(lo, hi - 1, f, c); }
  }

  lemma {:induction false} SumZero(lo: int, hi: int, f: int -> int)
    requires forall k | lo <= k < hi :: f(k) == 0
    ensures Sum(lo, hi, f) == 0
    decreases hi - lo
  {
    if lo < hi { SumZero(lo, hi - 1, f); }
  }

  /** The two sums of a double sum may be exchanged. */
  lemma {:induction false} SumExchange(lo: int, hi: int, lo': int, hi': int, f: (int, int) -> int)
    ensures Sum(lo, hi, i => Sum(lo', hi', k => f(i, k))) == Sum(lo', hi', k => Sum(lo, hi, i => f(i, k)))
    decreases hi - lo
  {
    if hi <= lo {
      SumZero(lo', hi', k => Sum(lo, hi, i => f(i, k)));
    } else {
      SumExchange(lo, hi - 1, lo', hi', f);
      var inner := k => Sum(lo, hi - 1, i => f(i, k));
      var last := k => f(hi - 1, k);
      SumAdd(lo', hi', inner, last);
      SumSame(lo', hi', k => Sum(lo, hi, i => f(i, k)), k => inner(k) + last(k));
    }
  }

  /** The inner product of two functions on an interval. */
  function Dot(lo: int, hi: int, f: int -> int, c: int -> int): int {
    Sum(lo, hi, k => f(k) * c(k))
  }

  /** The weighted double sum over a window `a` with separable weights. */
  function Double(lo: int, hi: int, a: (int, int) -> int, b: int -> int, c: int -> int): int {
    Sum(lo, hi, i => Sum(lo, hi, k => a(i, k) * (b(i) * c(k))))
  }

  lemma DotScale(lo: int, hi: int, f: int -> int, c: int -> int, s: int)
    ensures Dot(lo, hi, f, c) * s == Sum(lo, hi, k => f(k) * (s * c(k)))
  {
    var g := (k: int) => f(k) * c(k);
    var g' := (k: int) => f(k) * (s * c(k));
    SumScale(lo, hi, g, s);
    forall k ensures g(k) * s == g'(k) { Reorder(f(k), c(k), s); }
    SumSame(lo, hi, k => g(k) * s, g');
  }

  lemma Reorder(x: int, y: int, z: int)
    ensures x * y * z == x * (z * y)
  {}

  lemma DotSame(lo: int, hi: int, f: int -> int, g: int -> int, c: int -> int)
    requires forall k | lo <= k < hi :: f(k) == g(k)
    ensures Dot(lo, hi, f, c) == Dot(lo, hi, g, c)
  {
    SumSame(lo, hi, k => f(k) * c(k), k => g(k) * c(k));
  }

  lemma RowTerm(lo: int, hi: int, a: (int, int) -> int, b: int -> int, c: int -> int, i: int)
    ensures Dot(lo, hi, k => a(i, k), c) * b(i) == Sum(lo, hi, k => a(i, k) * (b(i) * c(k)))
  {
    var row := (k: int) => a(i, k);
    DotScale(lo, hi, row, c, b(i));
    SumSame(lo, hi, k => row(k) * (b(i) * c(k)), k => a(i, k) * (b(i) * c(k)));
  }

  lemma ColumnTerm(lo: int, hi: int, a: (int, int) -> int, b: int -> int, c: int -> int, k: int)
    ensures Dot(lo, hi, i => a(i, k), b) * c(k) == Sum(lo, hi, i => a(i, k) * (b(i) * c(k)))
  {
    var column := (i: int) => a(i, k);
    DotScale(lo, hi, column, b, c(k));
    forall i ensures column(i) * (c(k) * b(i)) == a(i, k) * (b(i) * c(k)) { Swap(b(i), c(k)); }
    SumSame(lo, hi, i => column(i) * (c(k) * b(i)), i => a(i, k) * (b(i) * c(k)));
  }

  lemma Swap(x: int, y: int)
    ensures x * y == y * x
  {}

  /** The weighted sums of the rows of a window, and of its columns. */
  function RowSums(lo: int, hi: int, a: (int, int) -> int, c: int -> int): int -> int {
    i => Dot(lo, hi, k => a(i, k), c)
  }

  function ColumnSums(lo: int, hi: int, a: (int, int) -> int, b: int -> int): int -> int {
    k => Dot(lo, hi, i => a(i, k), b)
  }

  /** Summing the rows first. */
  lemma DoubleByRows(lo: int, hi: int, a: (int, int) -> int, b: int -> int, c: int -> int)
    ensures Dot(lo, hi, RowSums(lo, hi, a, c), b) == Double(lo, hi, a, b, c)
  {
    var rows := RowSums(lo, hi, a, c);
    var f := (i: int) => rows(i) * b(i);
    var g := (i: int) => Sum(lo, hi, k => a(i, k) * (b(i) * c(k)));
    forall i ensures f(i) == g(i) { RowTerm(lo, hi, a, b, c, i); }
    SumSame(lo, hi, f, g);
  }

  lemma Exchanged(lo: int, hi: int, e: (int, int) -> int, f: int -> int, g: int -> int)
    requires forall i :: f(i) == Sum(lo, hi, k => e(i, k))
    requires forall k :: g(k) == Sum(lo, hi, i => e(i, k))
    ensures Sum(lo, hi, f) == Sum(lo, hi, g)
  {
    SumExchange(lo, hi, lo, hi, e);
    SumSame(lo, hi, f, i => Sum(lo, hi, k => e(i, k)));
    SumSame(lo, hi, g, k => Sum(lo, hi, i => e(i, k)));
  }

  /** Summing the columns first. */
  lemma DoubleByColumns(lo: int, hi: int, a: (int, int) -> int, b: int -> int, c: int -> int)
    ensures Dot(lo, hi, ColumnSums(lo, hi, a, b), c) == Double(lo, hi, a, b, c)
  {
    var e := (i: int, k: int) => a(i, k) * (b(i) * c(k));
    var columns := ColumnSums(lo, hi, a, b);
    var f := (i: int) => Sum(lo, hi, k => a(i, k) * (b(i) * c(k)));
    var g := (k: int) => columns(k) * c(k);
    forall k ensures g(k) == Sum(lo, hi, i => e(i, k)) {
      ColumnTerm(lo, hi, a, b, c, k);
      SumSame(lo, hi, i => a(i, k) * (b(i) * c(k)), i => e(i, k));
    }
    forall i ensures f(i) == Sum(lo, hi, k => e(i, k)) {
      SumSame(lo, hi, k => a(i, k) * (b(i) * c(k)), k => e(i, k));
    }
    Exchanged(lo, hi, e, f, g);
  }

  // ------------------------------------------------- convolution on unbounded planes

  /** An image seen with its zero boundary: a value for every pair of coordinates. */
  type Plane = (int, int) -> int

  function Clip(w: nat, h: nat, p: Plane): Plane {
    (y, x) => if 0 <= y < h && 0 <= x < w then p(y, x) else 0
  }

  ghost predicate ZeroOutside(w: nat, h: nat, p: Plane) {
    forall y, x | !(0 <= y < h && 0 <= x < w) :: p(y, x) == 0
  }

  /** What lies around a point along its row, along its column, and in both directions. */
  function RowSlice(p: Plane, y: int, x: int): int -> int { k => p(y, x + k) }

  function ColumnSlice(p: Plane, y: int, x: int): int -> int { i => p(y + i, x) }

  function Window(p: Plane, y: int, x: int): (int, int) -> int { (i, k) => p(y + i, x + k) }

  function RowConv(p: Plane, lo: int, hi: int, c: int -> int): Plane {
    (y, x) => Dot(lo, hi, RowSlice(p, y, x), c)
  }

  function ColumnConv(p: Plane, lo: int, hi: int, b: int -> int): Plane {
    (y, x) => Dot(lo, hi, ColumnSlice(p, y, x), b)
  }

  /** The two-dimensional convolution with the outer product of two kernels. */
  function DirectConv(p: Plane, lo: int, hi: int, b: int -> int, c: int -> int): Plane {
    (y, x) => Double(lo, hi, Window(p, y, x), b, c)
  }

  lemma DotZero(lo: int, hi: int, f: int -> int, c: int -> int)
    requires forall k :: f(k) == 0
    ensures Dot(lo, hi, f, c) == 0
  {
    SumZero(lo, hi, k => f(k) * c(k));
  }

  /** Rows outside the image convolve to zero, so clipping the rows of a row pass changes nothing. */
  lemma RowsClipped(w: nat, h: nat, p: Plane, lo: int, hi: int, c: int -> int, y: int, x: int, i: int)
    requires ZeroOutside(w, h, p) && 0 <= x < w
    ensures ColumnSlice(Clip(w, h, RowConv(p, lo, hi, c)), y, x)(i) == RowSums(lo, hi, Window(p, y, x), c)(i)
  {
    var f, g := RowSlice(p, y + i, x), (k: int) => Window(p, y, x)(i, k);
    forall k ensures f(k) == g(k) {
      assert f(k) == p(y + i, x + k);
      assert Window(p, y, x)(i, k) == p(y + i, x + k);
    }
    DotSame(lo, hi, f, g, c);
    if !(0 <= y + i < h) {
      assert forall k :: f(k) == 0;
      DotZero(lo, hi, f, c);
    }
  }

  lemma ColumnsClipped(w: nat, h: nat, p: Plane, lo: int, hi: int, b: int -> int, y: int, x: int, k: int)
    requires ZeroOutside(w, h, p) && 0 <= y < h
    ensures RowSlice(Clip(w, h, ColumnConv(p, lo, hi, b)), y, x)(k) == ColumnSums(lo, hi, Window(p, y, x), b)(k)
  {
    var f, g := ColumnSlice(p, y, x + k), (i: int) => Window(p, y, x)(i, k);
    forall i ensures f(i) == g(i) {
      assert f(i) == p(y + i, x + k);
      assert Window(p, y, x)(i, k) == p(y + i, x + k);
    }
    DotSame(lo, hi, f, g, b);
    if !(0 <= x + k < w) {
      assert forall i :: f(i) == 0;
      DotZero(lo, hi, f, b);
    }
  }

  lemma ColumnsOfRows(w: nat, h: nat, p: Plane, lo: int, hi: int, b: int -> int, c: int -> int, y: int, x: int)
    requires ZeroOutside(w, h, p) && 0 <= x < w
    ensures ColumnConv(Clip(w, h, RowConv(p, lo, hi, c)), lo, hi, b)(y, x) == DirectConv(p, lo, hi, b, c)(y, x)
  {
    var slice := ColumnSlice(Clip(w, h, RowConv(p, lo, hi, c)), y, x);
    var sums := RowSums(lo, hi, Window(p, y, x), c);
    forall i ensures slice(i) == sums(i) { RowsClipped(w, h, p, lo, hi, c, y, x, i); }
    DotSame(lo, hi, slice, sums, b);
    DoubleByRows(lo, hi, Window(p, y, x), b, c);
  }

  lemma RowsOfColumns(w: nat, h: nat, p: Plane, lo: int, hi: int, b: int -> int, c: int -> int, y: int, x: int)
    requires ZeroOutside(w, h, p) && 0 <= y < h
    ensures RowConv(Clip(w, h, ColumnConv(p, lo, hi, b)), lo, hi, c)(y, x) == DirectConv(p, lo, hi, b, c)(y, x)
  {
    var slice := RowSlice(Clip(w, h, ColumnConv(p, lo, hi, b)), y, x);
    var sums := ColumnSums(lo, hi, Window(p, y, x), b);
    forall k ensures slice(k) == sums(k) { ColumnsClipped(w, h, p, lo, hi, b, y, x, k); }
    DotSame(lo, hi, slice, sums, c);
    DoubleByColumns(lo, hi, Window(p, y, x), b, c);
  }

  // ------------------------------------------------- images

  /** A row-major image. */
  datatype Image = Image(w: nat, h: nat, pixels: seq<int>) {
    predicate Valid() { |pixels| == w * h }

    /** The pixel, or zero outside the image. */
    function At(y: int, x: int): int
      requires Valid()
    {
      if 0 <= y < h && 0 <= x < w then IndexInside(w, h, y, x); pixels[y * w + x] else 0
    }
  }

  /** The weight that both passes use for offset `k`. */
  function Weight(kernel: seq<int>, r: int, k: int): int {
    if 0 <= r - k < |kernel| then kernel[r - k] else 0
  }

  // ------------------------------------------------- the passes on images

  function Weights(kernel: seq<int>, r: int): int -> int {
    k => Weight(kernel, r, k)
  }

  function PlaneOf(img: Image): (p: Plane)
    requires img.Valid()
    ensures ZeroOutside(img.w, img.h, p)
  {
    (y, x) => img.At(y, x)
  }

  /** The image of a plane's values inside its bounds. */
  function Raster(w: nat, h: nat, p: Plane): (img: Image)
    ensures img.Valid() && img.w == w && img.h == h
  {
    Image(w, h, seq(w * h, i requires 0 <= i < w * h => if w == 0 then 0 else p(i / w, i % w)))
  }

  lemma RasterAt(w: nat, h: nat, p: Plane, y: int, x: int)
    ensures Raster(w, h, p).At(y, x) == Clip(w, h, p)(y, x)
  {
    if 0 <= y < h && 0 <= x < w {
      IndexInside(w, h, y, x);
      IndexUnique(w, y, x);
    }
  }

  lemma RasterSame(w: nat, h: nat, p: Plane, q: Plane)
    requires forall y, x | 0 <= y < h && 0 <= x < w :: p(y, x) == q(y, x)
    ensures Raster(w, h, p) == Raster(w, h, q)
  {
    forall i | 0 <= i < w * h ensures Raster(w, h, p).pixels[i] == Raster(w, h, q).pixels[i] {
      Coordinates(w, h, i);
    }
    assert Raster(w, h, p).pixels == Raster(w, h, q).pixels;
  }

  /** One-dimensional convolution of every row. */
  function RowPass(img: Image, kernel: seq<int>, r: int): Image
    requires img.Valid()
  {
    Raster(img.w, img.h, RowConv(PlaneOf(img), -r, r + 1, Weights(kernel, r)))
  }

  /** One-dimensional convolution of every column. */
  function ColumnPass(img: Image, kernel: seq<int>, r: int): Image
    requires img.Valid()
  {
    Raster(img.w, img.h, ColumnConv(PlaneOf(img), -r, r + 1, Weights(kernel, r)))
  }

  /** Direct two-dimensional convolution. */
  function Direct(img: Image, kx: seq<int>, ky: seq<int>, r: int): Image
    requires img.Valid()
  {
    Raster(img.w, img.h, DirectConv(PlaneOf(img), -r, r + 1, Weights(ky, r), Weights(kx, r)))
  }

  // ------------------------------------------------- separability

  function Value(p: Plane, y: int, x: int): int { p(y, x) }

  ghost predicate SamePlane(p: Plane, q: Plane) {
    forall y, x :: Value(p, y, x) == Value(q, y, x)
  }

  ghost predicate SameOn(w: nat, h: nat, p: Plane, q: Plane) {
    forall y, x | 0 <= y < h && 0 <= x < w :: Value(p, y, x) == Value(q, y, x)
  }

  lemma ColumnConvSame(p: Plane, q: Plane, lo: int, hi: int, b: int -> int, y: int, x: int)
    requires SamePlane(p, q)
    ensures ColumnConv(p, lo, hi, b)(y, x) == ColumnConv(q, lo, hi, b)(y, x)
  {
    var f, g := ColumnSlice(p, y, x), ColumnSlice(q, y, x);
    forall i ensures f(i) == g(i) { assert Value(p, y + i, x) == Value(q, y + i, x); }
    DotSame(lo, hi, f, g, b);
  }

  lemma RowConvSame(p: Plane, q: Plane, lo: int, hi: int, c: int -> int, y: int, x: int)
    requires SamePlane(p, q)
    ensures RowConv(p, lo, hi, c)(y, x) == RowConv(q, lo, hi, c)(y, x)
  {
    var f, g := RowSlice(p, y, x), RowSlice(q, y, x);
    forall k ensures f(k) == g(k) { assert Value(p, y, x + k) == Value(q, y, x + k); }
    DotSame(lo, hi, f, g, c);
  }

  /** A pass reads the previous pass's image as its clipped plane. */
  lemma PlaneOfRaster(img: Image, p: Plane)
    requires img == Raster(img.w, img.h, p) && img.Valid()
    ensures SamePlane(PlaneOf(img), Clip(img.w, img.h, p))
  {
    forall y, x ensures Value(PlaneOf(img), y, x) == Value(Clip(img.w, img.h, p), y, x) {
      RasterAt(img.w, img.h, p, y, x);
    }
  }

  lemma RowsThenColumns(w: nat, h: nat, p: Plane, rows: Plane, u: Plane, v: Plane,
                        lo: int, hi: int, b: int -> int, c: int -> int)
    requires ZeroOutside(w, h, p) && SamePlane(rows, Clip(w, h, RowConv(p, lo, hi, c)))
    requires u == ColumnConv(rows, lo, hi, b) && v == DirectConv(p, lo, hi, b, c)
    ensures SameOn(w, h, u, v)
  {
    forall y, x | 0 <= y < h && 0 <= x < w ensures Value(u, y, x) == Value(v, y, x) {
      RowsThenColumnsAt(w, h, p, rows, lo, hi, b, c, y, x);
    }
  }

  lemma RowsThenColumnsAt(w: nat, h: nat, p: Plane, rows: Plane, lo: int, hi: int, b: int -> int, c: int -> int,
                          y: int, x: int)
    requires ZeroOutside(w, h, p) && SamePlane(rows, Clip(w, h, RowConv(p, lo, hi, c))) && 0 <= y < h && 0 <= x < w
    ensures Value(ColumnConv(rows, lo, hi, b), y, x) == Value(DirectConv(p, lo, hi, b, c), y, x)
  {
    ColumnConvSame(rows, Clip(w, h, RowConv(p, lo, hi, c)), lo, hi, b, y, x);
    ColumnsOfRows(w, h, p, lo, hi, b, c, y, x);
  }

  lemma ColumnsThenRows(w: nat, h: nat, p: Plane, columns: Plane, u: Plane, v: Plane,
                        lo: int, hi: int, b: int -> int, c: int -> int)
    requires ZeroOutside(w, h, p) && SamePlane(columns, Clip(w, h, ColumnConv(p, lo, hi, b)))
    requires u == RowConv(columns, lo, hi, c) && v == DirectConv(p, lo, hi, b, c)
    ensures SameOn(w, h, u, v)
  {
    forall y, x | 0 <= y < h && 0 <= x < w ensures Value(u, y, x) == Value(v, y, x) {
      ColumnsThenRowsAt(w, h, p, columns, lo, hi, b, c, y, x);
    }
  }

  lemma ColumnsThenRowsAt(w: nat, h: nat, p: Plane, columns: Plane, lo: int, hi: int,
                          b: int -> int, c: int -> int, y: int, x: int)
    requires ZeroOutside(w, h, p) && SamePlane(columns, Clip(w, h, ColumnConv(p, lo, hi, b)))
    requires 0 <= y < h && 0 <= x < w
    ensures Value(RowConv(columns, lo, hi, c), y, x) == Value(DirectConv(p, lo, hi, b, c), y, x)
  {
    RowConvSame(columns, Clip(w, h, ColumnConv(p, lo, hi, b)), lo, hi, c, y, x);
    RowsOfColumns(w, h, p, lo, hi, b, c, y, x);
  }

  lemma PassesAre(img: Image, kx: seq<int>, ky: seq<int>, r: int)
    requires img.Valid()
    ensures RowPass(img, kx, r) == Raster(img.w, img.h, RowConv(PlaneOf(img), -r, r + 1, Weights(kx, r)))
    ensures ColumnPass(img, ky, r) == Raster(img.w, img.h, ColumnConv(PlaneOf(img), -r, r + 1, Weights(ky, r)))
    ensures Direct(img, kx, ky, r) ==
            Raster(img.w, img.h, DirectConv(PlaneOf(img), -r, r + 1, Weights(ky, r), Weights(kx, r)))
  {}

  lemma SameImage(w: nat, h: nat, p: Plane, q: Plane, a: Image, b: Image)
    requires a == Raster(w, h, p) && b == Raster(w, h, q) && SameOn(w, h, p, q)
    ensures a == b
  {
    forall y, x | 0 <= y < h && 0 <= x < w ensures p(y, x) == q(y, x) { assert Value(p, y, x) == Value(q, y, x); }
    RasterSame(w, h, p, q);
  }

  lemma ColumnAfterRow(img: Image, kx: seq<int>, ky: seq<int>, r: int)
    requires img.Valid()
    ensures ColumnPass(RowPass(img, kx, r), ky, r) == Direct(img, kx, ky, r)
  {
    var b, c, rows := Weights(ky, r), Weights(kx, r), RowPass(img, kx, r);
    var u, v := ColumnConv(PlaneOf(rows), -r, r + 1, b), DirectConv(PlaneOf(img), -r, r + 1, b, c);
    PassesAre(img, kx, ky, r);
    PassesAre(rows, kx, ky, r);
    PlaneOfRaster(rows, RowConv(PlaneOf(img), -r, r + 1, c));
    RowsThenColumns(img.w, img.h, PlaneOf(img), PlaneOf(rows), u, v, -r, r + 1, b, c);
    SameImage(img.w, img.h, u, v, ColumnPass(rows, ky, r), Direct(img, kx, ky, r));
  }

  lemma RowAfterColumn(img: Image, kx: seq<int>, ky: seq<int>, r: int)
    requires img.Valid()
    ensures RowPass(ColumnPass(img, ky, r), kx, r) == Direct(img, kx, ky, r)
  {
    var b, c, columns := Weights(ky, r), Weights(kx, r), ColumnPass(img, ky, r);
    var u, v := RowConv(PlaneOf(columns), -r, r + 1, c), DirectConv(PlaneOf(img), -r, r + 1, b, c);
    PassesAre(img, kx, ky, r);
    PassesAre(columns, kx, ky, r);
    PlaneOfRaster(columns, ColumnConv(PlaneOf(img), -r, r + 1, b));
    ColumnsThenRows(img.w, img.h, PlaneOf(img), PlaneOf(columns), u, v, -r, r + 1, b, c);
    SameImage(img.w, img.h, u, v, RowPass(columns, kx, r), Direct(img, kx, ky, r));
  }

  /** For every image, radius and pair of kernels: the column pass after the row pass is the direct
      two-dimensional convolution, and so is the row pass after the column pass. */
  lemma Separable(img: Image, kx: seq<int>, ky: seq<int>, r: int)
    requires img.Valid()
    ensures ColumnPass(RowPass(img, kx, r), ky, r) == Direct(img, kx, ky, r)
    ensures RowPass(ColumnPass(img, ky, r), kx, r) == ColumnPass(RowPass(img, kx, r), ky, r)
  {
    ColumnAfterRow(img, kx, ky, r);
    RowAfterColumn(img, kx, ky, r);
  }

  // ------------------------------------------------- the loops, with a rounding

  /** The variable `sum` of the inner loop when it is about to look at offset `k`: only taps inside the
      line count, and product and sum are rounded. */
  function Partial(line: int -> int, n: nat, pos: int, kernel: seq<int>, r: int, rnd: int -> int, k: int): int
    decreases k + r
  {
    if k <= -r then 0
    else
      var before := Partial(line, n, pos, kernel, r, rnd, k - 1);
      if 0 <= pos + k - 1 < n then rnd(before + rnd(line(pos + k - 1) * Weight(kernel, r, k - 1))) else before
  }

  function RowLine(img: Image, y: int): int -> int
    requires img.Valid()
  {
    d => img.At(y, d)
  }

  function ColumnLine(img: Image, x: int): int -> int
    requires img.Valid()
  {
    d => img.At(d, x)
  }

  /** The last partial sum of every pixel, along its row or along its column. */
  function RowPlane(img: Image, kernel: seq<int>, r: int, rnd: int -> int): Plane
    requires img.Valid()
  {
    (y, x) => Partial(RowLine(img, y), img.w, x, kernel, r, rnd, r + 1)
  }

  function ColumnPlane(img: Image, kernel: seq<int>, r: int, rnd: int -> int): Plane
    requires img.Valid()
  {
    (y, x) => Partial(ColumnLine(img, x), img.h, y, kernel, r, rnd, r + 1)
  }

  /** The row pass and the column pass of the program. */
  function RoundedRows(img: Image, kernel: seq<int>, r: int, rnd: int -> int): Image
    requires img.Valid()
  {
    Raster(img.w, img.h, RowPlane(img, kernel, r, rnd))
  }

  function RoundedColumns(img: Image, kernel: seq<int>, r: int, rnd: int -> int): Image
    requires img.Valid()
  {
    Raster(img.w, img.h, ColumnPlane(img, kernel, r, rnd))
  }

  lemma RasterPixel(w: nat, h: nat, p: Plane, y: int, x: int)
    requires 0 <= y < h && 0 <= x < w
    ensures 0 <= y * w + x < w * h && Raster(w, h, p).pixels[y * w + x] == p(y, x)
  {
    IndexInside(w, h, y, x);
    IndexUnique(w, y, x);
  }

  /** One round of the inner loop, over a row ... */
  lemma RowRound(img: Image, kernel: seq<int>, r: int, rnd: int -> int, y: int, x: int, k: int, start: int)
    requires start == y * img.w
    requires img.Valid() && 0 <= y < img.h && 0 <= x < img.w && -r <= k <= r && |kernel| >= 2 * r + 1
    ensures var before, after := Partial(RowLine(img, y), img.w, x, kernel, r, rnd, k),
                                 Partial(RowLine(img, y), img.w, x, kernel, r, rnd, k + 1);
            if 0 <= x + k < img.w
            then var at := start + (x + k);
                 0 <= at < |img.pixels| && after == rnd(before + rnd(img.pixels[at] * kernel[r - k]))
            else after == before
  {
    if 0 <= x + k < img.w { IndexInside(img.w, img.h, y, x + k); }
  }

  /** ... and over a column. */
  lemma ColumnRound(img: Image, kernel: seq<int>, r: int, rnd: int -> int, y: int, x: int, k: int, d: int)
    requires d == y + k
    requires img.Valid() && 0 <= y < img.h && 0 <= x < img.w && -r <= k <= r && |kernel| >= 2 * r + 1
    ensures var before, after := Partial(ColumnLine(img, x), img.h, y, kernel, r, rnd, k),
                                 Partial(ColumnLine(img, x), img.h, y, kernel, r, rnd, k + 1);
            if 0 <= d < img.h
            then var at := d * img.w + x;
                 0 <= at < |img.pixels| && after == rnd(before + rnd(img.pixels[at] * kernel[r - k]))
            else after == before
  {
    if 0 <= d < img.h { IndexInside(img.w, img.h, d, x); }
  }

  method RowSum(src: array<int>, kernel: array<int>, w: nat, r: int, rnd: int -> int, start: nat, x: nat,
                ghost img: Image, ghost y: nat)
    returns (sum: int)
    requires start == y * img.w
    requires img.Valid() && src[..] == img.pixels && w == img.w && y < img.h && x < w && kernel.Length >= 2 * r + 1
    ensures sum == Partial(RowLine(img, y), w, x, kernel[..], r, rnd, r + 1)
  {
    sum := 0;
    var k := -r;
    while k <= r
      invariant k == -r || -r < k <= r + 1
      invariant sum == Partial(RowLine(img, y), w, x, kernel[..], r, rnd, k)
      decreases r - k
    {
      var d := x + k;
      RowRound(img, kernel[..], r, rnd, y, x, k, start);
      if d >= 0 && d < w {
        sum := rnd(sum + rnd(src[start + d] * kernel[r - k]));
      }
      k := k + 1;
    }
  }

  method ColumnSum(src: array<int>, kernel: array<int>, w: nat, h: nat, r: int, rnd: int -> int, y: nat, x: nat,
                   ghost img: Image)
    returns (sum: int)
    requires img.Valid() && src[..] == img.pixels && w == img.w && h == img.h && y < h && x < w
    requires kernel.Length >= 2 * r + 1
    ensures sum == Partial(ColumnLine(img, x), h, y, kernel[..], r, rnd, r + 1)
  {
    sum := 0;
    var k := -r;
    while k <= r
      invariant k == -r || -r < k <= r + 1
      invariant sum == Partial(ColumnLine(img, x), h, y, kernel[..], r, rnd, k)
      decreases r - k
    {
      var d := y + k;
      ColumnRound(img, kernel[..], r, rnd, y, x, k, d);
      if d >= 0 && d < h {
        sum := rnd(sum + rnd(src[d * w + x] * kernel[r - k]));
      }
      k := k + 1;
    }
  }

  /** Row `y` of the pass, which begins at `start`, holds the sums of the inner loop. */
  ghost predicate IsRowPass(result: seq<int>, img: Image, weights: seq<int>, r: int, rnd: int -> int, y: nat,
                            start: int)
    requires img.Valid()
  {
    && 0 <= start <= start + img.w <= |result|
    && forall i | start <= i < start + img.w ::
         result[i] == Partial(RowLine(img, y), img.w, i - start, weights, r, rnd, r + 1)
  }

  lemma RowPixel(img: Image, weights: seq<int>, r: int, rnd: int -> int, y: nat, x: nat)
    requires img.Valid() && y < img.h && x < img.w
    ensures 0 <= y * img.w + x < |RoundedRows(img, weights, r, rnd).pixels|
    ensures RoundedRows(img, weights, r, rnd).pixels[y * img.w + x] ==
            Partial(RowLine(img, y), img.w, x, weights, r, rnd, r + 1)
  {
    RasterPixel(img.w, img.h, RowPlane(img, weights, r, rnd), y, x);
  }

  lemma RowPixels(img: Image, weights: seq<int>, r: int, rnd: int -> int, y: nat, start: int)
    requires img.Valid() && y < img.h && start == y * img.w
    ensures IsRowPass(RoundedRows(img, weights, r, rnd).pixels, img, weights, r, rnd, y, start)
  {
    Multiples(y, img.h, img.w);
    Multiples(0, y, img.w);
    RowEnd(y, img.w);
    var pixels := RoundedRows(img, weights, r, rnd).pixels;
    forall i | start <= i < start + img.w
      ensures 0 <= i < |pixels| && pixels[i] == Partial(RowLine(img, y), img.w, i - start, weights, r, rnd, r + 1)
    {
      RowPixel(img, weights, r, rnd, y, i - start);
    }
  }

  /** The inner loop over the pixels of row `y`. */
  method RowPassAt(dst: array<int>, src: array<int>, kernel: array<int>, w: nat, h: nat, r: int, rnd: int -> int,
                   y: nat, start: nat, ghost img: Image, ghost result: seq<int>)
    requires dst != src && dst != kernel && kernel.Length >= 2 * r + 1
    requires img.Valid() && src[..] == img.pixels && w == img.w && h == img.h && y < h
    requires start == y * w && IsRowPass(result, img, kernel[..], r, rnd, y, start) && |result| == dst.Length
    modifies dst
    ensures forall i | 0 <= i < |result| :: dst[i] == if start <= i < start + w then result[i] else old(dst[i])
  {
    for x := 0 to w
      invariant src[..] == img.pixels && kernel[..] == old(kernel[..])
      invariant forall i | 0 <= i < |result| :: dst[i] == if start <= i < start + x then result[i] else old(dst[i])
    {
      var sum := RowSum(src, kernel, w, r, rnd, start, x, img, y);
      assert result[start + x] == sum;
      dst[start + x] := sum;
    }
  }

  /** One row of the pass, which begins at `start`. */
  method RowPassRow(dst: array<int>, src: array<int>, kernel: array<int>, w: nat, h: nat, r: int, rnd: int -> int,
                    y: nat, start: nat, ghost img: Image, ghost result: seq<int>)
    requires dst != src && dst != kernel && kernel.Length >= 2 * r + 1
    requires img.Valid() && src[..] == img.pixels && w == img.w && h == img.h && y < h
    requires start == y * w && result == RoundedRows(img, kernel[..], r, rnd).pixels && |result| == dst.Length
    modifies dst
    ensures forall i | 0 <= i < |result| :: dst[i] == if start <= i < start + w then result[i] else old(dst[i])
    ensures start + w == (y + 1) * w <= |result|
  {
    RowPixels(img, kernel[..], r, rnd, y, start);
    RowPassAt(dst, src, kernel, w, h, r, rnd, y, start, img, result);
    RowEnd(y, w);
  }

  /** `convolutionRowCPU`. */
  method ConvolutionRow(dst: array<int>, src: array<int>, kernel: array<int>, w: nat, h: nat, r: int, rnd: int -> int)
    requires dst != src && dst != kernel
    requires src.Length == w * h && dst.Length == w * h && kernel.Length >= 2 * r + 1
    modifies dst
    ensures dst[..] == RoundedRows(Image(w, h, old(src[..])), kernel[..], r, rnd).pixels
  {
    ghost var img := Image(w, h, src[..]);
    ghost var result := RoundedRows(img, kernel[..], r, rnd).pixels;
    var start: nat := 0;
    for y := 0 to h
      invariant src[..] == old(src[..]) && kernel[..] == old(kernel[..]) && |result| == dst.Length
      invariant start == y * w && start <= |result| && forall i | 0 <= i < start :: dst[i] == result[i]
    {
      RowPassRow(dst, src, kernel, w, h, r, rnd, y, start, img, result);
      start := start + w;
    }
  }

  /** Row `y` of the pass, which begins at `start`, holds the sums of the inner loop. */
  ghost predicate IsColumnPass(result: seq<int>, img: Image, weights: seq<int>, r: int, rnd: int -> int, y: nat,
                               start: int)
    requires img.Valid()
  {
    && 0 <= start <= start + img.w <= |result|
    && forall i | start <= i < start + img.w ::
         result[i] == Partial(ColumnLine(img, i - start), img.h, y, weights, r, rnd, r + 1)
  }

  lemma ColumnPixel(img: Image, weights: seq<int>, r: int, rnd: int -> int, y: nat, x: nat)
    requires img.Valid() && y < img.h && x < img.w
    ensures 0 <= y * img.w + x < |RoundedColumns(img, weights, r, rnd).pixels|
    ensures RoundedColumns(img, weights, r, rnd).pixels[y * img.w + x] ==
            Partial(ColumnLine(img, x), img.h, y, weights, r, rnd, r + 1)
  {
    RasterPixel(img.w, img.h, ColumnPlane(img, weights, r, rnd), y, x);
  }

  lemma ColumnPixels(img: Image, weights: seq<int>, r: int, rnd: int -> int, y: nat, start: int)
    requires img.Valid() && y < img.h && start == y * img.w
    ensures IsColumnPass(RoundedColumns(img, weights, r, rnd).pixels, img, weights, r, rnd, y, start)
  {
    Multiples(y, img.h, img.w);
    Multiples(0, y, img.w);
    RowEnd(y, img.w);
    var pixels := RoundedColumns(img, weights, r, rnd).pixels;
    forall i | start <= i < start + img.w
      ensures 0 <= i < |pixels| && pixels[i] == Partial(ColumnLine(img, i - start), img.h, y, weights, r, rnd, r + 1)
    {
      ColumnPixel(img, weights, r, rnd, y, i - start);
    }
  }

  /** The inner loop over the pixels of row `y`. */
  method ColumnPassAt(dst: array<int>, src: array<int>, kernel: array<int>, w: nat, h: nat, r: int, rnd: int -> int,
                      y: nat, start: nat, ghost img: Image, ghost result: seq<int>)
    requires dst != src && dst != kernel && kernel.Length >= 2 * r + 1
    requires img.Valid() && src[..] == img.pixels && w == img.w && h == img.h && y < h
    requires IsColumnPass(result, img, kernel[..], r, rnd, y, start) && |result| == dst.Length
    modifies dst
    ensures forall i | 0 <= i < |result| :: dst[i] == if start <= i < start + w then result[i] else old(dst[i])
  {
    for x := 0 to w
      invariant src[..] == img.pixels && kernel[..] == old(kernel[..])
      invariant forall i | 0 <= i < |result| :: dst[i] == if start <= i < start + x then result[i] else old(dst[i])
    {
      var sum := ColumnSum(src, kernel, w, h, r, rnd, y, x, img);
      assert result[start + x] == sum;
      dst[start + x] := sum;
    }
  }

  /** One row of the pass, which begins at `start`. */
  method ColumnPassRow(dst: array<int>, src: array<int>, kernel: array<int>, w: nat, h: nat, r: int, rnd: int -> int,
                       y: nat, start: nat, ghost img: Image, ghost result: seq<int>)
    requires dst != src && dst != kernel && kernel.Length >= 2 * r + 1
    requires img.Valid() && src[..] == img.pixels && w == img.w && h == img.h && y < h
    requires start == y * w && result == RoundedColumns(img, kernel[..], r, rnd).pixels && |result| == dst.Length
    modifies dst
    ensures forall i | 0 <= i < |result| :: dst[i] == if start <= i < start + w then result[i] else old(dst[i])
    ensures start + w == (y + 1) * w <= |result|
  {
    ColumnPixels(img, kernel[..], r, rnd, y, start);
    ColumnPassAt(dst, src, kernel, w, h, r, rnd, y, start, img, result);
    RowEnd(y, w);
  }

  /** `convolutionColumnCPU`. */
  method ConvolutionColumn(dst: array<int>, src: array<int>, kernel: array<int>, w: nat, h: nat, r: int,
                           rnd: int -> int)
    requires dst != src && dst != kernel
    requires src.Length == w * h && dst.Length == w * h && kernel.Length >= 2 * r + 1
    modifies dst
    ensures dst[..] == RoundedColumns(Image(w, h, old(src[..])), kernel[..], r, rnd).pixels
  {
    ghost var img := Image(w, h, src[..]);
    ghost var result := RoundedColumns(img, kernel[..], r, rnd).pixels;
    var start: nat := 0;
    for y := 0 to h
      invariant src[..] == old(src[..]) && kernel[..] == old(kernel[..]) && |result| == dst.Length
      invariant start == y * w && start <= |result| && forall i | 0 <= i < start :: dst[i] == result[i]
    {
      ColumnPassRow(dst, src, kernel, w, h, r, rnd, y, start, img, result);
      start := start + w;
    }
  }

  // ------------------------------------------------- exact arithmetic

  function Exact(): int -> int { v => v }

  lemma DotStep(lo: int, k: int, f: int -> int, c: int -> int)
    requires lo < k
    ensures Dot(lo, k, f, c) == Dot(lo, k - 1, f, c) + f(k - 1) * c(k - 1)
  {}

  /** Without rounding, the inner loop's variable is the partial sum of the convolution. */
  lemma {:induction false} PartialIsDot(line: int -> int, n: nat, pos: int, kernel: seq<int>, r: int, k: int,
                                        f: int -> int, c: int -> int)
    requires forall d | !(0 <= d < n) :: line(d) == 0
    requires forall j :: f(j) == line(pos + j)
    requires forall j :: c(j) == Weight(kernel, r, j)
    ensures Partial(line, n, pos, kernel, r, Exact(), k) == Dot(-r, k, f, c)
    decreases k + r
  {
    if k > -r {
      PartialIsDot(line, n, pos, kernel, r, k - 1, f, c);
      DotStep(-r, k, f, c);
      assert f(k - 1) == line(pos + k - 1) && c(k - 1) == Weight(kernel, r, k - 1);
    }
  }

  /** In exact arithmetic the program's passes are the convolutions. */
  lemma ExactRows(img: Image, kernel: seq<int>, r: int)
    requires img.Valid()
    ensures RoundedRows(img, kernel, r, Exact()) == RowPass(img, kernel, r)
  {
    var p, q := RowPlane(img, kernel, r, Exact()),
                RowConv(PlaneOf(img), -r, r + 1, Weights(kernel, r));
    forall y, x | 0 <= y < img.h && 0 <= x < img.w ensures p(y, x) == q(y, x) {
      ExactRowsAt(img, kernel, r, y, x);
    }
    RasterSame(img.w, img.h, p, q);
  }

  lemma ExactRowsAt(img: Image, kernel: seq<int>, r: int, y: int, x: int)
    requires img.Valid() && 0 <= y < img.h && 0 <= x < img.w
    ensures Partial(RowLine(img, y), img.w, x, kernel, r, Exact(), r + 1) ==
            RowConv(PlaneOf(img), -r, r + 1, Weights(kernel, r))(y, x)
  {
    PartialIsDot(RowLine(img, y), img.w, x, kernel, r, r + 1, RowSlice(PlaneOf(img), y, x), Weights(kernel, r));
  }

  lemma ExactColumns(img: Image, kernel: seq<int>, r: int)
    requires img.Valid()
    ensures RoundedColumns(img, kernel, r, Exact()) == ColumnPass(img, kernel, r)
  {
    var p, q := ColumnPlane(img, kernel, r, Exact()),
                ColumnConv(PlaneOf(img), -r, r + 1, Weights(kernel, r));
    forall y, x | 0 <= y < img.h && 0 <= x < img.w ensures p(y, x) == q(y, x) {
      ExactColumnsAt(img, kernel, r, y, x);
    }
    RasterSame(img.w, img.h, p, q);
  }

  lemma ExactColumnsAt(img: Image, kernel: seq<int>, r: int, y: int, x: int)
    requires img.Valid() && 0 <= y < img.h && 0 <= x < img.w
    ensures Partial(ColumnLine(img, x), img.h, y, kernel, r, Exact(), r + 1) ==
            ColumnConv(PlaneOf(img), -r, r + 1, Weights(kernel, r))(y, x)
  {
    PartialIsDot(ColumnLine(img, x), img.h, y, kernel, r, r + 1, ColumnSlice(PlaneOf(img), y, x), Weights(kernel, r));
  }

  // ------------------------------------------------- binary32

  const MANTISSA: nat := 0x100_0000

  /** Rounding to binary32, for integers. */
  function Single(): int -> int { v => Rounding.Round(v, MANTISSA) }

  predicate Within(s: seq<int>, bound: int) {
    forall i | 0 <= i < |s| :: 0 <= s[i] <= bound
  }

  lemma ProductBound(x: int, y: int, a: int, b: int)
    requires 0 <= x <= a && 0 <= y <= b
    ensures 0 <= x * y <= a * b
  {
    assert x * y <= a * y <= a * b;
  }

  /** `m` times `c`, as a sum. */
  function Taps(m: nat, c: nat): nat { if m == 0 then 0 else Taps(m - 1, c) + c }

  lemma {:induction false} TapsIs(m: nat, c: nat)
    ensures Taps(m, c) == m * c
  {
    if m > 0 { TapsIs(m - 1, c); }
  }

  /** As long as the bound stays below 2^24, every partial sum is an integer that binary32 represents,
      so rounding never changes it. */
  lemma {:induction false} PartialSingle(line: int -> int, n: nat, pos: int, kernel: seq<int>, r: int, k: int,
                                         a: nat, b: nat, c: nat)
    requires forall d :: 0 <= line(d) <= a
    requires Within(kernel, b)
    requires -r <= k && Taps(k + r, c) < MANTISSA && c == a * b
    ensures 0 <= Partial(line, n, pos, kernel, r, Exact(), k) <= Taps(k + r, c)
    ensures Partial(line, n, pos, kernel, r, Single(), k) == Partial(line, n, pos, kernel, r, Exact(), k)
    decreases k + r
  {
    if k > -r {
      var product := line(pos + k - 1) * Weight(kernel, r, k - 1);
      var before := Partial(line, n, pos, kernel, r, Exact(), k - 1);
      ProductBound(line(pos + k - 1), Weight(kernel, r, k - 1), a, b);
      PartialSingle(line, n, pos, kernel, r, k - 1, a, b, c);
      Rounding.RoundExact(product, MANTISSA);
      Rounding.RoundExact(before + product, MANTISSA);
    }
  }

  lemma RasterWithin(w: nat, h: nat, p: Plane, bound: int)
    requires forall y, x | 0 <= y < h && 0 <= x < w :: 0 <= p(y, x) <= bound
    ensures Within(Raster(w, h, p).pixels, bound)
  {
    var img := Raster(w, h, p);
    forall i | 0 <= i < |img.pixels| ensures 0 <= img.pixels[i] <= bound {
      Coordinates(w, h, i);
    }
  }

  lemma LinesWithin(img: Image, a: int, y: int, x: int)
    requires img.Valid() && Within(img.pixels, a) && 0 <= a
    ensures 0 <= img.At(y, x) <= a
  {
    if 0 <= y < img.h && 0 <= x < img.w {
      IndexInside(img.w, img.h, y, x);
      assert img.At(y, x) == img.pixels[y * img.w + x];
    }
  }

  /** A pass in binary32 is exact when its largest possible sum stays below 2^24. */
  lemma SingleRows(img: Image, kernel: seq<int>, r: nat, a: nat, b: nat)
    requires img.Valid() && Within(img.pixels, a) && Within(kernel, b) && (2 * r + 1) * (a * b) < MANTISSA
    ensures RoundedRows(img, kernel, r, Single()) == RowPass(img, kernel, r)
    ensures Within(RowPass(img, kernel, r).pixels, (2 * r + 1) * (a * b))
  {
    var p := RowPlane(img, kernel, r, Single());
    var q := RowPlane(img, kernel, r, Exact());
    TapsIs(2 * r + 1, a * b);
    forall y, x | 0 <= y < img.h && 0 <= x < img.w
      ensures p(y, x) == q(y, x) && 0 <= q(y, x) <= (2 * r + 1) * (a * b)
    {
      forall d ensures 0 <= RowLine(img, y)(d) <= a { LinesWithin(img, a, y, d); }
      PartialSingle(RowLine(img, y), img.w, x, kernel, r, r + 1, a, b, a * b);
    }
    RasterSame(img.w, img.h, p, q);
    RasterWithin(img.w, img.h, q, (2 * r + 1) * (a * b));
    ExactRows(img, kernel, r);
  }

  lemma SingleColumns(img: Image, kernel: seq<int>, r: nat, a: nat, b: nat)
    requires img.Valid() && Within(img.pixels, a) && Within(kernel, b) && (2 * r + 1) * (a * b) < MANTISSA
    ensures RoundedColumns(img, kernel, r, Single()) == ColumnPass(img, kernel, r)
    ensures Within(ColumnPass(img, kernel, r).pixels, (2 * r + 1) * (a * b))
  {
    var p := ColumnPlane(img, kernel, r, Single());
    var q := ColumnPlane(img, kernel, r, Exact());
    TapsIs(2 * r + 1, a * b);
    forall y, x | 0 <= y < img.h && 0 <= x < img.w
      ensures p(y, x) == q(y, x) && 0 <= q(y, x) <= (2 * r + 1) * (a * b)
    {
      forall d ensures 0 <= ColumnLine(img, x)(d) <= a { LinesWithin(img, a, d, x); }
      PartialSingle(ColumnLine(img, x), img.h, y, kernel, r, r + 1, a, b, a * b);
    }
    RasterSame(img.w, img.h, p, q);
    RasterWithin(img.w, img.h, q, (2 * r + 1) * (a * b));
    ExactColumns(img, kernel, r);
  }

  /** On the inputs that the sample program generates - pixels and weights in 0..15, radius 8 - both
      passes are exact in binary32 for every image size: together they are the direct convolution, and
      no value exceeds 975375. */
  lemma SampleIsExact(img: Image, kernel: seq<int>)
    requires img.Valid() && Within(img.pixels, 15) && Within(kernel, 15)
    ensures var rows := RoundedRows(img, kernel, 8, Single());
            && Within(rows.pixels, 3825)
            && RoundedColumns(rows, kernel, 8, Single()) == Direct(img, kernel, kernel, 8)
            && Within(RoundedColumns(rows, kernel, 8, Single()).pixels, 975375)
  {
    SingleRows(img, kernel, 8, 15, 15);
    SingleColumns(RowPass(img, kernel, 8), kernel, 8, 3825, 15);
    Separable(img, kernel, kernel, 8);
  }

  /** Within a pass, every partial sum obeys the same bounds. */
  lemma SamplePartialSums(img: Image, kernel: seq<int>, y: int, x: int, k: int)
    requires img.Valid() && Within(img.pixels, 15) && Within(kernel, 15) && -8 <= k <= 9
    ensures 0 <= Partial(RowLine(img, y), img.w, x, kernel, 8, Single(), k) <= 3825
    ensures 0 <= Partial(ColumnLine(RowPass(img, kernel, 8), x), img.h, y, kernel, 8, Single(), k) <= 975375 < MANTISSA
  {
    var rows := RowPass(img, kernel, 8);
    SingleRows(img, kernel, 8, 15, 15);
    forall d ensures 0 <= RowLine(img, y)(d) <= 15 { LinesWithin(img, 15, y, d); }
    forall d ensures 0 <= ColumnLine(rows, x)(d) <= 3825 { LinesWithin(rows, 3825, d, x); }
    TapsIs((k + 8) as nat, 225);
    TapsIs((k + 8) as nat, 57375);
    PartialSingle(RowLine(img, y), img.w, x, kernel, 8, k, 15, 15, 225);
    PartialSingle(ColumnLine(rows, x), img.h, y, kernel, 8, k, 3825, 15, 57375);
  }
}
