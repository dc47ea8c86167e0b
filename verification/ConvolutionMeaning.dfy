/** What the two passes of 3rd_pkg_cases/cuda/convolutionSeparable/convolutionSeparable_gold.cpp do to an image:
    they are linear, and each spreads a single pixel as the kernel says. Together this fixes them on every image. */
module ConvolutionMeaning {
  import opened SeparableConvolution

  // ------------------------------------------------- a single pixel

  /** One at the given position, zero everywhere else. */
  ghost predicate IsImpulse(img: Image, y0: int, x0: int) {
    img.Valid() && forall y, x :: img.At(y, x) == if y == y0 && x == x0 then 1 else 0
  }

  lemma {:induction false} SumSingle(lo: int, hi: int, f: int -> int, at: int)
    requires forall k | lo <= k < hi && k != at :: f(k) == 0
    ensures Sum(lo, hi, f) == if lo <= at < hi then f(at) else 0
    decreases hi - lo
  {
    if lo < hi { SumSingle(lo, hi - 1, f, at); }
  }

  lemma DotSingle(lo: int, hi: int, f: int -> int, c: int -> int, at: int)
    requires forall k :: f(k) == if k == at then 1 else 0
    ensures Dot(lo, hi, f, c) == if lo <= at < hi then c(at) else 0
  {
    SumSingle(lo, hi, k => f(k) * c(k), at);
  }

  /** Where the kernel is centred at the pixel, `d` is the distance from it. */
  function Spread(kernel: seq<int>, r: int, d: int): int
    requires |kernel| == 2 * r + 1
  {
    if -r <= d <= r then kernel[r + d] else 0
  }

  lemma RowImpulse(img: Image, kernel: seq<int>, r: int, y0: int, x0: int, y: int, x: int)
    requires IsImpulse(img, y0, x0) && |kernel| == 2 * r + 1 && 0 <= y < img.h && 0 <= x < img.w
    ensures RowPass(img, kernel, r).At(y, x) == if y == y0 then Spread(kernel, r, x - x0) else 0
  {
    var p := PlaneOf(img);
    var f, c := RowSlice(p, y, x), Weights(kernel, r);
    RasterAt(img.w, img.h, RowConv(p, -r, r + 1, c), y, x);
    if y == y0 { DotSingle(-r, r + 1, f, c, x0 - x); } else { DotZero(-r, r + 1, f, c); }
  }

  lemma ColumnImpulse(img: Image, kernel: seq<int>, r: int, y0: int, x0: int, y: int, x: int)
    requires IsImpulse(img, y0, x0) && |kernel| == 2 * r + 1 && 0 <= y < img.h && 0 <= x < img.w
    ensures ColumnPass(img, kernel, r).At(y, x) == if x == x0 then Spread(kernel, r, y - y0) else 0
  {
    var p := PlaneOf(img);
    var f, c := ColumnSlice(p, y, x), Weights(kernel, r);
    RasterAt(img.w, img.h, ColumnConv(p, -r, r + 1, c), y, x);
    if x == x0 { DotSingle(-r, r + 1, f, c, y0 - y); } else { DotZero(-r, r + 1, f, c); }
  }

  // ------------------------------------------------- linear combinations

  /** Pixel by pixel, the first image plus `s` times the second. */
  ghost predicate IsCombined(img: Image, a: Image, b: Image, s: int) {
    && img.Valid() && a.Valid() && b.Valid() && img.w == a.w == b.w && img.h == a.h == b.h
    && forall y, x :: img.At(y, x) == a.At(y, x) + b.At(y, x) * s
  }

  lemma Distribute(a: int, b: int, s: int, c: int)
    ensures (a + b * s) * c == a * c + b * c * s
  {}

  lemma DotCombined(lo: int, hi: int, f: int -> int, g: int -> int, h: int -> int, s: int, c: int -> int)
    requires forall k :: f(k) == g(k) + h(k) * s
    ensures Dot(lo, hi, f, c) == Dot(lo, hi, g, c) + Dot(lo, hi, h, c) * s
  {
    var gc, hc := (k: int) => g(k) * c(k), (k: int) => h(k) * c(k);
    var hs := k => hc(k) * s;
    SumScale(lo, hi, hc, s);
    SumAdd(lo, hi, gc, hs);
    assert forall k :: f(k) * c(k) == gc(k) + hs(k) by {
      forall k ensures f(k) * c(k) == gc(k) + hs(k) { Distribute(g(k), h(k), s, c(k)); }
    }
    SumSame(lo, hi, k => f(k) * c(k), k => gc(k) + hs(k));
  }

  lemma RowAt(img: Image, kernel: seq<int>, r: int, y: int, x: int)
    requires img.Valid() && 0 <= y < img.h && 0 <= x < img.w
    ensures RowPass(img, kernel, r).At(y, x) == Dot(-r, r + 1, RowSlice(PlaneOf(img), y, x), Weights(kernel, r))
  {
    RasterAt(img.w, img.h, RowConv(PlaneOf(img), -r, r + 1, Weights(kernel, r)), y, x);
  }

  lemma ColumnAt(img: Image, kernel: seq<int>, r: int, y: int, x: int)
    requires img.Valid() && 0 <= y < img.h && 0 <= x < img.w
    ensures ColumnPass(img, kernel, r).At(y, x) == Dot(-r, r + 1, ColumnSlice(PlaneOf(img), y, x), Weights(kernel, r))
  {
    RasterAt(img.w, img.h, ColumnConv(PlaneOf(img), -r, r + 1, Weights(kernel, r)), y, x);
  }

  lemma RowLinear(img: Image, a: Image, b: Image, s: int, kernel: seq<int>, r: int)
    requires IsCombined(img, a, b, s)
    ensures IsCombined(RowPass(img, kernel, r), RowPass(a, kernel, r), RowPass(b, kernel, r), s)
  {
    forall y, x ensures RowPass(img, kernel, r).At(y, x) ==
                        RowPass(a, kernel, r).At(y, x) + RowPass(b, kernel, r).At(y, x) * s {
      if 0 <= y < img.h && 0 <= x < img.w {
        RowAt(img, kernel, r, y, x);
        RowAt(a, kernel, r, y, x);
        RowAt(b, kernel, r, y, x);
        var f, g, h := RowSlice(PlaneOf(img), y, x), RowSlice(PlaneOf(a), y, x), RowSlice(PlaneOf(b), y, x);
        DotCombined(-r, r + 1, f, g, h, s, Weights(kernel, r));
      }
    }
  }

  lemma ColumnLinear(img: Image, a: Image, b: Image, s: int, kernel: seq<int>, r: int)
    requires IsCombined(img, a, b, s)
    ensures IsCombined(ColumnPass(img, kernel, r), ColumnPass(a, kernel, r), ColumnPass(b, kernel, r), s)
  {
    forall y, x ensures ColumnPass(img, kernel, r).At(y, x) ==
                        ColumnPass(a, kernel, r).At(y, x) + ColumnPass(b, kernel, r).At(y, x) * s {
      if 0 <= y < img.h && 0 <= x < img.w {
        ColumnAt(img, kernel, r, y, x);
        ColumnAt(a, kernel, r, y, x);
        ColumnAt(b, kernel, r, y, x);
        var f, g, h := ColumnSlice(PlaneOf(img), y, x), ColumnSlice(PlaneOf(a), y, x), ColumnSlice(PlaneOf(b), y, x);
        DotCombined(-r, r + 1, f, g, h, s, Weights(kernel, r));
      }
    }
  }
}
