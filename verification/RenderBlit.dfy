/** bsp/bsp_egl/RenderEGL.cpp: `blitBuffer`, a row-wise copy clipped to source and framebuffer,
    and the pixel-by-pixel copy that it amounts to. */
module RenderBlit {
  import opened RowMajor

  type u32 = x: int | 0 <= x < 0x1_0000_0000
  type i32 = x: int | -0x8000_0000 <= x < 0x8000_0000

  /** Unsigned arithmetic wraps around; signed results are checked to be in range by their type. */
  function Add(a: int, b: int): u32 { (a + b) % 0x1_0000_0000 }

  function Mul(a: int, b: int): u32 { (a * b) % 0x1_0000_0000 }

  /** `static_cast<int>` of a `uint32_t`. */
  function ToInt(a: u32): i32 { if a < 0x8000_0000 then a else a - 0x1_0000_0000 }

  function Min(a: int, b: int): int { if a < b then a else b }

  function Max(a: int, b: int): int { if a < b then b else a }

  /** The arguments of a call. */
  datatype Blit = Blit(srcWidth: u32, srcHeight: u32, dstX: i32, dstY: i32, srcX: u32, srcY: u32,
                       copyWidth: u32, copyHeight: u32)
  {
    /** A zero extent asks for the whole source. */
    function Width(): u32 { if copyWidth == 0 then srcWidth else copyWidth }

    function Height(): u32 { if copyHeight == 0 then srcHeight else copyHeight }

    /** The extent that is left inside the source. */
    function ClippedWidth(): int { Min(Width(), srcWidth - srcX) }

    function ClippedHeight(): int { Min(Height(), srcHeight - srcY) }

    /** The unsigned sum of position and extent wraps around, so that the extent is not clipped. */
    predicate WrapsX() { srcX + Width() >= 0x1_0000_0000 }

    predicate WrapsY() { srcY + Height() >= 0x1_0000_0000 }

    /** The extent that the code works with. */
    function CodeWidth(): int { if WrapsX() then Width() else ClippedWidth() }

    function CodeHeight(): int { if WrapsY() then Height() else ClippedHeight() }

    /** An extent turns negative when it is cast to `int`. */
    predicate Lost() { CodeWidth() >= 0x8000_0000 || CodeHeight() >= 0x8000_0000 }

    /** Where the copy ends in a framebuffer. */
    function EndX(width: u32): int
      requires srcX < srcWidth
    {
      Min(ToInt(width), dstX + ToInt(CodeWidth()))
    }

    function EndY(height: u32): int
      requires srcY < srcHeight
    {
      Min(ToInt(height), dstY + ToInt(CodeHeight()))
    }

    /** The signed sums fit `int`, and the columns and rows that are copied, if any, lie inside the source. */
    predicate SumsFit(width: u32, height: u32)
      requires srcX < srcWidth && srcY < srcHeight
    {
      && -0x8000_0000 <= dstX + ToInt(CodeWidth()) < 0x8000_0000
      && -0x8000_0000 <= dstY + ToInt(CodeHeight()) < 0x8000_0000
      && (Max(0, dstX) < EndX(width) && Max(0, dstY) < EndY(height) ==>
            srcX + (EndX(width) - dstX) <= srcWidth && srcY + (EndY(height) - dstY) <= srcHeight)
    }

    /** Does the destination pixel (row, column) get a source pixel? */
    predicate Covers(row: int, column: int) {
      && srcX <= column - dstX + srcX < Min(srcX + Width(), srcWidth)
      && srcY <= row - dstY + srcY < Min(srcY + Height(), srcHeight)
    }

    /** The position of that source pixel. */
    function SourceIndex(row: int, column: int): int {
      (row - dstY + srcY) * srcWidth + (column - dstX + srcX)
    }
  }

  /** The specification: every destination pixel whose source lies in the clipped source rectangle gets
      it, every other pixel stays. */
  ghost predicate IsBlitted(before: seq<u32>, after: seq<u32>, width: nat, height: nat, src: seq<u32>, b: Blit) {
    && |before| == |after| == width * height && |src| == b.srcWidth * b.srcHeight
    && forall i | 0 <= i < |after| ::
         && width > 0
         && (b.Covers(i / width, i % width) ==>
               0 <= b.SourceIndex(i / width, i % width) < |src|
               && after[i] == src[b.SourceIndex(i / width, i % width)])
         && (!b.Covers(i / width, i % width) ==> after[i] == before[i])
  }

  /** The index arithmetic of the loop does not wrap around. */
  lemma IndexFits(w: nat, h: nat, row: int, column: int)
    requires 0 <= row < h && 0 <= column < w && w * h <= 0x1_0000_0000
    ensures 0 <= row * w + column < w * h && Add(Mul(row, w), column) == row * w + column
  {
    IndexInside(w, h, row, column);
    IndexInside(w, h, row, 0);
  }

  /** At most one turn is lost. */
  lemma AddWraps(a: u32, b: u32)
    ensures Add(a, b) == if a + b < 0x1_0000_0000 then a + b else a + b - 0x1_0000_0000
  {}

  lemma AddFits(a: int, b: int)
    requires 0 <= a + b < 0x1_0000_0000
    ensures Add(a, b) == a + b
  {}

  /** What `blitBuffer` makes of the framebuffer: nothing where an extent is lost, else what is specified. */
  ghost predicate Outcome(before: seq<u32>, after: seq<u32>, width: nat, height: nat, src: seq<u32>, b: Blit) {
    if b.srcX < b.srcWidth && b.srcY < b.srcHeight && b.Lost() then after == before
    else IsBlitted(before, after, width, height, src, b)
  }

  /** The call with its zero extents written out, as the default arguments ask for the whole source. */
  function Spelled(b: Blit): Blit {
    var wide := if b.copyWidth == 0 then b.(copyWidth := b.srcWidth) else b;
    if wide.copyHeight == 0 then wide.(copyHeight := b.srcHeight) else wide
  }

  /** A zero extent has the outcome of the full extent. */
  lemma ZeroExtent(before: seq<u32>, after: seq<u32>, width: nat, height: nat, src: seq<u32>, b: Blit)
    ensures Outcome(before, after, width, height, src, b) <==> Outcome(before, after, width, height, src, Spelled(b))
  {
    var c := Spelled(b);
    assert b.Width() == c.Width() && b.Height() == c.Height();
    assert b.Lost() <==> c.Lost();
    forall row, column
      ensures b.Covers(row, column) <==> c.Covers(row, column)
      ensures b.SourceIndex(row, column) == c.SourceIndex(row, column)
    {}
  }

  /** Is the pixel `dy` rows below and `dx` columns right of the given position one that the call asks for, and
      inside the source? */
  predicate AsksFor(b: Blit, dy: int, dx: int) {
    && 0 <= dy < (if b.copyHeight == 0 then b.srcHeight else b.copyHeight) && b.srcY + dy < b.srcHeight
    && 0 <= dx < (if b.copyWidth == 0 then b.srcWidth else b.copyWidth) && b.srcX + dx < b.srcWidth
  }

  lemma CoversExact(b: Blit, row: int, column: int)
    ensures b.Covers(row, column) <==> AsksFor(b, row - b.dstY, column - b.dstX)
  {}

  /** Pixel by pixel: what the call asks for, and lies inside source and framebuffer, is copied; every other
      pixel of the framebuffer stays. */
  lemma BlitPixels(before: seq<u32>, after: seq<u32>, width: nat, height: nat, src: seq<u32>, b: Blit,
                   row: int, column: int)
    requires IsBlitted(before, after, width, height, src, b) && 0 <= row < height && 0 <= column < width
    ensures 0 <= row * width + column < width * height
    ensures var dy, dx := row - b.dstY, column - b.dstX;
            if AsksFor(b, dy, dx)
            then 0 <= (b.srcY + dy) * b.srcWidth + (b.srcX + dx) < |src|
                 && after[row * width + column] == src[(b.srcY + dy) * b.srcWidth + (b.srcX + dx)]
            else after[row * width + column] == before[row * width + column]
  {
    IndexInside(width, height, row, column);
    IndexUnique(width, row, column);
    CoversExact(b, row, column);
    var i := row * width + column;
    assert i / width == row && i % width == column;
    assert b.SourceIndex(row, column) == (b.srcY + (row - b.dstY)) * b.srcWidth + (b.srcX + (column - b.dstX));
  }

  /** Some pixel of the framebuffer should be copied. */
  predicate CoversAny(b: Blit, width: nat, height: nat) {
    exists row, column | 0 <= row < height && 0 <= column < width :: b.Covers(row, column)
  }

  predicate Fitting(fb: seq<u32>, width: nat, height: nat, src: seq<u32>, b: Blit) {
    |fb| == width * height && |src| == b.srcWidth * b.srcHeight
  }

  lemma SourceInside(b: Blit, row: int, column: int)
    requires b.Covers(row, column)
    ensures 0 <= b.SourceIndex(row, column) < b.srcWidth * b.srcHeight
  {
    IndexInside(b.srcWidth, b.srcHeight, row - b.dstY + b.srcY, column - b.dstX + b.srcX);
  }

  /** A framebuffer that stays as it is although a covered pixel differs from its source. */
  lemma NotBlitted(fb: seq<u32>, width: nat, height: nat, src: seq<u32>, b: Blit, row: nat, column: nat)
    requires Fitting(fb, width, height, src, b) && row < height && column < width && b.Covers(row, column)
    requires forall i | 0 <= i < |fb| :: fb[i] == 0
    requires forall i | 0 <= i < |src| :: src[i] == 1
    ensures !IsBlitted(fb, fb, width, height, src, b)
  {
    IndexInside(width, height, row, column);
    IndexUnique(width, row, column);
    SourceInside(b, row, column);
    assert fb[row * width + column] == 0;
  }

  /** A framebuffer of which nothing is covered may stay as it is. */
  lemma StaysBlitted(fb: seq<u32>, width: nat, height: nat, src: seq<u32>, b: Blit)
    requires Fitting(fb, width, height, src, b) && !CoversAny(b, width, height)
    ensures IsBlitted(fb, fb, width, height, src, b)
  {
    forall i | 0 <= i < |fb| ensures width > 0 && !b.Covers(i / width, i % width) {
      Coordinates(width, height, i);
    }
  }

  lemma WrongContent(b: Blit, width: nat, height: nat) returns (fb: seq<u32>, src: seq<u32>)
    requires CoversAny(b, width, height)
    ensures Fitting(fb, width, height, src, b) && !IsBlitted(fb, fb, width, height, src, b)
  {
    var row, column :| 0 <= row < height && 0 <= column < width && b.Covers(row, column);
    fb, src := Constant(width, height, 0), Constant(b.srcWidth, b.srcHeight, 1);
    NotBlitted(fb, width, height, src, b, row, column);
  }

  function Constant(width: nat, height: nat, pixel: u32): (r: seq<u32>)
    ensures |r| == width * height && forall i | 0 <= i < |r| :: r[i] == pixel
  {
    seq(width * height, _ => pixel)
  }

  /** Where an extent is lost, the result is wrong for some content if and only if a pixel should be copied. */
  lemma LostExact(b: Blit, width: nat, height: nat)
    requires b.srcX < b.srcWidth && b.srcY < b.srcHeight && b.Lost()
    ensures CoversAny(b, width, height) <==>
            exists fb, src :: Fitting(fb, width, height, src, b) && !IsBlitted(fb, fb, width, height, src, b)
  {
    if CoversAny(b, width, height) {
      var fb, src := WrongContent(b, width, height);
    } else {
      forall fb, src | Fitting(fb, width, height, src, b) ensures IsBlitted(fb, fb, width, height, src, b) {
        StaysBlitted(fb, width, height, src, b);
      }
    }
  }

  /** The outcome is what is specified, for every content of both buffers. */
  ghost predicate AlwaysBlits(b: Blit, width: nat, height: nat) {
    forall fb, after, src | Fitting(fb, width, height, src, b) && Outcome(fb, after, width, height, src, b) ::
      IsBlitted(fb, after, width, height, src, b)
  }

  /** The exact condition: a call does what is specified for every content if and only if its position is
      outside the source, no extent is lost, or no pixel of the framebuffer should be copied. */
  lemma BlitExact(b: Blit, width: nat, height: nat)
    ensures AlwaysBlits(b, width, height) <==>
            b.srcX >= b.srcWidth || b.srcY >= b.srcHeight || !b.Lost() || !CoversAny(b, width, height)
  {
    if b.srcX < b.srcWidth && b.srcY < b.srcHeight && b.Lost() {
      LostExact(b, width, height);
      if CoversAny(b, width, height) {
        var fb, src :| Fitting(fb, width, height, src, b) && !IsBlitted(fb, fb, width, height, src, b);
        assert Outcome(fb, fb, width, height, src, b);
      }
    }
  }

  /** A call that loses its extent, for the rest of a row is asked for with the largest number there is: its
      one pixel should be copied, and is not. */
  lemma LostPixel() returns (b: Blit)
    ensures b == Blit(2, 1, 0, 0, 1, 0, 0xFFFF_FFFF, 0) && b.SumsFit(1, 1) && !AlwaysBlits(b, 1, 1)
  {
    b := Blit(2, 1, 0, 0, 1, 0, 0xFFFF_FFFF, 0);
    assert b.Covers(0, 0);
    BlitExact(b, 1, 1);
  }

  class RenderEGL {
    const width: u32
    const height: u32
    var framebuffer: array<u32>
    var initialized: bool

    /** Dimensions fit `int`, and the framebuffer was allocated for them. */
    ghost predicate Valid()
      reads this
    {
      && width < 0x8000_0000 && height < 0x8000_0000
      && framebuffer.Length == width * height < 0x1_0000_0000
    }

    constructor (w: u32, h: u32, background: u32)
      requires w < 0x8000_0000 && h < 0x8000_0000 && w * h < 0x1_0000_0000
      ensures Valid() && width == w && height == h && initialized && fresh(framebuffer)
    {
      width, height, initialized := w, h, true;
      assert w * h >= 0;
      framebuffer := new u32[w * h](_ => background);
    }

    /** `std::memcpy` of `n` pixels. */
    method CopyRow(dst: nat, src: array<u32>, from: nat, n: nat)
      requires src != framebuffer && dst + n <= framebuffer.Length && from + n <= src.Length
      modifies framebuffer
      ensures forall i | 0 <= i < framebuffer.Length ::
                framebuffer[i] == if dst <= i < dst + n then src[from + (i - dst)] else old(framebuffer[i])
    {
      forall i | dst <= i < dst + n {
        framebuffer[i] := src[from + (i - dst)];
      }
    }

    /** `blitBuffer`. Without a source or before initialisation nothing happens, nor where an extent is lost. */
    method BlitBuffer(src: array?<u32>, b: Blit)
      requires Valid()
      requires src != null ==> src != framebuffer && src.Length == b.srcWidth * b.srcHeight <= 0x1_0000_0000
      requires src != null && b.srcX < b.srcWidth && b.srcY < b.srcHeight ==> b.SumsFit(width, height)
      modifies framebuffer
      ensures Valid() && framebuffer == old(framebuffer)
      ensures src == null || !initialized ==> framebuffer[..] == old(framebuffer[..])
      ensures src != null && initialized ==>
                Outcome(old(framebuffer[..]), framebuffer[..], width, height, old(src[..]), b)
    {
      if src == null || !initialized {
        return;
      }
      var copyWidth, copyHeight := b.copyWidth, b.copyHeight;
      if copyWidth == 0 { copyWidth := b.srcWidth; }
      if copyHeight == 0 { copyHeight := b.srcHeight; }
      if b.srcX >= b.srcWidth || b.srcY >= b.srcHeight {
        StaysBlitted(framebuffer[..], width, height, src[..], b);
        return;
      }
      AddWraps(b.srcX, copyWidth);
      AddWraps(b.srcY, copyHeight);
      if Add(b.srcX, copyWidth) > b.srcWidth { copyWidth := b.srcWidth - b.srcX; }
      if Add(b.srcY, copyHeight) > b.srcHeight { copyHeight := b.srcHeight - b.srcY; }
      assert copyWidth == b.CodeWidth() && copyHeight == b.CodeHeight();
      var startX: i32 := Max(0, b.dstX);
      var startY: i32 := Max(0, b.dstY);
      var endX: i32 := Min(ToInt(width), b.dstX + ToInt(copyWidth));
      var endY: i32 := Min(ToInt(height), b.dstY + ToInt(copyHeight));
      if startX >= endX || startY >= endY {
        if !b.Lost() { NothingCovered(b, startX, startY, endX, endY, framebuffer[..], src[..]); }
        return;
      }
      ClippedRectangle(b, startX, startY, endX, endY);
      var actualWidth: i32 := endX - startX;
      var actualHeight: i32 := endY - startY;
      AddFits(b.srcX, startX - b.dstX);
      AddFits(b.srcY, startY - b.dstY);
      var offsetX := Add(b.srcX, startX - b.dstX);
      var offsetY := Add(b.srcY, startY - b.dstY);
      CopyRows(src, b, startX, startY, actualWidth, actualHeight, offsetX, offsetY);
    }

    ghost predicate InRectangle(row: int, column: int, startX: int, startY: int, endX: int, endY: int) {
      startY <= row < endY && startX <= column < endX
    }

    /** Clipping source and target separately yields exactly the covered pixels of the framebuffer. */
    lemma ClippedRectangle(b: Blit, startX: int, startY: int, endX: int, endY: int)
      requires b.srcX < b.srcWidth && b.srcY < b.srcHeight && !b.Lost() && width < 0x8000_0000 && height < 0x8000_0000
      requires startX == Max(0, b.dstX) < endX == b.EndX(width) && startY == Max(0, b.dstY) < endY == b.EndY(height)
      requires b.SumsFit(width, height)
      ensures forall row, column | 0 <= row < height && 0 <= column < width ::
                b.Covers(row, column) <==> InRectangle(row, column, startX, startY, endX, endY)
    {}

    /** If it leaves nothing, nothing is covered. */
    lemma NothingCovered(b: Blit, startX: int, startY: int, endX: int, endY: int, fb: seq<u32>, src: seq<u32>)
      requires b.srcX < b.srcWidth && b.srcY < b.srcHeight && !b.Lost() && width < 0x8000_0000 && height < 0x8000_0000
      requires startX == Max(0, b.dstX) && endX == b.EndX(width) && startY == Max(0, b.dstY) && endY == b.EndY(height)
      requires startX >= endX || startY >= endY
      requires Fitting(fb, width, height, src, b)
      ensures IsBlitted(fb, fb, width, height, src, b)
    {
      StaysBlitted(fb, width, height, src, b);
    }

    /** What the rows copied so far have made of the framebuffer. */
    ghost predicate RowsCopied(before: seq<u32>, src: seq<u32>, b: Blit, startX: nat, startY: nat, endX: nat, endY: nat)
      reads this, framebuffer
    {
      && |before| == framebuffer.Length && width > 0
      && forall i | 0 <= i < framebuffer.Length ::
           if InRectangle(i / width, i % width, startX, startY, endX, endY)
           then 0 <= b.SourceIndex(i / width, i % width) < |src|
                && framebuffer[i] == src[b.SourceIndex(i / width, i % width)]
           else framebuffer[i] == before[i]
    }

    /** Another row adds a stretch of the framebuffer to the rectangle, and one of the source to its image. */
    lemma RowPixel(b: Blit, startX: nat, startY: nat, n: nat, row: nat, i: nat)
      requires width > 0 && startX + n <= width && startY <= row
      ensures var to := row * width + startX;
              && (to <= i < to + n <==> i / width == row && startX <= i % width < startX + n)
              && (InRectangle(i / width, i % width, startX, startY, startX + n, row + 1) <==>
                  InRectangle(i / width, i % width, startX, startY, startX + n, row) || to <= i < to + n)
              && (to <= i < to + n ==>
                    && !InRectangle(i / width, i % width, startX, startY, startX + n, row)
                    && b.SourceIndex(i / width, i % width) == b.SourceIndex(row, startX) + (i - to))
    {
      RowSpan(width, row, startX, startX + n, i);
      if i / width == row { assert i == row * width + i % width; }
    }

    method CopyOneRow(src: array<u32>, b: Blit, startX: nat, startY: nat, n: nat, row: nat, to: nat, from: nat,
                      ghost before: seq<u32>)
      requires Valid() && src != framebuffer && startY <= row < height && startX + n <= width && 0 < width
      requires RowsCopied(before, src[..], b, startX, startY, startX + n, row)
      requires to == row * width + startX && from == b.SourceIndex(row, startX) && from + n <= src.Length
      modifies framebuffer
      ensures RowsCopied(before, src[..], b, startX, startY, startX + n, row + 1)
    {
      IndexInside(width, height, row, 0);
      RowEnd(row, width);
      CopyRow(to, src, from, n);
      forall i | 0 <= i < framebuffer.Length
        ensures if InRectangle(i / width, i % width, startX, startY, startX + n, row + 1)
                then 0 <= b.SourceIndex(i / width, i % width) < |src[..]|
                     && framebuffer[i] == src[b.SourceIndex(i / width, i % width)]
                else framebuffer[i] == before[i]
      {
        RowPixel(b, startX, startY, n, row, i);
      }
    }

    /** The loop over the rows of the clipped rectangle. */
    method CopyRows(src: array<u32>, b: Blit, startX: i32, startY: i32, actualWidth: i32, actualHeight: i32,
                    offsetX: u32, offsetY: u32)
      requires Valid() && src != framebuffer && src.Length == b.srcWidth * b.srcHeight <= 0x1_0000_0000
      requires 0 <= startX && 0 <= startY && 0 < actualWidth && 0 < actualHeight
      requires startX + actualWidth <= width && startY + actualHeight <= height
      requires offsetX == startX - b.dstX + b.srcX && offsetY == startY - b.dstY + b.srcY
      requires offsetX + actualWidth <= b.srcWidth && offsetY + actualHeight <= b.srcHeight
      requires forall row, column | 0 <= row < height && 0 <= column < width ::
                 b.Covers(row, column) <==>
                 InRectangle(row, column, startX, startY, startX + actualWidth, startY + actualHeight)
      modifies framebuffer
      ensures IsBlitted(old(framebuffer[..]), framebuffer[..], width, height, old(src[..]), b)
    {
      ghost var before := framebuffer[..];
      for y := 0 to actualHeight
        invariant RowsCopied(before, src[..], b, startX, startY, startX + actualWidth, startY + y)
        invariant src[..] == old(src[..])
      {
        IndexFits(width, height, startY + y, startX);
        IndexFits(b.srcWidth, b.srcHeight, offsetY + y, offsetX);
        IndexFits(b.srcWidth, b.srcHeight, offsetY + y, offsetX + actualWidth - 1);
        var to := Add(Mul(startY + y, width), startX);
        var from := Add(Mul(offsetY + y, b.srcWidth), offsetX);
        CopyOneRow(src, b, startX, startY, actualWidth, startY + y, to, from, before);
      }
      forall i | 0 <= i < framebuffer.Length
        ensures b.Covers(i / width, i % width) <==>
                InRectangle(i / width, i % width, startX, startY, startX + actualWidth, startY + actualHeight)
      {
        Coordinates(width, height, i);
      }
    }
  }
}
