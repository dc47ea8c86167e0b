/** Row-major index arithmetic, which images and slot rings share. */
module RowMajor {

  lemma Multiples(a: int, b: int, w: nat)
    ensures a < b ==> (a + 1) * w <= b * w
    ensures a <= b ==> a * w <= b * w
  {}

  lemma RowEnd(y: int, w: nat)
    ensures (y + 1) * w == y * w + w
  {}

  lemma IndexInside(w: nat, h: nat, y: int, x: int)
    requires 0 <= y < h && 0 <= x < w
    ensures 0 <= y * w + x < w * h && y * w + x < (y + 1) * w <= w * h
  {
    Multiples(y, h, w);
  }

  lemma IndexUnique(w: nat, y: nat, x: nat)
    requires x < w
    ensures (y * w + x) / w == y && (y * w + x) % w == x
  {
    var q, r := (y * w + x) / w, (y * w + x) % w;
    assert w * q + r == w * y + x;
    Multiples(q, y, w);
    Multiples(y, q, w);
  }

  lemma Coordinates(w: nat, h: nat, i: int)
    requires 0 <= i < w * h
    ensures w > 0 && 0 <= i / w < h && 0 <= i % w < w && i == (i / w) * w + i % w
  {
    assert w > 0;
    Multiples(h, i / w, w);
  }

  /** The indices of a stretch of one row, by row and column. */
  lemma RowSpan(w: nat, row: nat, from: nat, to: nat, i: nat)
    requires w > 0 && from <= to <= w
    ensures row * w + from <= i < row * w + to <==> i / w == row && from <= i % w < to
  {
    var q := i / w;
    assert i == q * w + i % w;
    Multiples(q, row, w);
    Multiples(row, q, w);
    RowEnd(q, w);
    RowEnd(row, w);
  }
}
