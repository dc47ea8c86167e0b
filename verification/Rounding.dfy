/** Rounding of integers to a limited number of significant bits, ties to even: the conversion of an
    integer to binary64, and binary32 arithmetic on integers. `limit` is 2 to the precision. */
module Rounding {
  import opened RowMajor

  /** The spacing of representable numbers around `m`. */
  function Unit(m: nat, limit: nat): (q: nat)
    requires limit > 0
    ensures q >= 1 && (m < limit ==> q == 1)
  {
    if m < limit then 1 else 2 * Unit(m / 2, limit)
  }

  function RoundNat(m: nat, limit: nat): int
    requires limit > 0
  {
    var q := Unit(m, limit);
    var k, r := m / q, m % q;
    if 2 * r < q || (2 * r == q && k % 2 == 0) then k * q else (k + 1) * q
  }

  function Round(n: int, limit: nat): int
    requires limit > 0
  {
    if n < 0 then -RoundNat(-n, limit) else RoundNat(n, limit)
  }

  lemma RoundExact(n: int, limit: nat)
    requires n < limit && 0 < n + limit
    ensures Round(n, limit) == n
  {}

  // ------------------------------------------------- what rounding means

  /** k times 2 to the power of e. */
  function Scaled(k: int, e: nat): int
    decreases e
  {
    if e == 0 then k else Scaled(2 * k, e - 1)
  }

  predicate IsScaled(v: int, limit: nat, k: int, e: nat) { 0 < k + limit && k < limit && v == Scaled(k, e) }

  /** A number with a significand below `limit`. */
  ghost predicate Representable(v: int, limit: nat) { exists k, e: nat :: IsScaled(v, limit, k, e) }

  function Distance(v: int, w: int): nat { if v < w then w - v else v - w }

  lemma {:induction false} ScaledOrder(a: int, b: int, e: nat)
    ensures a <= b ==> Scaled(a, e) <= Scaled(b, e)
    ensures a >= 0 ==> Scaled(a, e) >= a
    decreases e
  {
    if e > 0 { ScaledOrder(2 * a, 2 * b, e - 1); }
  }

  lemma {:induction false} ScaledTwice(k: int, d: nat, e: nat)
    ensures Scaled(k, d + e) == Scaled(Scaled(k, d), e)
    decreases d
  {
    if d > 0 { ScaledTwice(2 * k, d - 1, e); }
  }

  lemma {:induction false} ScaledNegative(k: int, e: nat)
    ensures Scaled(-k, e) == -Scaled(k, e)
    decreases e
  {
    if e > 0 { ScaledNegative(2 * k, e - 1); }
  }

  lemma {:induction false} ScaledProduct(k: int, e: nat)
    ensures Scaled(k, e) == k * Scaled(1, e)
    decreases e
  {
    if e > 0 {
      ScaledProduct(2 * k, e - 1);
      ScaledProduct(2, e - 1);
      Regroup(k, 2, Scaled(1, e - 1));
    }
  }

  lemma Regroup(x: int, y: int, z: int)
    ensures y * x * z == x * (y * z)
  {}

  lemma Halved(m: nat, p: nat)
    requires p > 0
    ensures m / (2 * p) == m / 2 / p
  {
    var a, r := m / 2 / p, m / 2 % p;
    assert a * (2 * p) == 2 * (a * p);
    assert m == a * (2 * p) + (2 * r + m % 2);
    IndexUnique(2 * p, a, 2 * r + m % 2);
  }

  /** The unit is a power of two, and the quotient needs the whole precision unless the unit is 1. */
  lemma {:induction false} UnitIsScaled(m: nat, limit: nat) returns (e: nat)
    requires limit > 0 && limit % 2 == 0
    ensures var q := Unit(m, limit); q == Scaled(1, e) && m / q < limit && (e > 0 ==> limit / 2 <= m / q)
  {
    if m < limit {
      e := 0;
    } else {
      var d := UnitIsScaled(m / 2, limit);
      e := d + 1;
      ScaledProduct(2, d);
      Halved(m, Unit(m / 2, limit));
    }
  }

  /** No number of the precision lies strictly between two neighbouring multiples of the unit. */
  lemma NothingBetween(v: int, limit: nat, k: nat, e: nat)
    requires limit % 2 == 0 && Representable(v, limit) && (e > 0 ==> limit / 2 <= k)
    ensures v <= Scaled(k, e) || v >= Scaled(k + 1, e)
  {
    var j: int, d: nat :| IsScaled(v, limit, j, d);
    if d >= e {
      ScaledTwice(j, d - e, e);
      ScaledOrder(Scaled(j, d - e), k, e);
      ScaledOrder(k + 1, Scaled(j, d - e), e);
    } else {
      ScaledTwice(k, e - d, d);
      ScaledOrder(2 * k, 2 * k, e - d - 1);
      ScaledOrder(j, Scaled(k, e - d), d);
    }
  }

  /** Multiples of the unit up to the limit have the precision; the even ones need one bit less. */
  lemma MultipleFits(limit: nat, k: nat, e: nat)
    requires limit % 4 == 0 && 0 < limit && k <= limit
    ensures Representable(Scaled(k, e), limit)
    ensures k % 2 == 0 ==> Representable(Scaled(k, e), limit / 2)
  {
    if k < limit { assert IsScaled(Scaled(k, e), limit, k, e); }
    if k % 2 == 0 {
      var half := k / 2;
      assert Scaled(half, e + 1) == Scaled(k, e);
      if half < limit / 2 {
        assert IsScaled(Scaled(k, e), limit / 2, half, e + 1);
      } else {
        assert Scaled(half / 2, e + 2) == Scaled(half, e + 1);
        assert IsScaled(Scaled(k, e), limit / 2, half / 2, e + 2);
      }
      assert IsScaled(Scaled(k, e), limit, half, e + 1);
    }
  }

  predicate IsNearer(v: int, r: int, m: int) { Distance(v, m) < Distance(r, m) }

  /** Between two neighbours, rounding takes the nearer one, and the even one of two that are as near. */
  lemma NearestNeighbour(base: nat, q: nat, rest: nat, even: bool, v: int, r: int)
    requires rest < q && (v <= base || v >= base + q)
    requires r == if 2 * rest < q || (2 * rest == q && even) then base else base + q
    ensures var m := base + rest;
            && !IsNearer(v, r, m)
            && (v != r && Distance(v, m) == Distance(r, m) ==> 2 * rest == q)
  {}

  /** The two neighbours of a number, and which of them rounding takes. */
  lemma Neighbours(m: nat, limit: nat) returns (k: nat, e: nat, q: nat, rest: nat, r: int)
    requires limit > 0 && limit % 2 == 0
    ensures k < limit && (e > 0 ==> limit / 2 <= k)
    ensures m == Scaled(k, e) + rest && rest < q && Scaled(k + 1, e) == Scaled(k, e) + q
    ensures r == RoundNat(m, limit)
    ensures r == if 2 * rest < q || (2 * rest == q && k % 2 == 0) then Scaled(k, e) else Scaled(k + 1, e)
  {
    q := Unit(m, limit);
    e := UnitIsScaled(m, limit);
    k, rest, r := m / q, m % q, RoundNat(m, limit);
    var base, next := k * q, (k + 1) * q;
    assert r == if 2 * rest < q || (2 * rest == q && k % 2 == 0) then base else next;
    assert m == base + rest && next == base + q by { RowEnd(k, q); }
    assert base == Scaled(k, e) by { ScaledProduct(k, e); }
    assert next == Scaled(k + 1, e) by { ScaledProduct(k + 1, e); }
  }

  lemma NeighboursFit(limit: nat, k: nat, e: nat)
    requires limit % 4 == 0 && k < limit
    ensures Representable(Scaled(k, e), limit) && Representable(Scaled(k + 1, e), limit)
    ensures Representable(if k % 2 == 0 then Scaled(k, e) else Scaled(k + 1, e), limit / 2)
  {
    MultipleFits(limit, k, e);
    MultipleFits(limit, k + 1, e);
  }

  lemma NearestOf(m: nat, limit: nat, v: int, k: nat, e: nat, q: nat, rest: nat, r: int)
    requires limit % 4 == 0 && k < limit && (e > 0 ==> limit / 2 <= k)
    requires m == Scaled(k, e) + rest && rest < q && Scaled(k + 1, e) == Scaled(k, e) + q
    requires r == if 2 * rest < q || (2 * rest == q && k % 2 == 0) then Scaled(k, e) else Scaled(k + 1, e)
    ensures IsNearest(r, m, limit, v)
  {
    var base, even := Scaled(k, e), k % 2 == 0;
    assert base >= 0 by { ScaledOrder(k, k, e); }
    NeighboursFit(limit, k, e);
    if Representable(v, limit) {
      NothingBetween(v, limit, k, e);
      NearestNeighbour(base, q, rest, even, v, r);
    }
  }

  /** The number `r` has the precision, and `v` is no nearer to `n`; if it is as near, `r` needs one bit less. */
  ghost predicate IsNearest(r: int, n: int, limit: nat, v: int) {
    && Representable(r, limit)
    && (Representable(v, limit) ==> !IsNearer(v, r, n))
    && (Representable(v, limit) && v != r && Distance(v, n) == Distance(r, n) ==> Representable(r, limit / 2))
  }

  lemma NegativeFits(v: int, limit: nat)
    requires Representable(v, limit)
    ensures Representable(-v, limit)
  {
    var k: int, e: nat :| IsScaled(v, limit, k, e);
    ScaledNegative(k, e);
    assert IsScaled(-v, limit, -k, e);
  }

  lemma NegativeNearest(r: int, n: int, limit: nat, v: int)
    requires IsNearest(r, n, limit, -v)
    ensures IsNearest(-r, -n, limit, v)
  {
    NegativeFits(r, limit);
    if Representable(v, limit) { NegativeFits(v, limit); }
    if Representable(r, limit / 2) { NegativeFits(r, limit / 2); }
  }

  /** Rounding gives a number of the precision to which no other one is nearer; where another one is as near,
      the result has an even significand, so that it needs one bit less. */
  lemma RoundIsNearest(n: int, limit: nat, v: int)
    requires limit % 4 == 0 && 0 < limit
    ensures IsNearest(Round(n, limit), n, limit, v)
  {
    if n < 0 {
      var k, e, q, rest, r := Neighbours(-n, limit);
      NearestOf(-n, limit, -v, k, e, q, rest, r);
      NegativeNearest(r, -n, limit, v);
    } else {
      var k, e, q, rest, r := Neighbours(n, limit);
      NearestOf(n, limit, v, k, e, q, rest, r);
    }
  }
}
