/** Which integers have a binary64 value in common with another integer, ties being rounded to even. */
module SharedDouble {
  import opened RowMajor
  import opened Rounding

  /** 2 to the precision of binary64. */
  const LIMIT: nat := 0x20_0000_0000_0000

  const TWO_63: int := 0x8000_0000_0000_0000
  const TWO_64: int := 0x1_0000_0000_0000_0000

  /** The values of both integer types. */
  predicate IsNumber(n: int) { -TWO_63 <= n < TWO_64 }

  predicate Shares(n: int, m: int) { m != n && IsNumber(m) && Round(n, LIMIT) == Round(m, LIMIT) }

  /** The integer is below 2^53, or below 2^54 and twice an odd number, in magnitude. */
  predicate Apart(n: int) {
    var m := if n < 0 then -n else n;
    m < LIMIT || (m < 2 * LIMIT && m % 4 == 2)
  }

  // ------------------------------------------------- units

  lemma {:induction false} UnitRange(m: nat)
    ensures var q := Unit(m, LIMIT); q > 1 ==> q % 2 == 0 && LIMIT / 2 * q <= m < LIMIT * q
  {
    if m >= LIMIT { UnitRange(m / 2); }
  }

  /** The unit is the same throughout its range. */
  lemma {:induction false} UnitSame(m: nat, p: nat)
    requires var q := Unit(m, LIMIT); q > 1 && LIMIT / 2 * q <= p < LIMIT * q
    ensures Unit(p, LIMIT) == Unit(m, LIMIT)
  {
    if m / 2 >= LIMIT { UnitSame(m / 2, p / 2); }
  }

  lemma UnitMiddle(m: nat)
    requires LIMIT <= m < 2 * LIMIT
    ensures Unit(m, LIMIT) == 2
  {
    assert Unit(m, LIMIT) == 2 * Unit(m / 2, LIMIT);
  }

  lemma UnitLarge(m: nat)
    requires m >= 2 * LIMIT
    ensures Unit(m, LIMIT) >= 4 && Unit(m, LIMIT) % 4 == 0
  {
    assert Unit(m, LIMIT) == 2 * Unit(m / 2, LIMIT);
    assert Unit(m / 2, LIMIT) == 2 * Unit(m / 2 / 2, LIMIT);
  }

  // ------------------------------------------------- rounding by unit, quotient and rest

  function RoundTo(q: nat, k: nat, r: nat): int {
    if 2 * r < q || (2 * r == q && k % 2 == 0) then k * q else (k + 1) * q
  }

  lemma RoundAt(q: nat, k: nat, r: nat)
    requires r < q == Unit(k * q + r, LIMIT)
    ensures RoundNat(k * q + r, LIMIT) == RoundTo(q, k, r)
  {
    IndexUnique(q, k, r);
  }

  lemma QuotientRange(m: nat, q: nat)
    requires q > 0 && LIMIT / 2 * q <= m < LIMIT * q
    ensures LIMIT / 2 <= m / q < LIMIT && m == m / q * q + m % q
  {
    Multiples(m / q + 1, LIMIT / 2, q);
    Multiples(LIMIT, m / q, q);
    RowEnd(m / q, q);
  }

  /** All numbers with a quotient in the range of the unit are rounded alike. */
  lemma RoundInRange(m: nat, q: nat, k: nat, r: nat)
    requires q == Unit(m, LIMIT) > 1 && LIMIT / 2 <= k < LIMIT && r < q
    ensures RoundNat(k * q + r, LIMIT) == RoundTo(q, k, r)
  {
    Multiples(LIMIT / 2, k, q);
    Multiples(k, LIMIT, q);
    RowEnd(k, q);
    UnitSame(m, k * q + r);
    RoundAt(q, k, r);
  }

  lemma RoundMiddle(m: nat)
    requires LIMIT <= m < 2 * LIMIT
    ensures RoundNat(m, LIMIT) == if m % 2 == 0 then m else if m % 4 == 1 then m - 1 else m + 1
  {
    UnitMiddle(m);
  }

  lemma RoundLarge(m: nat)
    requires m >= 2 * LIMIT
    ensures RoundNat(m, LIMIT) >= 2 * LIMIT
  {
    var q := Unit(m, LIMIT);
    UnitLarge(m);
    UnitRange(m);
    QuotientRange(m, q);
    RoundAt(q, m / q, m % q);
    Multiples(LIMIT / 2, m / q, q);
    RowEnd(m / q, q);
  }

  // ------------------------------------------------- a partner above 2^53

  /** The two are rounded to the same value. */
  ghost predicate Alike(m: nat, p: nat) { RoundNat(m, LIMIT) == RoundNat(p, LIMIT) }

  /** The rest of a neighbour that is rounded to the same multiple, where there is one with this quotient. */
  function NextRest(q: nat, k: nat, r: nat): nat
    requires r < q
  {
    if r == 0 then 1
    else if 2 * r < q || (2 * r == q && k % 2 == 0) then r - 1
    else if r + 1 < q then r + 1
    else r - 1
  }

  lemma NextRestRounds(q: nat, k: nat, r: nat)
    requires q >= 4 && q % 4 == 0 && r < q && !(q == 4 && r == 3 && k % 2 == 0)
    ensures NextRest(q, k, r) != r && NextRest(q, k, r) < q && RoundTo(q, k, NextRest(q, k, r)) == RoundTo(q, k, r)
  {}

  /** From 2^54 on a neighbour is always rounded to the same value. */
  lemma Partner(m: nat) returns (p: nat)
    requires m >= 2 * LIMIT
    ensures (p == m - 1 || p == m + 1) && Alike(m, p)
  {
    var q := Unit(m, LIMIT);
    UnitLarge(m);
    UnitRange(m);
    QuotientRange(m, q);
    var k, r := m / q, m % q;
    RoundAt(q, k, r);
    if q == 4 && r == 3 && k % 2 == 0 {
      p := m + 1;
      RoundInRange(m, q, k + 1, 0);
    } else {
      NextRestRounds(q, k, r);
      p := k * q + NextRest(q, k, r);
      RoundInRange(m, q, k, NextRest(q, k, r));
    }
  }

  /** Up to 2^54 odd numbers are rounded to the neighbour that is a multiple of four. */
  lemma AlikeMiddle(m: nat, p: nat)
    requires LIMIT <= m < 2 * LIMIT && LIMIT <= p < 2 * LIMIT && m % 4 == 0 && (p == m - 1 || p == m + 1)
    ensures Alike(m, p) && Alike(p, m)
  {
    RoundMiddle(m);
    BesideFour(m, p);
  }

  lemma BesideFour(m: nat, p: nat)
    requires LIMIT <= m && LIMIT <= p < 2 * LIMIT && m % 4 == 0 && (p == m - 1 || p == m + 1)
    ensures RoundNat(p, LIMIT) == m
  {
    assert p % 4 == if p == m + 1 then 1 else 3;
    RoundMiddle(p);
  }

  lemma AlikeLimit()
    ensures Alike(2 * LIMIT - 1, 2 * LIMIT)
  {
    UnitMiddle(2 * LIMIT - 1);
    RoundAt(2, LIMIT - 1, 1);
    UnitOfRange(2 * LIMIT, 2);
    RoundAt(4, LIMIT / 2, 0);
  }

  lemma MiddlePartner(m: nat) returns (p: nat)
    requires LIMIT <= m < 2 * LIMIT && m % 4 != 2
    ensures (p == m - 1 || p == m + 1) && Alike(m, p)
  {
    if m % 4 == 1 {
      p := m - 1;
      AlikeMiddle(p, m);
    } else if m == 2 * LIMIT - 1 {
      p := 2 * LIMIT;
      AlikeLimit();
    } else if m % 4 == 0 {
      p := m + 1;
      AlikeMiddle(m, p);
    } else {
      p := m + 1;
      AlikeMiddle(p, m);
    }
  }

  function Power(e: nat): (p: nat)
    ensures p >= 1
  {
    if e == 0 then 1 else 2 * Power(e - 1)
  }

  lemma {:induction false} UnitOfRange(m: nat, e: nat)
    requires LIMIT / 2 * Power(e) <= m < LIMIT * Power(e)
    ensures Unit(m, LIMIT) == Power(e)
  {
    if e > 0 { UnitOfRange(m / 2, e - 1); }
  }

  lemma Powers()
    ensures Power(10) == 1024 && Power(11) == 2048
  {
    assert Power(5) == 32;
  }

  /** The ends of the two integer types have a neighbour inside. */
  lemma Ends()
    ensures Shares(TWO_64 - 1, TWO_64 - 2) && Shares(-TWO_63, 1 - TWO_63)
  {
    Powers();
    UnitOfRange(TWO_64 - 1, 11);
    UnitOfRange(TWO_64 - 2, 11);
    RoundAt(2048, LIMIT - 1, 2047);
    RoundAt(2048, LIMIT - 1, 2046);
    UnitOfRange(TWO_63, 11);
    UnitOfRange(TWO_63 - 1, 10);
    RoundAt(2048, LIMIT / 2, 0);
    RoundAt(1024, LIMIT - 1, 1023);
  }

  lemma AnyPartner(m: nat) returns (p: nat)
    requires !Apart(m)
    ensures (p == m - 1 || p == m + 1) && Alike(m, p)
  {
    if m < 2 * LIMIT {
      p := MiddlePartner(m);
    } else {
      p := Partner(m);
    }
  }

  lemma SharesOne(n: int) returns (m: int)
    requires IsNumber(n) && !Apart(n)
    ensures Shares(n, m)
  {
    if n == TWO_64 - 1 {
      Ends();
      m := TWO_64 - 2;
    } else if n == -TWO_63 {
      Ends();
      m := 1 - TWO_63;
    } else if n < 0 {
      var p: int := AnyPartner(-n);
      m := -p;
    } else {
      m := AnyPartner(n);
    }
  }

  // ------------------------------------------------- the exact law

  lemma RoundApart(m: nat)
    requires Apart(m)
    ensures RoundNat(m, LIMIT) == m
  {
    if m >= LIMIT { RoundMiddle(m); }
  }

  /** Below 2^54 nothing else is rounded to the value, above it everything to a larger one. */
  lemma ApartAlone(m: nat, p: nat)
    requires Apart(m) && RoundNat(p, LIMIT) == m
    ensures p == m
  {
    if p >= 2 * LIMIT {
      RoundLarge(p);
    } else if p >= LIMIT {
      RoundMiddle(p);
    }
  }

  /** Rounding keeps the sign. */
  lemma RoundPositive(m: nat)
    ensures RoundNat(m, LIMIT) >= 0 && (RoundNat(m, LIMIT) == 0 ==> m == 0)
  {
    if m >= 2 * LIMIT {
      RoundLarge(m);
    } else if m >= LIMIT {
      RoundMiddle(m);
    }
  }

  lemma SameSign(n: int, m: int)
    requires Round(n, LIMIT) == Round(m, LIMIT)
    ensures n < 0 <==> m < 0
  {
    RoundPositive(if n < 0 then -n else n);
    RoundPositive(if m < 0 then -m else m);
  }

  lemma NoneShares(n: int, m: int)
    requires Apart(n) && Round(n, LIMIT) == Round(m, LIMIT)
    ensures m == n
  {
    SameSign(n, m);
    RoundApart(if n < 0 then -n else n);
    ApartAlone(if n < 0 then -n else n, if m < 0 then -m else m);
  }

  /** An integer has its binary64 value for itself if and only if it is apart. */
  lemma SharesExact(n: int)
    requires IsNumber(n)
    ensures Apart(n) <==> !exists m :: Shares(n, m)
  {
    if Apart(n) {
      forall m | Round(n, LIMIT) == Round(m, LIMIT) ensures m == n { NoneShares(n, m); }
    } else {
      var m := SharesOne(n);
    }
  }
}
