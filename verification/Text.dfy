/** Strings as the JSON library sees them: the lexicographic order of `std::string`, which is the
    iteration order of the `std::map` behind a JSON object, and decimal numerals as written by
    `std::to_string` and read back by `std::strtoull`. */
module Text {

  /** `operator<` of `std::string`. */
  predicate StrLess(a: string, b: string) {
    if b == [] then false
    else if a == [] then true
    else a[0] < b[0] || (a[0] == b[0] && StrLess(a[1..], b[1..]))
  }

  lemma {:induction false} StrLessTotal(a: string, b: string)
    ensures a == b || StrLess(a, b) || StrLess(b, a)
    ensures !(StrLess(a, b) && StrLess(b, a))
    ensures !StrLess(a, a)
  {
    if a != [] && b != [] && a[0] == b[0] {
      StrLessTotal(a[1..], b[1..]);
      assert a == [a[0]] + a[1..] && b == [b[0]] + b[1..];
    }
    if a != [] {
      StrLessTotal(a[1..], a[1..]);
    }
  }

  lemma {:induction false} StrLessTransitive(a: string, b: string, c: string)
    requires StrLess(a, b) && StrLess(b, c)
    ensures StrLess(a, c)
  {
    if a != [] && a[0] == b[0] && b[0] == c[0] {
      StrLessTransitive(a[1..], b[1..], c[1..]);
    }
  }

  /** A common prefix does not influence the order. */
  lemma {:induction false} StrLessPrefix(p: string, a: string, b: string)
    ensures StrLess(p + a, p + b) <==> StrLess(a, b)
  {
    if p == [] {
      assert p + a == a && p + b == b;
    } else {
      assert (p + a)[1..] == p[1..] + a && (p + b)[1..] == p[1..] + b;
      StrLessPrefix(p[1..], a, b);
    }
  }

  /** `ks` lists every element of `s` exactly once, in increasing order. */
  predicate IsSortedListing(ks: seq<string>, s: set<string>) {
    && (forall i, j | 0 <= i < j < |ks| :: StrLess(ks[i], ks[j]))
    && (forall k <- ks :: k in s)
    && (forall k <- s :: k in ks)
  }

  predicate IsLeast(x: string, s: set<string>) {
    x in s && forall y <- s :: y == x || StrLess(x, y)
  }

  lemma LeastExists(s: set<string>)
    requires s != {}
    ensures exists x :: IsLeast(x, s)
  {
    var z :| z in s;
    var rest := s - {z};
    if rest == {} {
      assert s == {z};
      assert IsLeast(z, s);
    } else {
      LeastExists(rest);
      var x :| IsLeast(x, rest);
      StrLessTotal(x, z);
      var m := if StrLess(z, x) then z else x;
      forall y | y in s ensures y == m || StrLess(m, y) {
        if y != z && m == z && y != x {
          StrLessTransitive(z, x, y);
        }
      }
      assert IsLeast(m, s);
    }
  }

  /** The keys of an object in the order in which `std::map` iterates over them. */
  function SortedKeys(s: set<string>): (ks: seq<string>)
    ensures IsSortedListing(ks, s)
  {
    if s == {} then []
    else
      LeastExists(s);
      assert forall x, y | IsLeast(x, s) && IsLeast(y, s) :: x == y by {
        forall x, y | IsLeast(x, s) && IsLeast(y, s) ensures x == y { StrLessTotal(x, y); }
      }
      var x :| x in s && IsLeast(x, s);
      [x] + SortedKeys(s - {x})
  }

  /** There is only one such listing. */
  lemma {:induction false} SortedListingUnique(a: seq<string>, b: seq<string>, s: set<string>)
    requires IsSortedListing(a, s) && IsSortedListing(b, s)
    ensures a == b
    decreases |a|
  {
    ListingEmpty(a, s);
    ListingEmpty(b, s);
    if s != {} {
      assert a[0] in s && a[0] in b && b[0] in s && b[0] in a;
      StrLessTotal(a[0], b[0]);
      assert a[0] == b[0];
      var x := a[0];
      StrLessTotal(x, x);
      TailListing(a, s);
      TailListing(b, s);
      SortedListingUnique(a[1..], b[1..], s - {x});
      assert a == [x] + a[1..] && b == [x] + b[1..];
    }
  }

  lemma ListingEmpty(ks: seq<string>, s: set<string>)
    requires IsSortedListing(ks, s)
    ensures ks == [] <==> s == {}
  {
    if ks != [] {
      assert ks[0] in s;
    }
  }

  lemma TailListing(ks: seq<string>, s: set<string>)
    requires ks != [] && IsSortedListing(ks, s)
    ensures IsSortedListing(ks[1..], s - {ks[0]})
  {
    StrLessTotal(ks[0], ks[0]);
  }

  lemma SortedDistinct(ks: seq<string>, s: set<string>)
    requires IsSortedListing(ks, s)
    ensures forall i, j | 0 <= i < j < |ks| :: ks[i] != ks[j]
  {
    forall i, j | 0 <= i < j < |ks| ensures ks[i] != ks[j] { StrLessTotal(ks[i], ks[j]); }
  }

  // ---------------------------------------------------------------- decimals

  predicate IsDigit(c: char) { '0' <= c <= '9' }

  function DigitOf(n: nat): (c: char)
    requires n < 10
    ensures IsDigit(c) && c as int - '0' as int == n
  {
    ('0' as int + n) as char
  }

  /** `std::to_string` of an unsigned number. */
  function Decimal(n: nat): (s: string) {
    if n < 10 then [DigitOf(n)] else Decimal(n / 10) + [DigitOf(n % 10)]
  }

  /** The number denoted by a string of digits. */
  function DecimalValue(s: string): nat
    requires forall c <- s :: IsDigit(c)
  {
    if s == [] then 0
    else
      assert IsDigit(s[|s| - 1]);
      10 * DecimalValue(s[..|s| - 1]) + (s[|s| - 1] as int - '0' as int)
  }

  /** RFC 6901 section 4: "0", or digits that do not start with "0". */
  predicate IsCanonical(s: string) {
    s != [] && (forall c <- s :: IsDigit(c)) && (|s| > 1 ==> s[0] != '0')
  }

  lemma {:induction false} DecimalCanonical(n: nat)
    ensures IsCanonical(Decimal(n)) && DecimalValue(Decimal(n)) == n
    ensures n > 0 ==> Decimal(n)[0] != '0'
  {
    if n >= 10 {
      DecimalCanonical(n / 10);
      assert Decimal(n)[..|Decimal(n)| - 1] == Decimal(n / 10);
    }
  }

  lemma {:induction false} CanonicalPositive(s: string)
    requires IsCanonical(s) && s[0] != '0'
    ensures DecimalValue(s) > 0
  {
    assert IsDigit(s[|s| - 1]) by { assert s[|s| - 1] in s; }
    if |s| > 1 {
      CanonicalPositive(s[..|s| - 1]);
    } else {
      assert DecimalValue(s[..|s| - 1]) == 0;
    }
  }

  /** Reading a canonical numeral and printing it again gives the numeral back. */
  lemma {:induction false} DecimalOfValue(s: string)
    requires IsCanonical(s)
    ensures Decimal(DecimalValue(s)) == s
  {
    var q, d := s[..|s| - 1], s[|s| - 1];
    assert IsDigit(d) by { assert d in s; }
    if |s| > 1 {
      CanonicalPositive(q);
      DecimalOfValue(q);
      assert DecimalValue(s) / 10 == DecimalValue(q);
      assert s == q + [d];
    } else {
      assert s == [d];
    }
  }

  lemma DecimalInjective(m: nat, n: nat)
    requires Decimal(m) == Decimal(n)
    ensures m == n
  {
    DecimalCanonical(m);
    DecimalCanonical(n);
  }
}
