/** What `operator==` of 3rdparty/nlohmann/json.hpp means: the same pointers resolve in both documents, and
    what they resolve to is of one kind and equal, or two numbers that convert to each other. */
module JsonEquality {
  import opened Wrappers
  import opened Text
  import opened JsonPointer
  import opened JsonValue
  import opened JsonAccess
  import Rounding

  // ------------------------------------------------- documents without integers

  predicate NoInteger(j: Json) {
    match j
    case Int(_) => false
    case UInt(_) => false
    case Arr(a) => forall i | 0 <= i < |a| :: NoInteger(a[i])
    case Obj(m) => forall k <- m.Keys :: NoInteger(m[k])
    case _ => true
  }

  /** Without integers, equal documents are the same: nothing is converted. */
  lemma {:induction false} EqualIsSame(x: Json, y: Json)
    requires NoInteger(x) && NoInteger(y)
    ensures Equal(x, y) <==> x == y
    decreases x
  {
    EqualReflexive(x);
    if Equal(x, y) {
      match x
      case Arr(a) =>
        forall i | 0 <= i < |a| ensures a[i] == y.elems[i] { EqualIsSame(a[i], y.elems[i]); }
        assert a == y.elems;
      case Obj(m) =>
        forall k | k in m ensures m[k] == y.members[k] { EqualIsSame(m[k], y.members[k]); }
        assert m == y.members;
      case _ =>
    }
  }

  /** An integer is converted to a nearest number of 53 bits, and of two nearest ones to the even one. */
  lemma DoubleIsNearest(n: int, v: int) returns (r: int)
    ensures ToDouble(n) == Finite(r as real) && Rounding.IsNearest(r, n, 0x20_0000_0000_0000, v)
  {
    r := Rounding.Round(n, 0x20_0000_0000_0000);
    Rounding.RoundIsNearest(n, 0x20_0000_0000_0000, v);
  }

  // ------------------------------------------------- all documents

  /** One number is converted to the type of the other: an integer to the floating-point number it is
      rounded to, an unsigned number to the signed one that is the same modulo 2^64. */
  predicate Converts(v: Json, w: Json) {
    match (v, w)
    case (Int(i), Float(d)) => d == ToDouble(i)
    case (UInt(u), Float(d)) => d == ToDouble(u)
    case (UInt(u), Int(i)) => (u - i) % 0x1_0000_0000_0000_0000 == 0
    case _ => false
  }

  /** Both are arrays or both objects, or they are the same primitive value up to conversion. */
  predicate Alike(v: Json, w: Json) {
    if IsPrimitive(v) && IsPrimitive(w) then v == w || Converts(v, w) || Converts(w, v)
    else TypeOf(v) == TypeOf(w)
  }

  predicate AlikeAt(x: Json, y: Json, p: Tokens) {
    && (GetChecked(x, p).Ok? <==> GetChecked(y, p).Ok?)
    && (GetChecked(x, p).Ok? ==> Alike(GetChecked(x, p).value, GetChecked(y, p).value))
  }

  lemma SignedIsCongruent(u: u64, i: i64)
    ensures ToSigned(u) == i <==> (u - i) % 0x1_0000_0000_0000_0000 == 0
  {}

  lemma EqualIsAlike(x: Json, y: Json)
    ensures Equal(x, y) ==> Alike(x, y)
    ensures IsPrimitive(x) && IsPrimitive(y) ==> (Equal(x, y) <==> Alike(x, y))
  {
    match (x, y)
    case (UInt(u), Int(i)) => SignedIsCongruent(u, i);
    case (Int(i), UInt(u)) => SignedIsCongruent(u, i);
    case _ =>
  }

  lemma EqualChild(x: Json, y: Json, t: string)
    requires Equal(x, y)
    ensures Child(x, t).Ok? <==> Child(y, t).Ok?
    ensures Child(x, t).Ok? ==> Equal(Child(x, t).value, Child(y, t).value)
  {
    if x.Obj? && y.Obj? { assert t in x.members.Keys <==> t in y.members.Keys; }
  }

  lemma {:induction false} EqualEverywhere(x: Json, y: Json, p: Tokens)
    requires Equal(x, y)
    ensures AlikeAt(x, y, p)
    decreases |p|
  {
    if p == [] {
      EqualIsAlike(x, y);
    } else {
      EqualChild(x, y, p[0]);
      if Child(x, p[0]).Ok? { EqualEverywhere(Child(x, p[0]).value, Child(y, p[0]).value, p[1..]); }
    }
  }

  ghost predicate AlikeEverywhere(x: Json, y: Json) { forall p: Tokens :: AlikeAt(x, y, p) }

  lemma AlikeBelow(x: Json, y: Json, t: string)
    requires AlikeEverywhere(x, y)
    ensures Child(x, t).Ok? <==> Child(y, t).Ok?
    ensures Child(x, t).Ok? ==> AlikeEverywhere(Child(x, t).value, Child(y, t).value)
  {
    assert AlikeAt(x, y, [t]) && [t][1..] == [];
    assert forall c: Json :: GetChecked(c, []) == Ok(c);
    if Child(x, t).Ok? {
      forall p: Tokens ensures AlikeAt(Child(x, t).value, Child(y, t).value, p) {
        assert ([t] + p)[1..] == p;
        assert AlikeAt(x, y, [t] + p);
      }
    }
  }

  lemma SameLength(x: Json, y: Json)
    requires x.Arr? && y.Arr? && Fits(x) && Fits(y) && AlikeEverywhere(x, y)
    ensures |x.elems| == |y.elems|
  {
    var n := if |x.elems| < |y.elems| then |x.elems| else |y.elems|;
    ArrayIndexDecimal(n);
    AlikeBelow(x, y, Decimal(n));
    ArrayIndexExact("-");
  }

  lemma {:induction false} EverywhereIsEqual(x: Json, y: Json)
    requires Fits(x) && Fits(y) && AlikeEverywhere(x, y)
    ensures Equal(x, y)
    decreases x
  {
    assert AlikeAt(x, y, []);
    match x
    case Arr(a) =>
      SameLength(x, y);
      forall i | 0 <= i < |a| ensures Equal(a[i], y.elems[i]) {
        ArrayIndexDecimal(i);
        ArrayIndexExact("-");
        AlikeBelow(x, y, Decimal(i));
        EverywhereIsEqual(a[i], y.elems[i]);
      }
    case Obj(m) =>
      forall k ensures k in m <==> k in y.members { AlikeBelow(x, y, k); }
      assert m.Keys == y.members.Keys;
      forall k | k in m ensures Equal(m[k], y.members[k]) {
        AlikeBelow(x, y, k);
        EverywhereIsEqual(m[k], y.members[k]);
      }
    case _ => EqualIsAlike(x, y);
  }

  /** Two documents are equal if and only if the same pointers resolve in both, to values that are alike. */
  lemma EqualExact(x: Json, y: Json)
    requires Fits(x) && Fits(y)
    ensures Equal(x, y) <==> forall p: Tokens :: AlikeAt(x, y, p)
  {
    if Equal(x, y) {
      forall p: Tokens ensures AlikeAt(x, y, p) { EqualEverywhere(x, y, p); }
    } else if AlikeEverywhere(x, y) {
      EverywhereIsEqual(x, y);
    }
  }
}
