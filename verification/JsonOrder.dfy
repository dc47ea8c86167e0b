/** `operator<` of 3rdparty/nlohmann/json.hpp with the type order of detail/value_t.hpp, and the
    documents on which it is a strict total order that agrees with `operator==`. */
module JsonOrder {
  import opened Wrappers
  import opened Text
  import opened JsonValue
  import Rounding
  import SharedDouble

  // ------------------------------------------------- nesting depth

  ghost function MaxOf(s: set<nat>): (r: nat)
    ensures forall x <- s :: x <= r
  {
    if s == {} then 0
    else
      var x :| x in s;
      var m := MaxOf(s - {x});
      assert forall y | y in s :: y == x || y in s - {x};
      if x < m then m else x
  }

  ghost function ChildHeights(j: Json): set<nat>
    decreases j, 0
  {
    match j
    case Arr(a) => set i | 0 <= i < |a| :: Height(a[i])
    case Obj(m) => set k | k in m :: Height(m[k])
    case _ => {}
  }

  ghost function Height(j: Json): nat
    decreases j, 1
  {
    1 + MaxOf(ChildHeights(j))
  }

  lemma HeightOfElem(x: Json, i: nat)
    requires x.Arr? && i < |x.elems|
    ensures Height(x.elems[i]) < Height(x)
  {
    assert Height(x.elems[i]) in ChildHeights(x);
  }

  lemma HeightOfMember(x: Json, k: string)
    requires x.Obj? && k in x.members
    ensures Height(x.members[k]) < Height(x)
  {
    assert Height(x.members[k]) in ChildHeights(x);
  }

  // ------------------------------------------------- operator<

  /** The table `order` of value_t.hpp. */
  function TypeRank(t: ValueT): nat {
    match t
    case TNull => 0
    case TObject => 3
    case TArray => 4
    case TString => 5
    case TBoolean => 1
    case TInteger => 2
    case TUnsigned => 2
    case TFloat => 2
    case TBinary => 6
  }

  function DoubleLess(x: Double, y: Double): bool {
    match (x, y)
    case (Finite(a), Finite(b)) => a < b
    case (NegInf, _) => !y.NegInf?
    case (_, PosInf) => !x.PosInf?
    case _ => false
  }

  predicate BytesLess(a: seq<u8>, b: seq<u8>) {
    if b == [] then false
    else if a == [] then true
    else a[0] < b[0] || (a[0] == b[0] && BytesLess(a[1..], b[1..]))
  }

  /** `operator<`; the subtype of binary values is ignored. */
  predicate Less(x: Json, y: Json)
    decreases Height(x) + Height(y), 1, 0
  {
    match (x, y)
    case (Arr(_), Arr(_)) => ElemsLess(x, y, 0)
    case (Obj(m), Obj(n)) => MembersLess(x, y, SortedKeys(m.Keys), SortedKeys(n.Keys))
    case (Null, Null) => false
    case (Str(s), Str(t)) => StrLess(s, t)
    case (Bool(b), Bool(c)) => !b && c
    case (Int(i), Int(k)) => i < k
    case (UInt(u), UInt(v)) => u < v
    case (Float(d), Float(e)) => DoubleLess(d, e)
    case (Bin(b, _), Bin(c, _)) => BytesLess(b, c)
    case (Int(i), Float(d)) => DoubleLess(ToDouble(i), d)
    case (Float(d), Int(i)) => DoubleLess(d, ToDouble(i))
    case (UInt(u), Float(d)) => DoubleLess(ToDouble(u), d)
    case (Float(d), UInt(u)) => DoubleLess(d, ToDouble(u))
    case (UInt(u), Int(i)) => ToSigned(u) < i
    case (Int(i), UInt(u)) => i < ToSigned(u)
    case _ => TypeRank(TypeOf(x)) < TypeRank(TypeOf(y))
  }

  /** `std::lexicographical_compare` over arrays. */
  predicate ElemsLess(x: Json, y: Json, i: nat)
    requires x.Arr? && y.Arr?
    decreases Height(x) + Height(y), 0, |x.elems| - i
  {
    if i >= |y.elems| then false
    else if i >= |x.elems| then true
    else
      HeightOfElem(x, i);
      HeightOfElem(y, i);
      if Less(x.elems[i], y.elems[i]) then true
      else if Less(y.elems[i], x.elems[i]) then false
      else ElemsLess(x, y, i + 1)
  }

  predicate Listed(x: Json, keys: seq<string>) {
    x.Obj? && forall i | 0 <= i < |keys| :: keys[i] in x.members
  }

  /** `operator<` of a member, that is of a `std::pair` of key and value. */
  predicate PairLess(x: Json, k: string, y: Json, l: string)
    requires x.Obj? && y.Obj? && k in x.members && l in y.members
    decreases Height(x) + Height(y), 0, 0
  {
    HeightOfMember(x, k);
    HeightOfMember(y, l);
    StrLess(k, l) || (!StrLess(l, k) && Less(x.members[k], y.members[l]))
  }

  /** `std::lexicographical_compare` over the members of objects. */
  predicate MembersLess(x: Json, y: Json, ks: seq<string>, ls: seq<string>)
    requires Listed(x, ks) && Listed(y, ls)
    decreases Height(x) + Height(y), 0, 1 + |ks|
  {
    if ls == [] then false
    else if ks == [] then true
    else if PairLess(x, ks[0], y, ls[0]) then true
    else if PairLess(y, ls[0], x, ks[0]) then false
    else MembersLess(x, y, ks[1..], ls[1..])
  }

  // ------------------------------------------------- a three-way comparison

  function Sign(less: bool, greater: bool): int {
    if less then -1 else if greater then 1 else 0
  }

  function CmpInt(a: int, b: int): int { Sign(a < b, b < a) }

  function CmpStr(a: string, b: string): int { Sign(StrLess(a, b), StrLess(b, a)) }

  function Num(j: Json): int
    requires j.Int? || j.UInt?
  {
    match j case Int(i) => i case UInt(u) => u
  }

  /** The documents of the theorem: no floating-point numbers, no binary values, and no unsigned
      number that the cast to a signed one changes. */
  predicate Orderable(j: Json) {
    match j
    case Arr(a) => forall i | 0 <= i < |a| :: Orderable(a[i])
    case Obj(m) => forall k <- m.Keys :: Orderable(m[k])
    case UInt(u) => u < 0x8000_0000_0000_0000
    case Float(_) => false
    case Bin(_, _) => false
    case _ => true
  }

  /** Comparison by type rank, then by numeric value, text, elements or members: the reference
      against which `operator<` and `operator==` are measured. */
  function Cmp(x: Json, y: Json): int
    decreases x, 1, 0
  {
    var byType := CmpInt(TypeRank(TypeOf(x)), TypeRank(TypeOf(y)));
    if byType != 0 then byType
    else match x
      case Arr(_) => CmpElems(x, y, 0)
      case Obj(m) => CmpMembers(x, y, SortedKeys(m.Keys), SortedKeys(y.members.Keys))
      case Str(s) => CmpStr(s, y.s)
      case Bool(b) => Sign(!b && y.b, b && !y.b)
      case Int(_) => if y.Float? then 0 else CmpInt(Num(x), Num(y))
      case UInt(_) => if y.Float? then 0 else CmpInt(Num(x), Num(y))
      case _ => 0
  }

  function CmpElems(x: Json, y: Json, i: nat): int
    requires x.Arr? && y.Arr?
    decreases x, 0, |x.elems| - i
  {
    if i >= |x.elems| || i >= |y.elems| then Sign(i < |y.elems|, i < |x.elems|)
    else
      var c := Cmp(x.elems[i], y.elems[i]);
      if c != 0 then c else CmpElems(x, y, i + 1)
  }

  function CmpMembers(x: Json, y: Json, ks: seq<string>, ls: seq<string>): int
    requires Listed(x, ks) && Listed(y, ls)
    decreases x, 0, |ks|
  {
    if ks == [] || ls == [] then Sign(ls != [], ks != [])
    else
      var c := CmpStr(ks[0], ls[0]);
      if c != 0 then c
      else
        var d := Cmp(x.members[ks[0]], y.members[ls[0]]);
        if d != 0 then d else CmpMembers(x, y, ks[1..], ls[1..])
  }

  // ------------------------------------------------- its laws

  lemma RanksDecide(x: Json, y: Json)
    ensures var c := CmpInt(TypeRank(TypeOf(x)), TypeRank(TypeOf(y)));
            c != 0 ==> Cmp(x, y) == c && !Equal(x, y)
  {}

  /** Swapping the arguments swaps the sign. */
  lemma {:induction false} CmpSwap(x: Json, y: Json)
    requires Orderable(x) && Orderable(y)
    ensures Cmp(y, x) == -Cmp(x, y)
    decreases x, 1, 0
  {
    if TypeRank(TypeOf(x)) != TypeRank(TypeOf(y)) {
      RanksDecide(x, y);
      RanksDecide(y, x);
    } else if x.Arr? {
      CmpElemsSwap(x, y, 0);
    } else if x.Obj? {
      CmpMembersSwap(x, y, SortedKeys(x.members.Keys), SortedKeys(y.members.Keys));
    } else {
      PrimitiveSwap(x, y);
    }
  }

  lemma PrimitiveSwap(x: Json, y: Json)
    requires Orderable(x) && Orderable(y) && IsPrimitive(x) && IsPrimitive(y)
    requires TypeRank(TypeOf(x)) == TypeRank(TypeOf(y))
    ensures Cmp(y, x) == -Cmp(x, y)
  {
    if x.Str? {
      StrLessTotal(x.s, y.s);
    } else if x.Int? || x.UInt? {
      assert Cmp(x, y) == CmpInt(Num(x), Num(y)) && Cmp(y, x) == CmpInt(Num(y), Num(x));
    }
  }

  lemma {:induction false} CmpElemsSwap(x: Json, y: Json, i: nat)
    requires x.Arr? && y.Arr? && Orderable(x) && Orderable(y)
    ensures CmpElems(y, x, i) == -CmpElems(x, y, i)
    decreases x, 0, |x.elems| - i
  {
    if i < |x.elems| && i < |y.elems| {
      CmpSwap(x.elems[i], y.elems[i]);
      CmpElemsSwap(x, y, i + 1);
    }
  }

  lemma {:induction false} CmpMembersSwap(x: Json, y: Json, ks: seq<string>, ls: seq<string>)
    requires Listed(x, ks) && Listed(y, ls) && Orderable(x) && Orderable(y)
    ensures CmpMembers(y, x, ls, ks) == -CmpMembers(x, y, ks, ls)
    decreases x, 0, |ks|
  {
    if ks != [] && ls != [] {
      StrLessTotal(ks[0], ls[0]);
      CmpSwap(x.members[ks[0]], y.members[ls[0]]);
      CmpMembersSwap(x, y, ks[1..], ls[1..]);
    }
  }

  lemma {:induction false} LessIsCmp(x: Json, y: Json)
    requires Orderable(x) && Orderable(y)
    ensures Less(x, y) <==> Cmp(x, y) < 0
    decreases Height(x) + Height(y), 1, 0
  {
    if x.Arr? && y.Arr? {
      ElemsLessIsCmp(x, y, 0);
    } else if x.Obj? && y.Obj? {
      MembersLessIsCmp(x, y, SortedKeys(x.members.Keys), SortedKeys(y.members.Keys));
    }
  }

  lemma {:induction false} ElemsLessIsCmp(x: Json, y: Json, i: nat)
    requires x.Arr? && y.Arr? && Orderable(x) && Orderable(y)
    ensures ElemsLess(x, y, i) <==> CmpElems(x, y, i) < 0
    decreases Height(x) + Height(y), 0, |x.elems| - i
  {
    if i < |x.elems| && i < |y.elems| {
      HeightOfElem(x, i);
      HeightOfElem(y, i);
      LessIsCmp(x.elems[i], y.elems[i]);
      LessIsCmp(y.elems[i], x.elems[i]);
      CmpSwap(x.elems[i], y.elems[i]);
      ElemsLessIsCmp(x, y, i + 1);
    }
  }

  lemma {:induction false} MembersLessIsCmp(x: Json, y: Json, ks: seq<string>, ls: seq<string>)
    requires Listed(x, ks) && Listed(y, ls) && Orderable(x) && Orderable(y)
    ensures MembersLess(x, y, ks, ls) <==> CmpMembers(x, y, ks, ls) < 0
    decreases Height(x) + Height(y), 0, |ks|
  {
    if ks != [] && ls != [] {
      var v, w := x.members[ks[0]], y.members[ls[0]];
      HeightOfMember(x, ks[0]);
      HeightOfMember(y, ls[0]);
      LessIsCmp(v, w);
      LessIsCmp(w, v);
      CmpSwap(v, w);
      StrLessTotal(ks[0], ls[0]);
      MembersLessIsCmp(x, y, ks[1..], ls[1..]);
    }
  }

  /** Equal listings and equal values along them are equal key sets and equal values. */
  lemma SameMembers(m: map<string, Json>, n: map<string, Json>)
    ensures var ks := SortedKeys(m.Keys);
            (ks == SortedKeys(n.Keys) && forall i | 0 <= i < |ks| :: Equal(m[ks[i]], n[ks[i]])) <==>
            (m.Keys == n.Keys && forall k <- m.Keys :: Equal(m[k], n[k]))
  {
    var ks, ls := SortedKeys(m.Keys), SortedKeys(n.Keys);
    if ks == ls {
      assert forall k :: k in m.Keys <==> k in ks;
      assert forall k :: k in n.Keys <==> k in ls;
      assert m.Keys == n.Keys;
    }
  }

  lemma {:induction false} EqualIsCmp(x: Json, y: Json)
    requires Orderable(x) && Orderable(y)
    ensures Equal(x, y) <==> Cmp(x, y) == 0
    decreases x, 2, 0
  {
    if TypeRank(TypeOf(x)) != TypeRank(TypeOf(y)) {
      RanksDecide(x, y);
    } else if x.Arr? {
      EqualArrIsCmp(x, y);
    } else if x.Obj? {
      EqualObjIsCmp(x, y);
    } else {
      EqualPrimitiveIsCmp(x, y);
    }
  }

  lemma EqualPrimitiveIsCmp(x: Json, y: Json)
    requires Orderable(x) && Orderable(y) && IsPrimitive(x) && IsPrimitive(y)
    requires TypeRank(TypeOf(x)) == TypeRank(TypeOf(y))
    ensures Equal(x, y) <==> Cmp(x, y) == 0
  {
    match x
    case Str(s) => StrLessTotal(s, y.s);
    case Int(_) => assert Cmp(x, y) == CmpInt(Num(x), Num(y));
    case UInt(_) => assert Cmp(x, y) == CmpInt(Num(x), Num(y));
    case _ =>
  }

  lemma {:induction false} EqualArrIsCmp(x: Json, y: Json)
    requires Orderable(x) && Orderable(y) && x.Arr? && y.Arr?
    ensures Equal(x, y) <==> Cmp(x, y) == 0
    decreases x, 1, 0
  {
    EqualElemsIsCmp(x, y, 0);
    assert Cmp(x, y) == CmpElems(x, y, 0);
  }

  lemma {:induction false} EqualObjIsCmp(x: Json, y: Json)
    requires Orderable(x) && Orderable(y) && x.Obj? && y.Obj?
    ensures Equal(x, y) <==> Cmp(x, y) == 0
    decreases x, 1, 0
  {
    var ks, ls := SortedKeys(x.members.Keys), SortedKeys(y.members.Keys);
    EqualMembersIsCmp(x, y, ks, ls);
    SameMembers(x.members, y.members);
    assert Cmp(x, y) == CmpMembers(x, y, ks, ls);
  }

  lemma {:induction false} EqualElemsIsCmp(x: Json, y: Json, i: nat)
    requires x.Arr? && y.Arr? && Orderable(x) && Orderable(y) && i <= |x.elems| && i <= |y.elems|
    ensures CmpElems(x, y, i) == 0 <==>
            |x.elems| == |y.elems| && forall k | i <= k < |x.elems| :: Equal(x.elems[k], y.elems[k])
    decreases x, 0, |x.elems| - i
  {
    if i < |x.elems| && i < |y.elems| {
      EqualIsCmp(x.elems[i], y.elems[i]);
      EqualElemsIsCmp(x, y, i + 1);
    }
  }

  lemma {:induction false} EqualMembersIsCmp(x: Json, y: Json, ks: seq<string>, ls: seq<string>)
    requires Listed(x, ks) && Listed(y, ls) && Orderable(x) && Orderable(y)
    ensures CmpMembers(x, y, ks, ls) == 0 <==>
            ks == ls && forall i | 0 <= i < |ks| :: Equal(x.members[ks[i]], y.members[ks[i]])
    decreases x, 0, |ks|
  {
    if ks != [] && ls != [] {
      StrLessTotal(ks[0], ls[0]);
      EqualIsCmp(x.members[ks[0]], y.members[ls[0]]);
      EqualMembersIsCmp(x, y, ks[1..], ls[1..]);
      assert ks == ls <==> ks[0] == ls[0] && ks[1..] == ls[1..] by {
        assert ks == [ks[0]] + ks[1..] && ls == [ls[0]] + ls[1..];
      }
      if ks == ls { EqualAlong(x.members, y.members, ks); }
    }
  }

  lemma EqualAlong(m: map<string, Json>, n: map<string, Json>, ks: seq<string>)
    requires ks != [] && forall i | 0 <= i < |ks| :: ks[i] in m && ks[i] in n
    ensures (forall i | 0 <= i < |ks| :: Equal(m[ks[i]], n[ks[i]])) <==>
            Equal(m[ks[0]], n[ks[0]]) && forall i | 0 <= i < |ks[1..]| :: Equal(m[ks[1..][i]], n[ks[1..][i]])
  {
    assert forall i | 1 <= i < |ks| :: ks[i] == ks[1..][i - 1];
  }

  /** `a <= b <= c` gives `a <= c`, strictly where one of the two is strict. */
  predicate Chained(ab: int, bc: int, ac: int) {
    ab <= 0 && bc <= 0 ==> ac <= 0 && (ab < 0 || bc < 0 ==> ac < 0)
  }

  lemma CmpStrChain(a: string, b: string, c: string)
    ensures Chained(CmpStr(a, b), CmpStr(b, c), CmpStr(a, c))
    ensures CmpStr(a, b) == 0 <==> a == b
  {
    StrLessTotal(a, b);
    StrLessTotal(b, c);
    StrLessTotal(a, c);
    if StrLess(a, b) && StrLess(b, c) { StrLessTransitive(a, b, c); }
  }

  /** Values of different rank are ordered by rank and never equal, floating-point and binary values
      included: null < boolean < number < object < array < string < binary. */
  lemma LessByRank(x: Json, y: Json)
    requires TypeRank(TypeOf(x)) != TypeRank(TypeOf(y))
    ensures Less(x, y) <==> TypeRank(TypeOf(x)) < TypeRank(TypeOf(y))
    ensures !Equal(x, y)
  {}

  lemma RankChain(a: int, b: int, c: int, ab: int, bc: int, ac: int)
    requires CmpInt(a, b) != 0 ==> ab == CmpInt(a, b)
    requires CmpInt(b, c) != 0 ==> bc == CmpInt(b, c)
    requires CmpInt(a, c) != 0 ==> ac == CmpInt(a, c)
    requires a != b || b != c
    ensures Chained(ab, bc, ac)
  {}

  lemma PrimitiveChain(x: Json, y: Json, z: Json)
    requires Orderable(x) && Orderable(y) && Orderable(z)
    requires TypeRank(TypeOf(x)) == TypeRank(TypeOf(y)) == TypeRank(TypeOf(z)) && IsPrimitive(x)
    ensures Chained(Cmp(x, y), Cmp(y, z), Cmp(x, z))
  {
    if x.Str? {
      CmpStrChain(x.s, y.s, z.s);
    } else if x.Int? || x.UInt? {
      NumberChain(x, y, z);
    }
  }

  lemma NumberChain(x: Json, y: Json, z: Json)
    requires forall j | j in {x, y, z} :: j.Int? || j.UInt?
    ensures Chained(Cmp(x, y), Cmp(y, z), Cmp(x, z))
  {
    assert x in {x, y, z} && y in {x, y, z} && z in {x, y, z};
    assert Cmp(x, y) == CmpInt(Num(x), Num(y));
    assert Cmp(y, z) == CmpInt(Num(y), Num(z));
    assert Cmp(x, z) == CmpInt(Num(x), Num(z));
  }

  lemma {:induction false} CmpChain(x: Json, y: Json, z: Json)
    requires Orderable(x) && Orderable(y) && Orderable(z)
    ensures Chained(Cmp(x, y), Cmp(y, z), Cmp(x, z))
    decreases x, 1, 0
  {
    var a, b, c := TypeRank(TypeOf(x)), TypeRank(TypeOf(y)), TypeRank(TypeOf(z));
    if a != b || b != c {
      RanksDecide(x, y);
      RanksDecide(y, z);
      RanksDecide(x, z);
      RankChain(a, b, c, Cmp(x, y), Cmp(y, z), Cmp(x, z));
    } else if x.Arr? {
      CmpElemsChain(x, y, z, 0);
    } else if x.Obj? {
      CmpMembersChain(x, y, z, SortedKeys(x.members.Keys), SortedKeys(y.members.Keys), SortedKeys(z.members.Keys));
    } else {
      PrimitiveChain(x, y, z);
    }
  }

  lemma {:induction false} CmpElemsChain(x: Json, y: Json, z: Json, i: nat)
    requires x.Arr? && y.Arr? && z.Arr? && Orderable(x) && Orderable(y) && Orderable(z)
    ensures Chained(CmpElems(x, y, i), CmpElems(y, z, i), CmpElems(x, z, i))
    decreases x, 0, |x.elems| - i
  {
    if i < |x.elems| && i < |y.elems| && i < |z.elems| {
      CmpChain(x.elems[i], y.elems[i], z.elems[i]);
      CmpElemsChain(x, y, z, i + 1);
    }
  }

  lemma {:induction false} CmpMembersChain(x: Json, y: Json, z: Json, ks: seq<string>, ls: seq<string>, ms: seq<string>)
    requires Listed(x, ks) && Listed(y, ls) && Listed(z, ms)
    requires Orderable(x) && Orderable(y) && Orderable(z)
    ensures Chained(CmpMembers(x, y, ks, ls), CmpMembers(y, z, ls, ms), CmpMembers(x, z, ks, ms))
    decreases x, 0, |ks|
  {
    if ks != [] && ls != [] && ms != [] {
      CmpStrChain(ks[0], ls[0], ms[0]);
      CmpStrChain(ls[0], ms[0], ks[0]);
      CmpStrChain(ks[0], ms[0], ls[0]);
      CmpChain(x.members[ks[0]], y.members[ls[0]], z.members[ms[0]]);
      CmpMembersChain(x, y, z, ks[1..], ls[1..], ms[1..]);
    }
  }

  /** On orderable documents `operator<` is trichotomous with `operator==`: exactly one of x < y,
      x == y and y < x holds. */
  lemma OrderTrichotomy(x: Json, y: Json)
    requires Orderable(x) && Orderable(y)
    ensures Less(x, y) || Equal(x, y) || Less(y, x)
    ensures !(Less(x, y) && Equal(x, y)) && !(Equal(x, y) && Less(y, x)) && !(Less(x, y) && Less(y, x))
  {
    LessIsCmp(x, y);
    LessIsCmp(y, x);
    EqualIsCmp(x, y);
    CmpSwap(x, y);
  }

  /** It is transitive, equality is an equivalence, and equal documents compare alike. */
  lemma OrderTransitive(x: Json, y: Json, z: Json)
    requires Orderable(x) && Orderable(y) && Orderable(z)
    ensures Less(x, y) && Less(y, z) ==> Less(x, z)
    ensures Equal(x, y) && Less(y, z) ==> Less(x, z)
    ensures Less(x, y) && Equal(y, z) ==> Less(x, z)
    ensures Equal(x, y) && Equal(y, z) ==> Equal(x, z)
    ensures Equal(x, y) <==> Equal(y, x)
  {
    LessIsCmp(x, y);
    LessIsCmp(y, z);
    LessIsCmp(x, z);
    EqualIsCmp(x, y);
    EqualIsCmp(y, x);
    EqualIsCmp(y, z);
    EqualIsCmp(x, z);
    CmpSwap(x, y);
    CmpSwap(y, z);
    CmpSwap(x, z);
    CmpChain(x, y, z);
    CmpChain(z, y, x);
  }

  // ------------------------------------------------- exactly the orderable documents

  /** No floating-point number and no binary value anywhere. */
  predicate Discrete(j: Json) {
    match j
    case Arr(a) => forall i | 0 <= i < |a| :: Discrete(a[i])
    case Obj(m) => forall k <- m.Keys :: Discrete(m[k])
    case Float(_) => false
    case Bin(_, _) => false
    case _ => true
  }

  /** The laws of a strict total order that agrees with equality, for three documents. */
  predicate Laws(x: Json, y: Json, z: Json) {
    && (Less(x, y) || Equal(x, y) || Less(y, x))
    && !(Less(x, y) && Equal(x, y)) && !(Equal(x, y) && Less(y, x)) && !(Less(x, y) && Less(y, x))
    && (Less(x, y) && Less(y, z) ==> Less(x, z))
    && (Equal(x, y) && Less(y, z) ==> Less(x, z))
    && (Less(x, y) && Equal(y, z) ==> Less(x, z))
    && (Equal(x, y) && Equal(y, z) ==> Equal(x, z))
    && (Equal(x, y) <==> Equal(y, x))
  }

  /** The laws with `x` in each place. */
  predicate LawsWith(x: Json, y: Json, z: Json) { Laws(x, y, z) && Laws(y, x, z) && Laws(y, z, x) }

  lemma OrderableLaws(x: Json, y: Json, z: Json)
    requires Orderable(x) && Orderable(y) && Orderable(z)
    ensures Laws(x, y, z)
  {
    OrderTrichotomy(x, y);
    OrderTransitive(x, y, z);
  }

  /** The document with every large unsigned number replaced by the signed one it is cast to. */
  function Signed(j: Json): Json {
    match j
    case UInt(u) => if u < 0x8000_0000_0000_0000 then j else Int(ToSigned(u))
    case Arr(a) => Arr(seq(|a|, i requires 0 <= i < |a| => Signed(a[i])))
    case Obj(m) => Obj(map k | k in m :: Signed(m[k]))
    case _ => j
  }

  lemma {:induction false} SignedLaws(j: Json)
    requires Discrete(j)
    ensures Orderable(Signed(j)) && Equal(j, Signed(j)) && (Orderable(j) ==> Signed(j) == j)
  {
    match j
    case Arr(a) =>
      forall i | 0 <= i < |a|
        ensures Orderable(Signed(a[i])) && Equal(a[i], Signed(a[i])) && (Orderable(a[i]) ==> Signed(a[i]) == a[i])
      {
        SignedLaws(a[i]);
      }
    case Obj(m) =>
      forall k | k in m
        ensures Orderable(Signed(m[k])) && Equal(m[k], Signed(m[k])) && (Orderable(m[k]) ==> Signed(m[k]) == m[k])
      {
        SignedLaws(m[k]);
      }
    case _ =>
  }

  /** The first of some values that is not orderable. */
  function FirstBad(values: seq<Json>): (b: nat)
    requires exists i :: 0 <= i < |values| && !Orderable(values[i])
    ensures b < |values| && !Orderable(values[b])
    ensures forall i | 0 <= i < b :: Orderable(values[i])
  {
    if !Orderable(values[0]) then 0 else 1 + FirstBad(values[1..])
  }

  function MemberValues(m: map<string, Json>, keys: seq<string>): (values: seq<Json>)
    requires forall i | 0 <= i < |keys| :: keys[i] in m
    ensures |values| == |keys| && forall i | 0 <= i < |keys| :: values[i] == m[keys[i]]
  {
    seq(|keys|, i requires 0 <= i < |keys| => m[keys[i]])
  }

  lemma BadMember(m: map<string, Json>)
    requires !Orderable(Obj(m))
    ensures exists i :: 0 <= i < |SortedKeys(m.Keys)| && !Orderable(MemberValues(m, SortedKeys(m.Keys))[i])
  {
    var keys := SortedKeys(m.Keys);
    var k :| k in m && !Orderable(m[k]);
    var i :| 0 <= i < |keys| && keys[i] == k;
    assert MemberValues(m, keys)[i] == m[k];
  }

  function BadKey(m: map<string, Json>): (k: string)
    requires !Orderable(Obj(m))
    ensures k in m && !Orderable(m[k])
  {
    BadMember(m);
    SortedKeys(m.Keys)[FirstBad(MemberValues(m, SortedKeys(m.Keys)))]
  }

  lemma BadPlace(m: map<string, Json>) returns (b: nat)
    requires !Orderable(Obj(m))
    ensures b < |SortedKeys(m.Keys)| && SortedKeys(m.Keys)[b] == BadKey(m)
    ensures forall i | 0 <= i < b :: Orderable(m[SortedKeys(m.Keys)[i]])
  {
    BadMember(m);
    b := FirstBad(MemberValues(m, SortedKeys(m.Keys)));
  }

  /** The signed form again, but with the first large unsigned number replaced by zero. */
  function Lowered(j: Json): Json
    requires Discrete(j) && !Orderable(j)
  {
    match j
    case UInt(_) => UInt(0)
    case Arr(a) => Arr(Signed(j).elems[FirstBad(a) := Lowered(a[FirstBad(a)])])
    case Obj(m) => Obj(Signed(j).members[BadKey(m) := Lowered(m[BadKey(m)])])
  }

  lemma Irreflexive(x: Json)
    requires Orderable(x)
    ensures !Less(x, x)
  {
    EqualReflexive(x);
    OrderTrichotomy(x, x);
  }

  /** A difference after a common orderable prefix decides. */
  lemma {:induction false} ElemsDecide(x: Json, y: Json, i: nat, b: nat)
    requires x.Arr? && y.Arr? && i <= b < |x.elems| && b < |y.elems|
    requires forall k | i <= k < b :: x.elems[k] == y.elems[k] && Orderable(x.elems[k])
    requires Less(x.elems[b], y.elems[b])
    ensures ElemsLess(x, y, i)
    decreases b - i
  {
    if i < b {
      Irreflexive(x.elems[i]);
      ElemsDecide(x, y, i + 1, b);
    }
  }

  lemma {:induction false} MembersDecide(x: Json, y: Json, ks: seq<string>, b: nat)
    requires Listed(x, ks) && Listed(y, ks) && b < |ks|
    requires forall k | 0 <= k < b :: x.members[ks[k]] == y.members[ks[k]] && Orderable(x.members[ks[k]])
    requires Less(x.members[ks[b]], y.members[ks[b]])
    ensures MembersLess(x, y, ks, ks)
    decreases b
  {
    StrLessTotal(ks[0], ks[0]);
    if b > 0 {
      Irreflexive(x.members[ks[0]]);
      MembersDecide(x, y, ks[1..], b - 1);
    }
  }

  /** The signed form is below the lowered one, which is below the document: a cycle, for the document
      equals its signed form. */
  lemma {:induction false} LoweredBetween(j: Json)
    requires Discrete(j) && !Orderable(j)
    ensures Orderable(Lowered(j)) && Less(Lowered(j), j) && Less(Signed(j), Lowered(j))
    decreases j
  {
    match j
    case UInt(_) =>
    case Arr(a) => LoweredArr(j);
    case Obj(m) => LoweredObj(j);
  }

  lemma ArrDecides(x: Json, y: Json, b: nat)
    requires x.Arr? && y.Arr? && b < |x.elems| && b < |y.elems|
    requires forall k | 0 <= k < b :: x.elems[k] == y.elems[k] && Orderable(x.elems[k])
    requires Less(x.elems[b], y.elems[b])
    ensures Less(x, y)
  {
    ElemsDecide(x, y, 0, b);
  }

  lemma ObjDecides(x: Json, y: Json, ks: seq<string>, b: nat)
    requires x.Obj? && y.Obj? && x.members.Keys == y.members.Keys && ks == SortedKeys(x.members.Keys) && b < |ks|
    requires forall k | 0 <= k < b :: x.members[ks[k]] == y.members[ks[k]] && Orderable(x.members[ks[k]])
    requires Less(x.members[ks[b]], y.members[ks[b]])
    ensures Less(x, y)
  {
    MembersDecide(x, y, ks, b);
  }

  lemma SignedElems(a: seq<Json>)
    requires forall i | 0 <= i < |a| :: Discrete(a[i])
    ensures forall i | 0 <= i < |a| :: Orderable(Signed(a[i])) && (Orderable(a[i]) ==> Signed(a[i]) == a[i])
  {
    forall i | 0 <= i < |a| ensures Orderable(Signed(a[i])) && (Orderable(a[i]) ==> Signed(a[i]) == a[i]) {
      SignedLaws(a[i]);
    }
  }

  lemma {:induction false} LoweredArr(j: Json)
    requires Discrete(j) && !Orderable(j) && j.Arr?
    ensures Orderable(Lowered(j)) && Less(Lowered(j), j) && Less(Signed(j), Lowered(j))
    decreases j, 0
  {
    var a, signed, b := j.elems, Signed(j).elems, FirstBad(j.elems);
    var v := Lowered(a[b]);
    LoweredBetween(a[b]);
    SignedElems(a);
    RaisedElem(signed, b, v);
    LoweredElem(signed, a, b, v);
    ExchangedElem(signed, b, v);
  }

  lemma RaisedElem(a: seq<Json>, b: nat, v: Json)
    requires b < |a| && Less(a[b], v)
    requires forall i | 0 <= i < b :: Orderable(a[i])
    ensures Less(Arr(a), Arr(a[b := v]))
  {
    ArrDecides(Arr(a), Arr(a[b := v]), b);
  }

  lemma LoweredElem(signed: seq<Json>, a: seq<Json>, b: nat, v: Json)
    requires |signed| == |a| && b < |a| && Less(v, a[b])
    requires forall i | 0 <= i < b :: Orderable(a[i]) && signed[i] == a[i]
    ensures Less(Arr(signed[b := v]), Arr(a))
  {
    ArrDecides(Arr(signed[b := v]), Arr(a), b);
  }

  lemma ExchangedElem(a: seq<Json>, b: nat, v: Json)
    requires b < |a| && Orderable(v) && forall i | 0 <= i < |a| :: Orderable(a[i])
    ensures Orderable(Arr(a[b := v]))
  {}

  lemma SignedMembers(m: map<string, Json>)
    requires forall k <- m.Keys :: Discrete(m[k])
    ensures forall k <- m.Keys :: Orderable(Signed(m[k])) && (Orderable(m[k]) ==> Signed(m[k]) == m[k])
  {
    forall k | k in m.Keys ensures Orderable(Signed(m[k])) && (Orderable(m[k]) ==> Signed(m[k]) == m[k]) {
      SignedLaws(m[k]);
    }
  }

  /** Exchanging the value under one key of a map, after which the keys before it still decide nothing. */
  lemma ExchangedBefore(m: map<string, Json>, keys: seq<string>, b: nat, v: Json)
    requires keys == SortedKeys(m.Keys) && b < |keys|
    ensures m[keys[b] := v].Keys == m.Keys && forall i | 0 <= i < b :: m[keys[b] := v][keys[i]] == m[keys[i]]
  {
    SortedDistinct(keys, m.Keys);
    assert m[keys[b] := v].Keys == m.Keys;
  }

  lemma RaisedMember(m: map<string, Json>, keys: seq<string>, b: nat, v: Json)
    requires keys == SortedKeys(m.Keys) && b < |keys| && Less(m[keys[b]], v)
    requires forall i | 0 <= i < b :: Orderable(m[keys[i]])
    ensures Less(Obj(m), Obj(m[keys[b] := v]))
  {
    ExchangedBefore(m, keys, b, v);
    ObjDecides(Obj(m), Obj(m[keys[b] := v]), keys, b);
  }

  lemma LoweredMember(signed: map<string, Json>, m: map<string, Json>, keys: seq<string>, b: nat, v: Json)
    requires keys == SortedKeys(m.Keys) && signed.Keys == m.Keys && b < |keys| && Less(v, m[keys[b]])
    requires forall i | 0 <= i < b :: Orderable(m[keys[i]]) && signed[keys[i]] == m[keys[i]]
    ensures Less(Obj(signed[keys[b] := v]), Obj(m))
  {
    ExchangedBefore(signed, keys, b, v);
    ObjDecides(Obj(signed[keys[b] := v]), Obj(m), keys, b);
  }

  lemma ExchangedMember(m: map<string, Json>, k: string, v: Json)
    requires Orderable(v) && forall l <- m.Keys :: Orderable(m[l])
    ensures Orderable(Obj(m[k := v]))
  {}

  lemma LoweredAt(m: map<string, Json>, signed: map<string, Json>, v: Json)
    requires !Orderable(Obj(m)) && signed.Keys == m.Keys && Less(signed[BadKey(m)], v) && Less(v, m[BadKey(m)])
    requires forall k <- m.Keys :: Orderable(m[k]) ==> signed[k] == m[k]
    ensures Less(Obj(signed), Obj(signed[BadKey(m) := v])) && Less(Obj(signed[BadKey(m) := v]), Obj(m))
  {
    var keys := SortedKeys(m.Keys);
    var b := BadPlace(m);
    RaisedMember(signed, keys, b, v);
    LoweredMember(signed, m, keys, b, v);
  }

  lemma {:induction false} LoweredObj(j: Json)
    requires Discrete(j) && !Orderable(j) && j.Obj?
    ensures Orderable(Lowered(j)) && Less(Lowered(j), j) && Less(Signed(j), Lowered(j))
    decreases j, 0
  {
    var m, k := j.members, BadKey(j.members);
    LoweredBetween(m[k]);
    SignedMembers(m);
    LoweredAt(m, Signed(j).members, Lowered(m[k]));
    ExchangedMember(Signed(j).members, k, Lowered(m[k]));
  }

  /** The exact domain: among documents without floating-point and binary values, the laws hold with a
      document against all orderable ones if and only if it is orderable itself, that is if it has no
      unsigned number of 2^63 or more. */
  lemma OrderableExact(x: Json)
    requires Discrete(x)
    ensures Orderable(x) <==> forall y, z | Orderable(y) && Orderable(z) :: LawsWith(x, y, z)
  {
    if Orderable(x) {
      forall y, z | Orderable(y) && Orderable(z) ensures LawsWith(x, y, z) {
        OrderableLaws(x, y, z);
        OrderableLaws(y, x, z);
        OrderableLaws(y, z, x);
      }
    } else {
      var y, z := Lowered(x), Signed(x);
      LoweredBetween(x);
      SignedLaws(x);
      OrderTrichotomy(y, z);
      assert !Laws(y, x, z);
      assert !LawsWith(x, y, z);
    }
  }

  /** Without the bound on unsigned numbers the law fails: the cast to a signed number closes a cycle
      1 < 2^64 - 1 == -1 < 1. */
  lemma LargeUnsignedCycle()
    ensures var one, huge, minusOne := UInt(1), UInt(0xFFFF_FFFF_FFFF_FFFF), Int(-1);
            Less(one, huge) && Equal(huge, minusOne) && Less(minusOne, one)
  {}

  /** The exact limit of the cycle: it exists for an unsigned number if and only if the cast changes it. */
  lemma LargeUnsignedExact(u: u64)
    ensures u >= 0x8000_0000_0000_0000 <==>
            exists v: u64, i: i64 :: Less(UInt(v), UInt(u)) && Equal(UInt(u), Int(i)) && Less(Int(i), UInt(v))
  {
    if u >= 0x8000_0000_0000_0000 {
      var v: u64, i: i64 := 0, ToSigned(u);
      assert Less(UInt(v), UInt(u)) && Equal(UInt(u), Int(i)) && Less(Int(i), UInt(v));
    }
  }

  /** With floating-point numbers equality is not transitive: 2^53 + 1 is rounded to 2^53. */
  lemma FloatBreaksLaws()
    ensures var n, m := Int(0x20_0000_0000_0001), Int(0x20_0000_0000_0000);
            var d := Float(Finite(0x20_0000_0000_0000 as real));
            Equal(n, d) && Equal(d, m) && Less(m, n) && !Laws(n, d, m)
  {
    var m, n := 0x20_0000_0000_0000, 0x20_0000_0000_0001;
    assert Rounding.Unit(n, m) == 2 * Rounding.Unit(n / 2, m) == 2;
    assert Rounding.Unit(m, m) == 2 * Rounding.Unit(m / 2, m) == 2;
  }

  /** Two numbers that are equal to one floating-point number are the same. */
  ghost predicate FloatsTell(x: Json)
    requires x.Int? || x.UInt?
  {
    forall d: Double, y: Json | (y.Int? || y.UInt?) && Equal(x, Float(d)) && Equal(Float(d), y) :: Num(y) == Num(x)
  }

  lemma NumberOf(n: int) returns (y: Json)
    requires SharedDouble.IsNumber(n)
    ensures (y.Int? || y.UInt?) && Num(y) == n && Equal(Float(ToDouble(n)), y)
  {
    y := if n < 0 then Int(n) else UInt(n);
  }

  lemma RealInjective(a: int, b: int)
    requires a as real == b as real
    ensures a == b
  {}

  /** The exact limit: floating-point numbers keep `==` transitive for an integer if and only if it is below
      2^53, or below 2^54 and twice an odd number, in magnitude. */
  lemma FloatExact(x: Json)
    requires x.Int? || x.UInt?
    ensures SharedDouble.Apart(Num(x)) <==> FloatsTell(x)
  {
    var n := Num(x);
    SharedDouble.SharesExact(n);
    if SharedDouble.Apart(n) {
      forall d: Double, y: Json | (y.Int? || y.UInt?) && Equal(x, Float(d)) && Equal(Float(d), y) ensures Num(y) == n {
        SameDouble(n, Num(y));
        assert !SharedDouble.Shares(n, Num(y));
      }
    } else {
      var m :| SharedDouble.Shares(n, m);
      var y := NumberOf(m);
      assert Equal(x, Float(ToDouble(n))) && Equal(Float(ToDouble(n)), y);
    }
  }

  lemma SameDouble(n: int, m: int)
    requires ToDouble(n) == ToDouble(m)
    ensures Rounding.Round(n, SharedDouble.LIMIT) == Rounding.Round(m, SharedDouble.LIMIT)
  {
    RealInjective(Rounding.Round(n, SharedDouble.LIMIT), Rounding.Round(m, SharedDouble.LIMIT));
  }

  lemma {:induction false} BytesLessTotal(a: seq<u8>, b: seq<u8>)
    ensures BytesLess(a, b) || a == b || BytesLess(b, a)
    ensures !(BytesLess(a, b) && BytesLess(b, a)) && !BytesLess(a, a)
    decreases |a|
  {
    if a != [] && b != [] {
      BytesLessTotal(a[1..], b[1..]);
      assert a == [a[0]] + a[1..] && b == [b[0]] + b[1..];
    } else if a != [] {
      BytesLessTotal(a[1..], a[1..]);
    }
  }

  /** The exact limit: binary values are trichotomous if and only if they do not differ in their subtype only. */
  lemma SubtypeExact(x: Json, y: Json)
    requires x.Bin? && y.Bin?
    ensures !(x.bytes == y.bytes && x.subtype != y.subtype) <==> Less(x, y) || Equal(x, y) || Less(y, x)
    ensures !(Less(x, y) && Equal(x, y)) && !(Equal(x, y) && Less(y, x)) && !(Less(x, y) && Less(y, x))
  {
    BytesLessTotal(x.bytes, y.bytes);
  }

  /** Binary values that differ in their subtype only are neither equal nor ordered. */
  lemma SubtypeBreaksLaws()
    ensures var x, y := Bin([], None), Bin([], Some(0));
            !Less(x, y) && !Equal(x, y) && !Less(y, x)
  {}

  /** The exact limit: an unsigned number is ordered numerically against all integers if and only if
      the cast to a signed number leaves it alone. */
  lemma UnsignedOrderExact(u: u64)
    ensures u < 0x8000_0000_0000_0000 <==>
            forall j: Json | j.Int? || j.UInt? :: Less(UInt(u), j) <==> u < Num(j)
  {
    if u >= 0x8000_0000_0000_0000 {
      var zero := Int(0);
      assert Less(UInt(u), zero) && !(u < Num(zero));
    }
  }
}
