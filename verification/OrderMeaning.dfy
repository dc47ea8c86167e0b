/** What `operator<` of 3rdparty/nlohmann/json.hpp compares, kind by kind, said of the values themselves:
    by kind, as numbers, and by the first difference of strings, bytes, arrays and objects. */
module OrderMeaning {
  import opened Wrappers
  import opened Text
  import opened JsonValue
  import opened JsonOrder
  import opened JsonEquality

  // ------------------------------------------------- kinds

  predicate IsNumeric(j: Json) { j.Int? || j.UInt? || j.Float? }

  predicate SameKind(x: Json, y: Json) { (IsNumeric(x) && IsNumeric(y)) || TypeOf(x) == TypeOf(y) }

  /** null < boolean < number < object < array < string < binary. */
  predicate KindBelow(x: Json, y: Json) {
    || (x.Null? && !y.Null?)
    || (x.Bool? && (IsNumeric(y) || y.Obj? || y.Arr? || y.Str? || y.Bin?))
    || (IsNumeric(x) && (y.Obj? || y.Arr? || y.Str? || y.Bin?))
    || (x.Obj? && (y.Arr? || y.Str? || y.Bin?))
    || (x.Arr? && (y.Str? || y.Bin?))
    || (x.Str? && y.Bin?)
  }

  /** Values of different kind are ordered by kind, and never equal. */
  lemma LessByKind(x: Json, y: Json)
    requires !SameKind(x, y)
    ensures (Less(x, y) <==> KindBelow(x, y)) && !Equal(x, y)
  {}

  // ------------------------------------------------- numbers and booleans

  /** The order of binary64, on the numbers meant. */
  predicate Below(d: Double, e: Double) {
    d != e && (d.NegInf? || e.PosInf? || (d.Finite? && e.Finite? && d.r < e.r))
  }

  lemma LessNumbers(x: Json, y: Json)
    ensures x.Bool? && y.Bool? ==> (Less(x, y) <==> !x.b && y.b)
    ensures x.Int? && y.Int? ==> (Less(x, y) <==> x.i < y.i)
    ensures x.UInt? && y.UInt? ==> (Less(x, y) <==> x.u < y.u)
    ensures x.Float? && y.Float? ==> (Less(x, y) <==> Below(x.d, y.d))
    ensures (x.Int? || x.UInt?) && y.Float? ==> (Less(x, y) <==> Below(ToDouble(Num(x)), y.d))
    ensures x.Float? && (y.Int? || y.UInt?) ==> (Less(x, y) <==> Below(x.d, ToDouble(Num(y))))
    ensures x.Null? && y.Null? ==> !Less(x, y)
  {}

  /** A signed and an unsigned number: the unsigned one counts as the signed one that is the same modulo 2^64. */
  lemma LessMixed(i: i64, u: u64, k: i64)
    requires (u - k) % 0x1_0000_0000_0000_0000 == 0
    ensures Less(Int(i), UInt(u)) <==> i < k
    ensures Less(UInt(u), Int(i)) <==> k < i
  {
    SignedIsCongruent(u, k);
  }

  // ------------------------------------------------- strings and bytes

  /** The two agree up to `k`, where the first ends or has the smaller character. */
  predicate StrDiffersAt(a: string, b: string, k: nat) {
    && k <= |a| && k < |b| && a[..k] == b[..k] && (k < |a| ==> a[k] < b[k])
  }

  lemma {:induction false} StrLessExact(a: string, b: string)
    ensures StrLess(a, b) <==> exists k: nat :: StrDiffersAt(a, b, k)
  {
    if b != [] && a == [] { assert StrDiffersAt(a, b, 0); }
    if a != [] && b != [] {
      StrLessExact(a[1..], b[1..]);
      if a[0] < b[0] { assert StrDiffersAt(a, b, 0); }
      if k: nat :| StrDiffersAt(a[1..], b[1..], k) {
        if a[0] == b[0] {
          assert a[..k + 1] == [a[0]] + a[1..][..k] && b[..k + 1] == [b[0]] + b[1..][..k];
          assert StrDiffersAt(a, b, k + 1);
        }
      }
      if k: nat :| StrDiffersAt(a, b, k) {
        if k > 0 { StrDiffersLater(a, b, k); }
      }
    }
  }

  lemma StrDiffersLater(a: string, b: string, k: nat)
    requires 0 < k && StrDiffersAt(a, b, k)
    ensures a[0] == b[0] && StrDiffersAt(a[1..], b[1..], k - 1)
  {
    assert a[0] == a[..k][0] && b[0] == b[..k][0];
    assert a[1..][..k - 1] == a[..k][1..] && b[1..][..k - 1] == b[..k][1..];
  }

  predicate BytesDifferAt(a: seq<u8>, b: seq<u8>, k: nat) {
    && k <= |a| && k < |b| && a[..k] == b[..k] && (k < |a| ==> a[k] < b[k])
  }

  lemma {:induction false} BytesLessExact(a: seq<u8>, b: seq<u8>)
    ensures BytesLess(a, b) <==> exists k: nat :: BytesDifferAt(a, b, k)
  {
    if b != [] && a == [] { assert BytesDifferAt(a, b, 0); }
    if a != [] && b != [] {
      BytesLessExact(a[1..], b[1..]);
      if a[0] < b[0] { assert BytesDifferAt(a, b, 0); }
      if k: nat :| BytesDifferAt(a[1..], b[1..], k) {
        if a[0] == b[0] {
          assert a[..k + 1] == [a[0]] + a[1..][..k] && b[..k + 1] == [b[0]] + b[1..][..k];
          assert BytesDifferAt(a, b, k + 1);
        }
      }
      if k: nat :| BytesDifferAt(a, b, k) {
        if k > 0 { BytesDifferLater(a, b, k); }
      }
    }
  }

  lemma BytesDifferLater(a: seq<u8>, b: seq<u8>, k: nat)
    requires 0 < k && BytesDifferAt(a, b, k)
    ensures a[0] == b[0] && BytesDifferAt(a[1..], b[1..], k - 1)
  {
    assert a[0] == a[..k][0] && b[0] == b[..k][0];
    assert a[1..][..k - 1] == a[..k][1..] && b[1..][..k - 1] == b[..k][1..];
  }

  /** Strings and binary values are ordered by their first difference. */
  lemma LessTexts(x: Json, y: Json)
    ensures x.Str? && y.Str? ==> (Less(x, y) <==> exists k: nat :: StrDiffersAt(x.s, y.s, k))
    ensures x.Bin? && y.Bin? ==> (Less(x, y) <==> exists k: nat :: BytesDifferAt(x.bytes, y.bytes, k))
  {
    if x.Str? && y.Str? { StrLessExact(x.s, y.s); }
    if x.Bin? && y.Bin? { BytesLessExact(x.bytes, y.bytes); }
  }

  // ------------------------------------------------- arrays and objects

  predicate Tied(x: Json, y: Json) { !Less(x, y) && !Less(y, x) }

  /** From `i` on the elements are tied up to `k`, where the first array ends or has the smaller element. */
  predicate ElemsDifferAt(x: Json, y: Json, i: nat, k: nat)
    requires x.Arr? && y.Arr?
  {
    && i <= k <= |x.elems| && k < |y.elems|
    && (forall n | i <= n < k :: Tied(x.elems[n], y.elems[n]))
    && (k < |x.elems| ==> Less(x.elems[k], y.elems[k]))
  }

  lemma {:induction false} ElemsLessExact(x: Json, y: Json, i: nat)
    requires x.Arr? && y.Arr? && i <= |x.elems|
    ensures ElemsLess(x, y, i) <==> exists k: nat :: ElemsDifferAt(x, y, i, k)
    decreases |x.elems| - i
  {
    if i < |y.elems| {
      if i == |x.elems| || Less(x.elems[i], y.elems[i]) {
        assert ElemsDifferAt(x, y, i, i);
      } else {
        var next := i + 1;
        ElemsLessExact(x, y, next);
        if k: nat :| ElemsDifferAt(x, y, next, k) {
          if Tied(x.elems[i], y.elems[i]) { assert ElemsDifferAt(x, y, i, k); }
        }
        if k: nat :| ElemsDifferAt(x, y, i, k) { ElemsDifferLater(x, y, i, k); }
      }
    }
  }

  lemma ElemsDifferLater(x: Json, y: Json, i: nat, k: nat)
    requires x.Arr? && y.Arr? && i < |x.elems| && i < |y.elems| && !Less(x.elems[i], y.elems[i])
    requires ElemsDifferAt(x, y, i, k)
    ensures Tied(x.elems[i], y.elems[i]) && ElemsDifferAt(x, y, i + 1, k)
  {}

  /** Arrays are ordered by the first position at which they are not tied; a beginning comes first. */
  lemma LessArrays(x: Json, y: Json)
    requires x.Arr? && y.Arr?
    ensures Less(x, y) <==> exists k: nat :: ElemsDifferAt(x, y, 0, k)
  {
    ElemsLessExact(x, y, 0);
  }

  /** The members are tied up to the `k`-th in key order, where the first object ends, has the smaller key, or
      the same key with the smaller value. */
  predicate MembersDifferAt(x: Json, y: Json, ks: seq<string>, ls: seq<string>, k: nat)
    requires Listed(x, ks) && Listed(y, ls)
  {
    && k <= |ks| && k < |ls|
    && (forall n | 0 <= n < k :: ks[n] == ls[n] && Tied(x.members[ks[n]], y.members[ls[n]]))
    && (k < |ks| ==> StrLess(ks[k], ls[k]) || (ks[k] == ls[k] && Less(x.members[ks[k]], y.members[ls[k]])))
  }

  lemma PairExact(x: Json, k: string, y: Json, l: string)
    requires x.Obj? && y.Obj? && k in x.members && l in y.members
    ensures PairLess(x, k, y, l) <==> StrLess(k, l) || (k == l && Less(x.members[k], y.members[l]))
    ensures !PairLess(x, k, y, l) && !PairLess(y, l, x, k) <==> k == l && Tied(x.members[k], y.members[l])
  {
    StrLessTotal(k, l);
  }

  lemma {:induction false} MembersLessExact(x: Json, y: Json, ks: seq<string>, ls: seq<string>)
    requires Listed(x, ks) && Listed(y, ls)
    ensures MembersLess(x, y, ks, ls) <==> exists k: nat :: MembersDifferAt(x, y, ks, ls, k)
    decreases |ks|
  {
    if ls != [] {
      if ks == [] {
        assert MembersDifferAt(x, y, ks, ls, 0);
      } else {
        PairExact(x, ks[0], y, ls[0]);
        if PairLess(x, ks[0], y, ls[0]) {
          assert MembersDifferAt(x, y, ks, ls, 0);
        } else {
          MembersLessExact(x, y, ks[1..], ls[1..]);
          if k: nat :| MembersDifferAt(x, y, ks[1..], ls[1..], k) {
            if !PairLess(y, ls[0], x, ks[0]) { MembersDifferSooner(x, y, ks, ls, k); }
          }
          if k: nat :| MembersDifferAt(x, y, ks, ls, k) { MembersDifferLater(x, y, ks, ls, k); }
        }
      }
    }
  }

  lemma MembersDifferSooner(x: Json, y: Json, ks: seq<string>, ls: seq<string>, k: nat)
    requires Listed(x, ks) && Listed(y, ls) && ks != [] && ls != []
    requires ks[0] == ls[0] && Tied(x.members[ks[0]], y.members[ls[0]])
    requires MembersDifferAt(x, y, ks[1..], ls[1..], k)
    ensures MembersDifferAt(x, y, ks, ls, k + 1)
  {
    forall n | 0 <= n < k + 1 ensures ks[n] == ls[n] && Tied(x.members[ks[n]], y.members[ls[n]]) {
      if n > 0 { assert ks[n] == ks[1..][n - 1] && ls[n] == ls[1..][n - 1]; }
    }
  }

  lemma MembersDifferLater(x: Json, y: Json, ks: seq<string>, ls: seq<string>, k: nat)
    requires Listed(x, ks) && Listed(y, ls) && ks != [] && ls != [] && !PairLess(x, ks[0], y, ls[0])
    requires MembersDifferAt(x, y, ks, ls, k)
    ensures k > 0 && !PairLess(y, ls[0], x, ks[0]) && MembersDifferAt(x, y, ks[1..], ls[1..], k - 1)
  {
    PairExact(x, ks[0], y, ls[0]);
    forall n | 0 <= n < k - 1 ensures ks[1..][n] == ls[1..][n] && Tied(x.members[ks[1..][n]], y.members[ls[1..][n]]) {
      assert ks[n + 1] == ks[1..][n] && ls[n + 1] == ls[1..][n];
    }
  }

  lemma LessIsMembersLess(x: Json, y: Json)
    requires x.Obj? && y.Obj?
    ensures Less(x, y) <==> MembersLess(x, y, SortedKeys(x.members.Keys), SortedKeys(y.members.Keys))
  {}

  /** Objects are ordered by their first differing member in key order. */
  lemma LessObjects(x: Json, y: Json)
    requires x.Obj? && y.Obj?
    ensures var ks, ls := SortedKeys(x.members.Keys), SortedKeys(y.members.Keys);
            Less(x, y) <==> exists k: nat :: MembersDifferAt(x, y, ks, ls, k)
  {
    var ks, ls := SortedKeys(x.members.Keys), SortedKeys(y.members.Keys);
    LessIsMembersLess(x, y);
    MembersLessExact(x, y, ks, ls);
  }
}
