/** Which documents survive `flatten` followed by `unflatten`
    (3rdparty/nlohmann/detail/json_pointer.hpp).  `unflatten` visits the flattened members in the order
    of their text and decides, when it first enters a container, by that one token whether the
    container is an array ("0") or an object (anything else). */
module FlattenRoundTrip {
  import opened Wrappers
  import opened Text
  import opened StringEscape
  import opened JsonPointer
  import opened JsonValue
  import opened JsonAccess
  import opened JsonFlatten

  // ------------------------------------------------- conditions on a document

  /** No empty array or object anywhere. */
  predicate NoEmpty(j: Json) {
    match j
    case Arr(a) => a != [] && forall i | 0 <= i < |a| :: NoEmpty(a[i])
    case Obj(m) => m != map[] && forall k <- m.Keys :: NoEmpty(m[k])
    case _ => true
  }

  /** Do the flattened entries below the member `k` come before those below a member "0" with the
      given value? Only the first characters count; '/' is the separator and sorts just below '0'. */
  predicate SortsBeforeZero(k: string, zero: Json) {
    && k != "0"
    && (|| k == ""
        || (k[0] < '0' && k[0] != '/')
        || (!IsLeaf(zero) && |k| >= 2 && k[0] == '0' && k[1] < '/'))
  }

  /** Every object that has a member "0" also has a member whose entries come before it. */
  predicate ZeroSafe(j: Json) {
    match j
    case Arr(a) => forall i | 0 <= i < |a| :: ZeroSafe(a[i])
    case Obj(m) =>
      && ("0" in m ==> exists k <- m.Keys :: SortsBeforeZero(k, m["0"]))
      && forall k <- m.Keys :: ZeroSafe(m[k])
    case _ => true
  }

  /** The document with its empty containers replaced by null. */
  function Nullify(j: Json): Json {
    if IsLeaf(j) then FlatValue(j)
    else match j
      case Arr(a) => Arr(seq(|a|, i requires 0 <= i < |a| => Nullify(a[i])))
      case Obj(m) => Obj(map k | k in m :: Nullify(m[k]))
  }

  lemma NullifyNoEmpty(j: Json)
    ensures NoEmpty(j) ==> Nullify(j) == j
    ensures Equal(Nullify(j), j) ==> NoEmpty(j)
  {
    match j
    case Arr(a) =>
      if a != [] {
        forall i | 0 <= i < |a|
          ensures NoEmpty(a[i]) ==> Nullify(a[i]) == a[i]
          ensures Equal(Nullify(a[i]), a[i]) ==> NoEmpty(a[i])
        {
          NullifyNoEmpty(a[i]);
        }
      }
    case Obj(m) =>
      if m != map[] {
        forall k | k in m
          ensures NoEmpty(m[k]) ==> Nullify(m[k]) == m[k]
          ensures Equal(Nullify(m[k]), m[k]) ==> NoEmpty(m[k])
        {
          NullifyNoEmpty(m[k]);
        }
      }
    case _ =>
  }

  // ------------------------------------------------- the document in mid-flight

  /** The visited pointers below the token `t`, without that token. */
  function Sub(visited: set<Tokens>, t: string): set<Tokens> {
    set p | p in visited && p != [] && p[0] == t :: p[1..]
  }

  lemma SubMember(visited: set<Tokens>, t: string, q: Tokens)
    ensures q in Sub(visited, t) <==> [t] + q in visited
  {
    assert ([t] + q)[1..] == q;
    if q in Sub(visited, t) {
      var p :| p in visited && p != [] && p[0] == t && p[1..] == q;
      assert p == [t] + q;
    }
  }

  lemma SubAdd(visited: set<Tokens>, p: Tokens, u: string)
    requires p != []
    ensures Sub(visited + {p}, u) == if u == p[0] then Sub(visited, u) + {p[1..]} else Sub(visited, u)
    ensures Sub({}, u) == {}
  {
    assert p == [p[0]] + p[1..];
    forall q ensures q in Sub(visited + {p}, u) <==> q in Sub(visited, u) || (u == p[0] && q == p[1..]) {
      SubMember(visited + {p}, u, q);
      SubMember(visited, u, q);
      assert ([u] + q)[0] == u && ([u] + q)[1..] == q;
    }
  }

  /** How many elements of an array have come into being. */
  function Extent(visited: set<Tokens>, n: nat): (e: nat)
    ensures e <= n
    ensures e > 0 ==> Sub(visited, Decimal(e - 1)) != {}
    ensures forall k | e <= k < n :: Sub(visited, Decimal(k)) == {}
  {
    if n == 0 then 0
    else if Sub(visited, Decimal(n - 1)) != {} then n
    else Extent(visited, n - 1)
  }

  /** What `unflatten` has built when the given leaves of `j` have been visited. */
  function Partial(j: Json, visited: set<Tokens>): Json
    decreases j, 1
  {
    if visited == {} then Null
    else if IsLeaf(j) then FlatValue(j)
    else match j
      case Arr(a) => Arr(PartialElems(a, visited))
      case Obj(m) => Obj(PartialMembers(j, visited))
  }

  function PartialElems(a: seq<Json>, visited: set<Tokens>): seq<Json>
    decreases a
  {
    seq(Extent(visited, |a|), i requires 0 <= i < |a| => Partial(a[i], Sub(visited, Decimal(i))))
  }

  function PartialMembers(j: Json, visited: set<Tokens>): map<string, Json>
    requires j.Obj?
    decreases j, 0
  {
    map k | k in j.members && Sub(visited, k) != {} :: Partial(j.members[k], Sub(visited, k))
  }

  /** Every container that the pointer `p` enters first, it enters with the right token. */
  predicate EntersRight(j: Json, visited: set<Tokens>, p: Tokens)
    decreases |p|
  {
    p != [] && Child(j, p[0]).Ok? ==>
      && (visited == {} ==> (j.Arr? <==> p[0] == "0"))
      && EntersRight(Child(j, p[0]).value, Sub(visited, p[0]), p[1..])
  }

  lemma ExtentAdd(visited: set<Tokens>, p: Tokens, n: nat)
    requires p != [] && ArrayIndex(p[0]).Ok? && ArrayIndex(p[0]).value < n <= SIZE_MAX
    ensures var e, idx := Extent(visited, n), ArrayIndex(p[0]).value;
            Extent(visited + {p}, n) == if idx < e then e else idx + 1
  {
    var e, idx, after := Extent(visited, n), ArrayIndex(p[0]).value, visited + {p};
    ArrayIndexExact(p[0]);
    forall k | 0 <= k < n ensures Sub(after, Decimal(k)) != {} <==> Sub(visited, Decimal(k)) != {} || k == idx {
      SubAdd(visited, p, Decimal(k));
      ArrayIndexDecimal(k);
    }
  }

  /** The resizing of `operator[](size_type)`. */
  function Grown(b: seq<Json>, idx: nat): seq<Json> {
    if idx < |b| then b else b + Nulls(idx + 1 - |b|)
  }

  lemma GrownElems(a: seq<Json>, visited: set<Tokens>, idx: nat)
    requires idx < |a|
    ensures var g := Grown(PartialElems(a, visited), idx);
            && |g| == (if idx < Extent(visited, |a|) then Extent(visited, |a|) else idx + 1)
            && forall k | 0 <= k < |g| :: g[k] == Partial(a[k], Sub(visited, Decimal(k)))
  {}

  lemma PartialElemsStep(a: seq<Json>, visited: set<Tokens>, p: Tokens)
    requires p != [] && ArrayIndex(p[0]).Ok? && ArrayIndex(p[0]).value < |a| <= SIZE_MAX
    ensures var idx := ArrayIndex(p[0]).value;
            var g := Grown(PartialElems(a, visited), idx);
            && g[idx] == Partial(a[idx], Sub(visited, p[0]))
            && PartialElems(a, visited + {p}) == g[idx := Partial(a[idx], Sub(visited, p[0]) + {p[1..]})]
  {
    var idx := ArrayIndex(p[0]).value;
    var g, w := Grown(PartialElems(a, visited), idx), PartialElems(a, visited + {p});
    ArrayIndexExact(p[0]);
    ExtentAdd(visited, p, |a|);
    GrownElems(a, visited, idx);
    forall k | 0 <= k < |w|
      ensures w[k] == if k == idx then Partial(a[idx], Sub(visited, p[0]) + {p[1..]}) else g[k]
    {
      PartialElemStep(a[k], visited, p, k);
    }
  }

  lemma PartialElemStep(e: Json, visited: set<Tokens>, p: Tokens, k: nat)
    requires p != [] && ArrayIndex(p[0]).Ok? && k < SIZE_MAX
    ensures Partial(e, Sub(visited + {p}, Decimal(k))) ==
            if k == ArrayIndex(p[0]).value then Partial(e, Sub(visited, p[0]) + {p[1..]})
            else Partial(e, Sub(visited, Decimal(k)))
  {
    SubAdd(visited, p, Decimal(k));
    ArrayIndexDecimal(k);
    ArrayIndexExact(p[0]);
  }

  lemma PartialArrayStep(j: Json, visited: set<Tokens>, p: Tokens, v: Json)
    requires Fits(j) && j.Arr? && !IsLeaf(j)
    requires p != [] && Child(j, p[0]).Ok? && (visited == {} ==> p[0] == "0")
    requires Assign(Partial(Child(j, p[0]).value, Sub(visited, p[0])), p[1..], v) ==
             Ok(Partial(Child(j, p[0]).value, Sub(visited, p[0]) + {p[1..]}))
    ensures Assign(Partial(j, visited), p, v) == Ok(Partial(j, visited + {p}))
  {
    if visited == {} {
      FirstArrayStep(j, p, v);
      assert visited + {p} == {p};
    } else {
      LaterArrayStep(j, visited, p, v);
    }
  }

  lemma FirstArrayStep(j: Json, p: Tokens, v: Json)
    requires Fits(j) && j.Arr? && !IsLeaf(j) && p != [] && Child(j, p[0]).Ok? && p[0] == "0"
    requires Assign(Partial(Child(j, p[0]).value, Sub({}, p[0])), p[1..], v) ==
             Ok(Partial(Child(j, p[0]).value, Sub({}, p[0]) + {p[1..]}))
    ensures Assign(Partial(j, {}), p, v) == Ok(Partial(j, {p}))
  {
    var a := j.elems;
    PartialElemsStep(a, {}, p);
    assert {} + {p} == {p};
    assert Partial(j, {p}) == Arr(PartialElems(a, {p}));
    SubAdd({}, p, p[0]);
    FirstIndex(a, p);
    var next := Partial(a[0], {p[1..]});
    assert Sub({}, p[0]) + {p[1..]} == {p[1..]};
    assert Grown(PartialElems(a, {}), 0)[0 := next] == [next];
    assert Partial(Child(j, p[0]).value, {}) == Null;
  }

  lemma LaterArrayStep(j: Json, visited: set<Tokens>, p: Tokens, v: Json)
    requires Fits(j) && j.Arr? && !IsLeaf(j) && p != [] && Child(j, p[0]).Ok? && visited != {}
    requires Assign(Partial(Child(j, p[0]).value, Sub(visited, p[0])), p[1..], v) ==
             Ok(Partial(Child(j, p[0]).value, Sub(visited, p[0]) + {p[1..]}))
    ensures Assign(Partial(j, visited), p, v) == Ok(Partial(j, visited + {p}))
  {
    PartialElemsStep(j.elems, visited, p);
    assert Partial(j, visited + {p}) == Arr(PartialElems(j.elems, visited + {p}));
    assert Partial(j, visited) == Arr(PartialElems(j.elems, visited));
    AssignArr(PartialElems(j.elems, visited), p, v, Partial(Child(j, p[0]).value, Sub(visited, p[0]) + {p[1..]}));
  }

  lemma AssignArr(b: seq<Json>, p: Tokens, v: Json, c: Json)
    requires p != [] && ArrayIndex(p[0]).Ok?
    requires Assign(Grown(b, ArrayIndex(p[0]).value)[ArrayIndex(p[0]).value], p[1..], v) == Ok(c)
    ensures Assign(Arr(b), p, v) == Ok(Arr(Grown(b, ArrayIndex(p[0]).value)[ArrayIndex(p[0]).value := c]))
  {}

  lemma FirstIndex(a: seq<Json>, p: Tokens)
    requires p != [] && p[0] == "0" && 0 < |a|
    ensures ArrayIndex(p[0]) == Ok(0) && |Grown(PartialElems(a, {}), 0)| == 1
  {
    ArrayIndexDecimal(0);
    assert Decimal(0) == "0";
    forall u ensures Sub({}, u) == {} {}
  }

  lemma PartialMembersStep(j: Json, visited: set<Tokens>, p: Tokens)
    requires j.Obj? && p != [] && p[0] in j.members
    ensures PartialMembers(j, visited + {p}) ==
            PartialMembers(j, visited)[p[0] := Partial(j.members[p[0]], Sub(visited, p[0]) + {p[1..]})]
  {
    forall k ensures Sub(visited + {p}, k) == if k == p[0] then Sub(visited, k) + {p[1..]} else Sub(visited, k) {
      SubAdd(visited, p, k);
    }
  }

  lemma PartialObjectStep(j: Json, visited: set<Tokens>, p: Tokens, v: Json)
    requires j.Obj? && !IsLeaf(j)
    requires p != [] && Child(j, p[0]).Ok? && (visited == {} ==> p[0] != "0")
    requires Assign(Partial(Child(j, p[0]).value, Sub(visited, p[0])), p[1..], v) ==
             Ok(Partial(Child(j, p[0]).value, Sub(visited, p[0]) + {p[1..]}))
    ensures Assign(Partial(j, visited), p, v) == Ok(Partial(j, visited + {p}))
  {
    var m, t := j.members, p[0];
    PartialMembersStep(j, visited, p);
    assert Partial(j, visited + {p}) == Obj(PartialMembers(j, visited + {p}));
    SubAdd({}, p, t);
    if visited == {} {
      forall k ensures Sub({}, k) == {} { SubAdd({}, p, k); }
      assert PartialMembers(j, {}) == map[];
    } else {
      assert Partial(j, visited) == Obj(PartialMembers(j, visited));
    }
  }

  /** One round of `unflatten`: visiting one more leaf, entering containers with the right token,
      leads from one partial document to the next. */
  lemma {:induction false} PartialStep(j: Json, visited: set<Tokens>, p: Tokens)
    requires Fits(j) && p in Leaves(j) && GetChecked(j, p).Ok? && EntersRight(j, visited, p)
    ensures Assign(Partial(j, visited), p, FlatValue(GetChecked(j, p).value)) == Ok(Partial(j, visited + {p}))
    decreases |p|
  {
    if !IsLeaf(j) {
      LeafSplit(j, p);
      FitsChild(j, p[0]);
      PartialStep(Child(j, p[0]).value, Sub(visited, p[0]), p[1..]);
      if j.Arr? {
        PartialArrayStep(j, visited, p, FlatValue(GetChecked(j, p).value));
      } else {
        PartialObjectStep(j, visited, p, FlatValue(GetChecked(j, p).value));
      }
    }
  }

  lemma SubLeaves(j: Json, t: string)
    requires Fits(j) && Child(j, t).Ok?
    ensures Sub(Leaves(j), t) == Leaves(Child(j, t).value)
  {
    FitsChild(j, t);
    forall q ensures q in Sub(Leaves(j), t) <==> q in Leaves(Child(j, t).value) {
      SubMember(Leaves(j), t, q);
      LeafBelow(j, t, q);
    }
  }

  lemma ChildComplete(j: Json, t: string)
    requires Fits(j) && Child(j, t).Ok?
    ensures Sub(Leaves(j), t) == Leaves(Child(j, t).value) && Sub(Leaves(j), t) != {}
  {
    FitsChild(j, t);
    SubLeaves(j, t);
    var leaf := SomeLeaf(Child(j, t).value);
  }

  lemma {:induction false} ElemsComplete(j: Json)
    requires Fits(j) && j.Arr? && !IsLeaf(j)
    ensures PartialElems(j.elems, Leaves(j)) == Nullify(j).elems
    decreases j, 0
  {
    var a := j.elems;
    forall i | 0 <= i < |a|
      ensures Sub(Leaves(j), Decimal(i)) != {}
      ensures Partial(a[i], Sub(Leaves(j), Decimal(i))) == Nullify(a[i])
    {
      ArrayIndexDecimal(i);
      DecimalCanonical(i);
      ChildComplete(j, Decimal(i));
      PartialComplete(a[i]);
    }
    assert Extent(Leaves(j), |a|) == |a|;
  }

  lemma {:induction false} MembersComplete(j: Json)
    requires Fits(j) && j.Obj? && !IsLeaf(j)
    ensures PartialMembers(j, Leaves(j)) == Nullify(j).members
    decreases j, 0
  {
    var m := j.members;
    forall k | k in m
      ensures Sub(Leaves(j), k) != {}
      ensures Partial(m[k], Sub(Leaves(j), k)) == Nullify(m[k])
    {
      ChildComplete(j, k);
      PartialComplete(m[k]);
    }
  }

  /** When all leaves have been visited, the document is complete. */
  lemma {:induction false} PartialComplete(j: Json)
    requires Fits(j)
    ensures Partial(j, Leaves(j)) == Nullify(j)
    decreases j, 1
  {
    var some := SomeLeaf(j);
    if IsLeaf(j) {
    } else if j.Arr? {
      ElemsComplete(j);
      assert Partial(j, Leaves(j)) == Arr(PartialElems(j.elems, Leaves(j)));
    } else {
      MembersComplete(j);
      assert Partial(j, Leaves(j)) == Obj(PartialMembers(j, Leaves(j)));
    }
  }

  // ------------------------------------------------- the order of the entries

  lemma EscapeFirst(k: string)
    requires k != ""
    ensures Escape(k) != "" && Escape(k)[0] == if k[0] == '~' || k[0] == '/' then '~' else k[0]
    ensures k[0] != '~' && k[0] != '/' ==> Escape(k) == [k[0]] + Escape(k[1..])
  {
    EscapeIsEscapeEach(k);
    EscapeIsEscapeEach(k[1..]);
  }

  /** The text of a pointer from its first token on, without the leading slash. */
  function Rest(t: string, q: Tokens): string { Escape(t) + ToString(q) }

  lemma TokenText(t: string, q: Tokens)
    ensures ToString([t] + q) == "/" + Rest(t, q)
  {
    ToStringCons(t, q);
    assert "/" + Escape(t) + ToString(q) == "/" + (Escape(t) + ToString(q));
  }

  lemma CompareTokens(t: string, q: Tokens, u: string, r: Tokens)
    ensures StrLess(ToString([t] + q), ToString([u] + r)) <==> StrLess(Rest(t, q), Rest(u, r))
    ensures t == u ==> (StrLess(ToString([t] + q), ToString([u] + r)) <==> StrLess(ToString(q), ToString(r)))
  {
    TokenText(t, q);
    TokenText(u, r);
    StrLessPrefix("/", Rest(t, q), Rest(u, r));
    if t == u { StrLessPrefix(Escape(t), ToString(q), ToString(r)); }
  }

  lemma EscapeZero()
    ensures Escape("0") == "0"
  {
    EscapePlain("0");
  }

  /** SortsBeforeZero says how the entries below `k` and below "0" are ordered. */
  lemma ZeroVersus(k: string, zero: Json, q: Tokens, r: Tokens)
    requires k != "0" && (IsLeaf(zero) <==> r == [])
    ensures SortsBeforeZero(k, zero) ==> StrLess(ToString([k] + q), ToString(["0"] + r))
    ensures !SortsBeforeZero(k, zero) ==> StrLess(ToString(["0"] + r), ToString([k] + q))
  {
    CompareTokens(k, q, "0", r);
    CompareTokens("0", r, k, q);
    EscapeZero();
    ToStringStart(q);
    ToStringStart(r);
    var a, b := Rest(k, q), Rest("0", r);
    assert b[0] == '0' && b[1..] == ToString(r);
    if k == "" {
      assert Escape("") == "";
      assert a == ToString(q);
    } else {
      EscapeFirst(k);
      assert a[0] == Escape(k)[0];
      if k[0] == '0' {
        ZeroPrefix(k, q);
        EscapeFirst(k[1..]);
      }
    }
  }

  lemma AfterFirst(c: char, e: string, rest: string)
    ensures ([c] + e + rest)[0] == c && ([c] + e + rest)[1..] == e + rest
  {}

  lemma ZeroPrefix(k: string, q: Tokens)
    requires k != "" && k != "0" && k[0] == '0'
    ensures |k| >= 2 && Rest(k, q)[1..] == Escape(k[1..]) + ToString(q)
  {
    assert k == ['0'] + k[1..];
    EscapeFirst(k);
    AfterFirst('0', Escape(k[1..]), ToString(q));
  }

  lemma FirstOfRest(t: string, q: Tokens)
    requires t != ""
    ensures Rest(t, q) != "" && Rest(t, q)[0] == Escape(t)[0]
  {
    EscapeFirst(t);
  }

  /** In an array, the entries below index 0 come first. */
  lemma IndexVersus(t: string, q: Tokens, r: Tokens)
    requires IsCanonical(t) && t != "0"
    ensures StrLess(ToString(["0"] + r), ToString([t] + q))
  {
    CompareTokens("0", r, t, q);
    CanonicalStart(t);
    EscapeZero();
    EscapeFirst(t);
    FirstOfRest(t, q);
    FirstOfRest("0", r);
    FirstDecides(Rest("0", r), Rest(t, q));
  }

  lemma CanonicalStart(t: string)
    requires IsCanonical(t) && t != "0"
    ensures t != "" && '0' < t[0] <= '9'
  {
    assert t[0] in t && IsDigit(t[0]);
    assert |t| == 1 ==> t == [t[0]];
  }

  lemma FirstDecides(a: string, b: string)
    requires a != "" && b != "" && a[0] < b[0]
    ensures StrLess(a, b)
  {}

  /** The leaves whose entries come before the entry of `p`. */
  function Before(j: Json, p: Tokens): set<Tokens> {
    set q | q in Leaves(j) && StrLess(ToString(q), ToString(p))
  }

  lemma SubBefore(j: Json, p: Tokens)
    requires Fits(j) && p != [] && Child(j, p[0]).Ok?
    ensures Sub(Before(j, p), p[0]) == Before(Child(j, p[0]).value, p[1..])
  {
    FitsChild(j, p[0]);
    assert p == [p[0]] + p[1..];
    forall q ensures q in Sub(Before(j, p), p[0]) <==> q in Before(Child(j, p[0]).value, p[1..]) {
      SubMember(Before(j, p), p[0], q);
      LeafBelow(j, p[0], q);
      CompareTokens(p[0], q, p[0], p[1..]);
    }
  }

  lemma NothingBefore(j: Json, p: Tokens, q: Tokens)
    requires Before(j, p) == {} && q in Leaves(j)
    ensures !StrLess(ToString(q), ToString(p))
  {
    assert q in Before(j, p) <==> StrLess(ToString(q), ToString(p));
  }

  lemma LeafIffEmpty(j: Json, q: Tokens)
    requires Fits(j) && q in Leaves(j)
    ensures IsLeaf(j) <==> q == []
  {
    if !IsLeaf(j) { LeafAt(j, q); }
  }

  /** The first entry below a container of a zero-safe document tells arrays from objects. */
  lemma FirstTokenRight(j: Json, p: Tokens)
    requires Fits(j) && !IsLeaf(j) && p in Leaves(j) && Before(j, p) == {} && ZeroSafe(j)
    ensures p != [] && (j.Arr? <==> p[0] == "0")
  {
    LeafSplit(j, p);
    if j.Arr? {
      if p[0] != "0" {
        var r := SomeLeaf(j.elems[0]);
        ArrayIndexDecimal(0);
        assert Decimal(0) == "0";
        LeafBelow(j, "0", r);
        ArrayIndexExact(p[0]);
        IndexVersus(p[0], p[1..], r);
        NothingBefore(j, p, ["0"] + r);
      }
    } else if p[0] == "0" {
      var k :| k in j.members && SortsBeforeZero(k, j.members["0"]);
      var q := SomeLeaf(j.members[k]);
      LeafBelow(j, k, q);
      LeafIffEmpty(j.members["0"], p[1..]);
      ZeroVersus(k, j.members["0"], q, p[1..]);
      NothingBefore(j, p, [k] + q);
    }
  }

  /** In a zero-safe document, visiting the entries in order enters every container rightly. */
  lemma {:induction false} SafeEntersRight(j: Json, p: Tokens)
    requires Fits(j) && p in Leaves(j) && ZeroSafe(j)
    ensures EntersRight(j, Before(j, p), p)
    decreases |p|
  {
    if !IsLeaf(j) {
      LeafSplit(j, p);
      FitsChild(j, p[0]);
      SubBefore(j, p);
      SafeEntersRight(Child(j, p[0]).value, p[1..]);
      if Before(j, p) == {} { FirstTokenRight(j, p); }
    }
  }

  lemma FirstLeaf(j: Json) returns (p: Tokens)
    requires Fits(j)
    ensures p in Leaves(j) && Before(j, p) == {}
  {
    var some := SomeLeaf(j);
    var texts := set q | q in Leaves(j) :: ToString(q);
    assert ToString(some) in texts;
    LeastExists(texts);
    var least :| IsLeast(least, texts);
    p :| p in Leaves(j) && ToString(p) == least;
    forall q | q in Leaves(j) ensures !StrLess(ToString(q), ToString(p)) {
      assert ToString(q) in texts;
      StrLessTotal(ToString(p), ToString(q));
    }
  }

  /** In any other document some container is entered with the wrong token. */
  lemma {:induction false} UnsafeEntersWrong(j: Json) returns (p: Tokens)
    requires Fits(j) && !ZeroSafe(j)
    ensures p in Leaves(j) && !EntersRight(j, Before(j, p), p)
  {
    if j.Obj? && "0" in j.members && !exists k <- j.members.Keys :: SortsBeforeZero(k, j.members["0"]) {
      p := FirstLeaf(j);
      LeafSplit(j, p);
      if p[0] != "0" {
        var r := SomeLeaf(j.members["0"]);
        LeafBelow(j, "0", r);
        LeafIffEmpty(j.members["0"], r);
        assert p[0] in j.members.Keys;
        ZeroVersus(p[0], j.members["0"], p[1..], r);
        NothingBefore(j, p, ["0"] + r);
      }
    } else {
      var t := UnsafeChild(j);
      var q := UnsafeEntersWrong(Child(j, t).value);
      p := [t] + q;
      assert p[0] == t && p[1..] == q;
      LeafBelow(j, t, q);
      SubBefore(j, p);
    }
  }

  lemma UnsafeChild(j: Json) returns (t: string)
    requires Fits(j) && !ZeroSafe(j)
    requires j.Obj? && "0" in j.members ==> exists k <- j.members.Keys :: SortsBeforeZero(k, j.members["0"])
    ensures Child(j, t).Ok? && !ZeroSafe(Child(j, t).value) && Child(j, t).value < j
    ensures Fits(Child(j, t).value) && !IsLeaf(j)
  {
    match j
    case Arr(a) =>
      var i :| 0 <= i < |a| && !ZeroSafe(a[i]);
      t := Decimal(i);
      ArrayIndexDecimal(i);
      DecimalCanonical(i);
    case Obj(m) => t :| t in m && !ZeroSafe(m[t]);
  }

  // ------------------------------------------------- what a wrong entry leads to

  /** Somewhere `r` has an array where `j` has a non-empty object, or the reverse. */
  ghost predicate Clash(r: Json, j: Json)
    decreases j
  {
    || (r.Arr? && j.Obj? && !IsLeaf(j))
    || (r.Obj? && j.Arr? && !IsLeaf(j))
    || (exists t :: Child(r, t).Ok? && Child(j, t).Ok? && Clash(Child(r, t).value, Child(j, t).value))
  }

  lemma {:induction false} ClashNotEqual(r: Json, j: Json)
    requires Clash(r, j)
    ensures !Equal(r, j)
    decreases j
  {
    if !(r.Arr? && j.Obj?) && !(r.Obj? && j.Arr?) {
      var t :| Child(r, t).Ok? && Child(j, t).Ok? && Clash(Child(r, t).value, Child(j, t).value);
      ClashNotEqual(Child(r, t).value, Child(j, t).value);
    }
  }

  /** What an assignment does to the children of a container. */
  lemma AssignChild(r: Json, p: Tokens, v: Json)
    requires p != [] && Assign(r, p, v).Ok?
    ensures var r' := Assign(r, p, v).value;
            && (r.Arr? ==> r'.Arr?) && (r.Obj? ==> r'.Obj?)
            && (r.Null? ==> (r'.Arr? <==> p[0] == "0")) && (r'.Arr? || r'.Obj?) && Child(r', p[0]).Ok?
            && (Child(r, p[0]).Ok? ==> Assign(Child(r, p[0]).value, p[1..], v) == Child(r', p[0]))
            && (r.Null? ==> Assign(Null, p[1..], v) == Child(r', p[0]))
  {
    if r.Null? && p[0] == "0" {
      ArrayIndexDecimal(0);
      assert Decimal(0) == "0";
    }
    assert ArrayIndex("-").Err?;
  }

  lemma AssignElsewhere(r: Json, p: Tokens, v: Json, u: string)
    requires p != [] && Assign(r, p, v).Ok? && u != p[0] && Child(r, u).Ok?
    ensures Child(Assign(r, p, v).value, u) == Child(r, u)
  {
    if r.Arr? {
      var idx := ArrayIndex(p[0]).value;
      AssignArr(r.elems, p, v, Assign(Grown(r.elems, idx)[idx], p[1..], v).value);
      ArrayIndexExact(p[0]);
      ArrayIndexExact(u);
    }
  }

  /** A clash is never repaired by visiting further leaves. */
  lemma {:induction false} ClashPersists(r: Json, j: Json, p: Tokens, v: Json)
    requires Fits(j) && Clash(r, j) && p in Leaves(j) && Assign(r, p, v).Ok?
    ensures Clash(Assign(r, p, v).value, j)
    decreases |p|
  {
    assert !IsLeaf(j) by {
      if IsLeaf(j) {
        var t :| Child(r, t).Ok? && Child(j, t).Ok? && Clash(Child(r, t).value, Child(j, t).value);
        FitsChild(j, t);
      }
    }
    LeafSplit(j, p);
    AssignChild(r, p, v);
    var r' := Assign(r, p, v).value;
    if !(r.Arr? && j.Obj?) && !(r.Obj? && j.Arr?) {
      var t :| Child(r, t).Ok? && Child(j, t).Ok? && Clash(Child(r, t).value, Child(j, t).value);
      if t == p[0] {
        FitsChild(j, t);
        ClashPersists(Child(r, t).value, Child(j, t).value, p[1..], v);
        assert Clash(Child(r', t).value, Child(j, t).value);
      } else {
        AssignElsewhere(r, p, v, t);
        assert Clash(Child(r', t).value, Child(j, t).value);
      }
    }
  }

  lemma TopClash(j: Json, p: Tokens, v: Json)
    requires Fits(j) && p != [] && !IsLeaf(j) && (j.Arr? || j.Obj?) && !(j.Arr? <==> p[0] == "0")
    requires Assign(Null, p, v).Ok?
    ensures Clash(Assign(Null, p, v).value, j)
  {
    AssignChild(Null, p, v);
  }

  lemma ClashBelow(r: Json, j: Json, t: string)
    requires Child(r, t).Ok? && Child(j, t).Ok? && Clash(Child(r, t).value, Child(j, t).value)
    ensures Clash(r, j)
  {}

  /** The child that an assignment creates or changes grows from the partial child. */
  lemma NewChild(j: Json, visited: set<Tokens>, p: Tokens, v: Json)
    requires Fits(j) && p != [] && Child(j, p[0]).Ok?
    requires Assign(Partial(j, visited), p, v).Ok?
    requires visited == {} ==> (j.Arr? <==> p[0] == "0")
    ensures Child(Assign(Partial(j, visited), p, v).value, p[0]) ==
            Assign(Partial(Child(j, p[0]).value, Sub(visited, p[0])), p[1..], v)
  {
    var r, t, c := Partial(j, visited), p[0], Child(j, p[0]).value;
    AssignChild(r, p, v);
    FitsChild(j, t);
    SubAdd(visited, p, t);
    if visited != {} && j.Arr? { NewElement(j, visited, p, v); }
  }

  lemma NewElement(j: Json, visited: set<Tokens>, p: Tokens, v: Json)
    requires Fits(j) && j.Arr? && p != [] && Child(j, p[0]).Ok? && visited != {}
    requires Assign(Partial(j, visited), p, v).Ok?
    ensures Child(Assign(Partial(j, visited), p, v).value, p[0]) ==
            Assign(Partial(Child(j, p[0]).value, Sub(visited, p[0])), p[1..], v)
  {
    var b, t := PartialElems(j.elems, visited), p[0];
    assert Partial(j, visited) == Arr(b);
    ArrayIndexExact(t);
    GrownElems(j.elems, visited, ArrayIndex(t).value);
    AssignElement(b, p, v);
  }

  lemma AssignElement(b: seq<Json>, p: Tokens, v: Json)
    requires p != [] && Assign(Arr(b), p, v).Ok? && ArrayIndex(p[0]).Ok?
    ensures var idx := ArrayIndex(p[0]).value;
            Child(Assign(Arr(b), p, v).value, p[0]) == Assign(Grown(b, idx)[idx], p[1..], v)
  {
    assert ArrayIndex("-").Err?;
  }

  /** Entering a container with the wrong token fails or leaves a clash. */
  lemma {:induction false} WrongEntryClashes(j: Json, visited: set<Tokens>, p: Tokens, v: Json)
    requires Fits(j) && p in Leaves(j) && !EntersRight(j, visited, p)
    requires Assign(Partial(j, visited), p, v).Ok?
    ensures Clash(Assign(Partial(j, visited), p, v).value, j)
    decreases |p|
  {
    FitsChild(j, p[0]);
    LeafSplit(j, p);
    if visited == {} && !(j.Arr? <==> p[0] == "0") {
      TopClash(j, p, v);
    } else {
      WrongBelow(j, visited, p, v);
      EntersWrongBelow(j, visited, p);
      WrongEntryClashes(Child(j, p[0]).value, Sub(visited, p[0]), p[1..], v);
      ClashBelow(Assign(Partial(j, visited), p, v).value, j, p[0]);
    }
  }

  lemma WrongBelow(j: Json, visited: set<Tokens>, p: Tokens, v: Json)
    requires Fits(j) && p != [] && Child(j, p[0]).Ok? && Assign(Partial(j, visited), p, v).Ok?
    requires visited == {} ==> (j.Arr? <==> p[0] == "0")
    ensures var below := Assign(Partial(Child(j, p[0]).value, Sub(visited, p[0])), p[1..], v);
            below.Ok? && Child(Assign(Partial(j, visited), p, v).value, p[0]) == below
  {
    NewChild(j, visited, p, v);
    AssignChild(Partial(j, visited), p, v);
  }

  lemma EntersWrongBelow(j: Json, visited: set<Tokens>, p: Tokens)
    requires p != [] && Child(j, p[0]).Ok? && (visited == {} ==> (j.Arr? <==> p[0] == "0"))
    requires !EntersRight(j, visited, p)
    ensures !EntersRight(Child(j, p[0]).value, Sub(visited, p[0]), p[1..])
  {}

  // ------------------------------------------------- the run of unflatten

  /** `flat` has exactly the leaves of `j` as entries. */
  ghost predicate IsFlattening(flat: map<string, Json>, j: Json) {
    && (forall p <- Leaves(j) :: GetChecked(j, p).Ok? && ToString(p) in flat)
    && (forall p <- Leaves(j) :: flat[ToString(p)] == FlatValue(GetChecked(j, p).value))
    && (forall text | text in flat :: IsLeafText(j, text))
  }

  /** The leaves whose entries are among the given keys. */
  function Seen(j: Json, keys: seq<string>): set<Tokens> {
    set p | p in Leaves(j) && ToString(p) in keys
  }

  ghost predicate Visit(j: Json, flat: map<string, Json>, keys: seq<string>) {
    IsFlattening(flat, j) && IsSortedListing(keys, flat.Keys) && forall k | 0 <= k < |keys| :: keys[k] in flat
  }

  lemma SeenBefore(j: Json, flat: map<string, Json>, keys: seq<string>, i: nat, p: Tokens)
    requires Visit(j, flat, keys) && i < |keys| && p in Leaves(j) && keys[i] == ToString(p)
    ensures Seen(j, keys[..i]) == Before(j, p) && Seen(j, keys[..i + 1]) == Before(j, p) + {p}
  {
    SeenStrictlyBefore(j, flat, keys, i, p);
    SeenUpTo(j, flat, keys, i, p);
  }

  lemma SeenUpTo(j: Json, flat: map<string, Json>, keys: seq<string>, i: nat, p: Tokens)
    requires Visit(j, flat, keys) && i < |keys| && p in Leaves(j) && keys[i] == ToString(p)
    ensures Seen(j, keys[..i + 1]) == Before(j, p) + {p}
  {
    forall q | q in Leaves(j) ensures q in Seen(j, keys[..i + 1]) <==> q in Before(j, p) + {p} {
      LeafPosition(j, flat, keys, i, p, q);
    }
  }

  lemma SeenStrictlyBefore(j: Json, flat: map<string, Json>, keys: seq<string>, i: nat, p: Tokens)
    requires Visit(j, flat, keys) && i < |keys| && p in Leaves(j) && keys[i] == ToString(p)
    ensures Seen(j, keys[..i]) == Before(j, p)
  {
    forall q | q in Leaves(j) ensures q in Seen(j, keys[..i]) <==> q in Before(j, p) {
      LeafPosition(j, flat, keys, i, p, q);
    }
  }

  lemma LeafPosition(j: Json, flat: map<string, Json>, keys: seq<string>, i: nat, p: Tokens, q: Tokens)
    requires Visit(j, flat, keys) && i < |keys| && q in Leaves(j) && keys[i] == ToString(p)
    ensures ToString(q) in keys[..i] <==> StrLess(ToString(q), ToString(p))
    ensures ToString(q) in keys[..i + 1] <==> StrLess(ToString(q), ToString(p)) || q == p
  {
    KeyPosition(keys, flat.Keys, i, ToString(q));
    if ToString(q) == ToString(p) { ToStringInjective(p, q); }
  }

  lemma KeyPosition(keys: seq<string>, all: set<string>, i: nat, text: string)
    requires IsSortedListing(keys, all) && i < |keys| && text in all
    ensures text in keys[..i] <==> StrLess(text, keys[i])
    ensures text in keys[..i + 1] <==> StrLess(text, keys[i]) || text == keys[i]
  {
    var k :| 0 <= k < |keys| && keys[k] == text;
    StrLessTotal(keys[k], keys[i]);
    if k < i {
      assert keys[..i][k] == text;
    }
    assert keys[..i + 1] == keys[..i] + [keys[i]];
  }

  /** The entry visited in round `i`. */
  lemma EntryFacts(j: Json, flat: map<string, Json>, keys: seq<string>, i: nat) returns (p: Tokens)
    requires Visit(j, flat, keys) && i < |keys|
    ensures p in Leaves(j) && GetChecked(j, p).Ok?
    ensures keys[i] == ToString(p) && flat[keys[i]] == FlatValue(GetChecked(j, p).value)
    ensures Seen(j, keys[..i]) == Before(j, p) && Seen(j, keys[..i + 1]) == Before(j, p) + {p}
  {
    assert keys[i] in flat && IsLeafText(j, keys[i]);
    p :| p in Leaves(j) && keys[i] == ToString(p);
    SeenBefore(j, flat, keys, i, p);
  }

  /** One round of the loop: the entry's pointer, and what the round does with it. */
  lemma Round(j: Json, flat: map<string, Json>, keys: seq<string>, i: nat, acc: Json) returns (p: Tokens)
    requires Visit(j, flat, keys) && i < |keys|
    ensures p in Leaves(j) && GetChecked(j, p).Ok? && keys[i] == ToString(p)
    ensures Seen(j, keys[..i]) == Before(j, p) && Seen(j, keys[..i + 1]) == Before(j, p) + {p}
    ensures UnflattenFrom(flat, keys, i, acc) ==
            match Assign(acc, p, FlatValue(GetChecked(j, p).value))
            case Ok(next) => UnflattenFrom(flat, keys, i + 1, next)
            case Err(e) => Err(e)
  {
    p := EntryFacts(j, flat, keys, i);
    SplitToString(p);
  }

  lemma RightRound(j: Json, flat: map<string, Json>, keys: seq<string>, i: nat, p: Tokens)
    requires Fits(j) && Visit(j, flat, keys) && i < |keys|
    requires p in Leaves(j) && keys[i] == ToString(p) && EntersRight(j, Before(j, p), p)
    ensures UnflattenFrom(flat, keys, i, Partial(j, Seen(j, keys[..i]))) ==
            UnflattenFrom(flat, keys, i + 1, Partial(j, Seen(j, keys[..i + 1])))
  {
    var q := Round(j, flat, keys, i, Partial(j, Seen(j, keys[..i])));
    ToStringInjective(p, q);
    PartialStep(j, Before(j, p), p);
  }

  lemma AllSeen(j: Json, flat: map<string, Json>, keys: seq<string>)
    requires Fits(j) && Visit(j, flat, keys)
    ensures Partial(j, Seen(j, keys[..|keys|])) == Nullify(j)
    ensures forall p <- Leaves(j) :: ToString(p) in keys[..|keys|]
  {
    assert keys[..|keys|] == keys;
    assert forall p <- Leaves(j) :: ToString(p) in flat.Keys;
    assert Seen(j, keys) == Leaves(j);
    PartialComplete(j);
  }

  /** The partial documents between the rounds. */
  function States(j: Json, keys: seq<string>): seq<Json> {
    seq(|keys| + 1, i requires 0 <= i <= |keys| => Partial(j, Seen(j, keys[..i])))
  }

  /** Rounds that lead from state to state lead from the first to the last. */
  lemma {:induction false} Rounds(flat: map<string, Json>, keys: seq<string>, states: seq<Json>, i: nat, n: nat)
    requires forall k | 0 <= k < |keys| :: keys[k] in flat
    requires |states| == |keys| + 1 && i <= n <= |keys|
    requires forall k | i <= k < n ::
               UnflattenFrom(flat, keys, k, states[k]) == UnflattenFrom(flat, keys, k + 1, states[k + 1])
    ensures UnflattenFrom(flat, keys, i, states[i]) == UnflattenFrom(flat, keys, n, states[n])
    decreases n - i
  {
    if i < n { Rounds(flat, keys, states, i + 1, n); }
  }

  lemma SafeRound(j: Json, flat: map<string, Json>, keys: seq<string>, i: nat)
    requires Fits(j) && ZeroSafe(j) && Visit(j, flat, keys) && i < |keys|
    ensures UnflattenFrom(flat, keys, i, States(j, keys)[i]) == UnflattenFrom(flat, keys, i + 1, States(j, keys)[i + 1])
  {
    var p := EntryFacts(j, flat, keys, i);
    SafeEntersRight(j, p);
    RightRound(j, flat, keys, i, p);
  }

  /** Right entries lead from null to the complete document. */
  lemma RunCompletes(j: Json, flat: map<string, Json>, keys: seq<string>)
    requires Fits(j) && ZeroSafe(j) && Visit(j, flat, keys)
    ensures UnflattenFrom(flat, keys, 0, Null) == Ok(Nullify(j))
  {
    var states := States(j, keys);
    forall i | 0 <= i < |keys|
      ensures UnflattenFrom(flat, keys, i, states[i]) == UnflattenFrom(flat, keys, i + 1, states[i + 1])
    {
      SafeRound(j, flat, keys, i);
    }
    Rounds(flat, keys, states, 0, |keys|);
    AllSeen(j, flat, keys);
    assert states[0] == Null by { assert Seen(j, keys[..0]) == {}; }
  }

  /** The run from here on throws or ends in a clash. */
  ghost predicate EndsBadly(j: Json, flat: map<string, Json>, keys: seq<string>, i: nat, acc: Json)
    requires forall k | 0 <= k < |keys| :: keys[k] in flat
  {
    var end := UnflattenFrom(flat, keys, i, acc);
    end.Ok? ==> Clash(end.value, j)
  }

  /** A clash stays to the end. */
  lemma {:induction false} ClashRuns(j: Json, flat: map<string, Json>, keys: seq<string>, i: nat, r: Json)
    requires Fits(j) && Visit(j, flat, keys) && i <= |keys| && Clash(r, j)
    ensures EndsBadly(j, flat, keys, i, r)
    decreases |keys| - i
  {
    if i < |keys| {
      var p := Round(j, flat, keys, i, r);
      var v := FlatValue(GetChecked(j, p).value);
      var next := Assign(r, p, v);
      if next.Ok? {
        ClashPersists(r, j, p, v);
        ClashRuns(j, flat, keys, i + 1, next.value);
      }
      BadStep(j, flat, keys, i, r, next);
    }
  }

  lemma BadStep(j: Json, flat: map<string, Json>, keys: seq<string>, i: nat, acc: Json, next: Result<Json>)
    requires i < |keys| && forall k | 0 <= k < |keys| :: keys[k] in flat
    requires UnflattenFrom(flat, keys, i, acc) ==
             match next case Ok(n) => UnflattenFrom(flat, keys, i + 1, n) case Err(e) => Err(e)
    requires next.Ok? ==> EndsBadly(j, flat, keys, i + 1, next.value)
    ensures EndsBadly(j, flat, keys, i, acc)
  {}

  lemma WrongRound(j: Json, flat: map<string, Json>, keys: seq<string>, i: nat, p: Tokens)
    requires Fits(j) && Visit(j, flat, keys) && i < |keys|
    requires p in Leaves(j) && keys[i] == ToString(p) && !EntersRight(j, Before(j, p), p)
    ensures EndsBadly(j, flat, keys, i, Partial(j, Seen(j, keys[..i])))
  {
    var acc := Partial(j, Seen(j, keys[..i]));
    var q := Round(j, flat, keys, i, acc);
    ToStringInjective(p, q);
    var v := FlatValue(GetChecked(j, p).value);
    var next := Assign(acc, p, v);
    if next.Ok? {
      WrongEntryClashes(j, Before(j, p), p, v);
      ClashRuns(j, flat, keys, i + 1, next.value);
    }
  }

  ghost predicate RightAt(j: Json, keys: seq<string>, i: nat)
    requires i < |keys|
  {
    exists p: Tokens :: p in Leaves(j) && keys[i] == ToString(p) && EntersRight(j, Before(j, p), p)
  }

  lemma {:induction false} FirstWrong(j: Json, keys: seq<string>, i: nat, w: nat) returns (n: nat)
    requires i <= w < |keys| && !RightAt(j, keys, w)
    ensures i <= n <= w && !RightAt(j, keys, n) && forall k | i <= k < n :: RightAt(j, keys, k)
    decreases w - i
  {
    if !RightAt(j, keys, i) {
      n := i;
    } else {
      n := FirstWrong(j, keys, i + 1, w);
    }
  }

  lemma RightRoundAt(j: Json, flat: map<string, Json>, keys: seq<string>, i: nat)
    requires Fits(j) && Visit(j, flat, keys) && i < |keys| && RightAt(j, keys, i)
    ensures UnflattenFrom(flat, keys, i, States(j, keys)[i]) == UnflattenFrom(flat, keys, i + 1, States(j, keys)[i + 1])
  {
    var p :| p in Leaves(j) && keys[i] == ToString(p) && EntersRight(j, Before(j, p), p);
    RightRound(j, flat, keys, i, p);
  }

  /** Where the entry of `bad` stands among the keys, the entry is wrong. */
  lemma WrongIndex(j: Json, flat: map<string, Json>, keys: seq<string>, bad: Tokens) returns (w: nat)
    requires Visit(j, flat, keys) && bad in Leaves(j) && !EntersRight(j, Before(j, bad), bad)
    ensures w < |keys| && !RightAt(j, keys, w)
  {
    assert ToString(bad) in flat && ToString(bad) in keys;
    w :| 0 <= w < |keys| && keys[w] == ToString(bad);
    forall p: Tokens | ToString(p) == keys[w] ensures p == bad { ToStringInjective(p, bad); }
  }

  /** If some entry is wrong, the run throws or ends in a clash. */
  lemma WrongRuns(j: Json, flat: map<string, Json>, keys: seq<string>, bad: Tokens)
    requires Fits(j) && Visit(j, flat, keys)
    requires bad in Leaves(j) && !EntersRight(j, Before(j, bad), bad)
    ensures EndsBadly(j, flat, keys, 0, Null)
  {
    var w := WrongIndex(j, flat, keys, bad);
    var n := FirstWrong(j, keys, 0, w);
    var states := States(j, keys);
    forall i | 0 <= i < n
      ensures UnflattenFrom(flat, keys, i, states[i]) == UnflattenFrom(flat, keys, i + 1, states[i + 1])
    {
      RightRoundAt(j, flat, keys, i);
    }
    Rounds(flat, keys, states, 0, n);
    var p := EntryFacts(j, flat, keys, n);
    WrongRound(j, flat, keys, n, p);
    assert states[0] == Null by { assert Seen(j, keys[..0]) == {}; }
  }

  lemma FlattenVisit(j: Json) returns (keys: seq<string>)
    requires Fits(j)
    ensures Visit(j, Flatten(j), keys) && keys == SortedKeys(Flatten(j).Keys)
  {
    keys := SortedKeys(Flatten(j).Keys);
    EntriesAreFlattening(j);
  }

  lemma EntriesAreFlattening(j: Json)
    requires Fits(j)
    ensures IsFlattening(Flatten(j), j)
  {
    FlattenEntries(j);
  }

  /** On a zero-safe document `unflatten` restores everything but the empty containers, which come
      back as null. */
  lemma UnflattenFlatten(j: Json)
    requires Fits(j) && ZeroSafe(j)
    ensures Unflatten(Obj(Flatten(j))) == Ok(Nullify(j))
  {
    var keys := FlattenVisit(j);
    RunCompletes(j, Flatten(j), keys);
  }

  /** A pointer resolves in the result as in the document, to the same primitive value, to null instead of an
      empty container, and to a container of the same type instead of another. */
  predicate Restored(j: Json, r: Json, p: Tokens) {
    match GetChecked(j, p)
    case Err(_) => GetChecked(r, p).Err?
    case Ok(v) =>
      && GetChecked(r, p).Ok?
      && var w := GetChecked(r, p).value;
         if v == Arr([]) || v == Obj(map[]) then w == Null
         else if IsPrimitive(v) then w == v
         else TypeOf(w) == TypeOf(v)
  }

  lemma {:induction false} NullifyRestores(j: Json, p: Tokens)
    ensures Restored(j, Nullify(j), p)
    decreases |p|
  {
    if p != [] && Child(j, p[0]).Ok? { NullifyRestores(Child(j, p[0]).value, p[1..]); }
  }

  /** What the round trip makes of a zero-safe document, pointer by pointer. */
  lemma RoundTripRestores(j: Json, p: Tokens)
    requires Fits(j) && ZeroSafe(j)
    ensures var r := Unflatten(Obj(Flatten(j))); r.Ok? && Restored(j, r.value, p)
  {
    UnflattenFlatten(j);
    NullifyRestores(j, p);
  }

  /** On any other document the round trip throws or puts an array in the place of an object. */
  lemma UnflattenFlattenUnsafe(j: Json)
    requires Fits(j) && !ZeroSafe(j)
    ensures var r := Unflatten(Obj(Flatten(j)));
            r.Ok? ==> Clash(r.value, j)
  {
    var keys := FlattenVisit(j);
    var bad := UnsafeEntersWrong(j);
    WrongRuns(j, Flatten(j), keys, bad);
  }

  /** The documents that survive `flatten` and `unflatten` are exactly those without empty containers
      in which every object with a member "0" has a member that sorts before it. */
  lemma RoundTripExact(j: Json)
    requires Fits(j)
    ensures var r := Unflatten(Obj(Flatten(j)));
            && ((r.Ok? && Equal(r.value, j)) <==> (NoEmpty(j) && ZeroSafe(j)))
            && (NoEmpty(j) && ZeroSafe(j) ==> r == Ok(j))
  {
    if ZeroSafe(j) {
      SafeSurvives(j);
    } else {
      UnsafeIsLost(j);
    }
  }

  lemma SafeSurvives(j: Json)
    requires Fits(j) && ZeroSafe(j)
    ensures var r := Unflatten(Obj(Flatten(j)));
            r.Ok? && (Equal(r.value, j) <==> NoEmpty(j)) && (NoEmpty(j) ==> r.value == j)
  {
    NullifyNoEmpty(j);
    UnflattenFlatten(j);
    if NoEmpty(j) { EqualReflexive(j); }
  }

  lemma UnsafeIsLost(j: Json)
    requires Fits(j) && !ZeroSafe(j)
    ensures var r := Unflatten(Obj(Flatten(j))); r.Ok? ==> !Equal(r.value, j)
  {
    UnflattenFlattenUnsafe(j);
    var r := Unflatten(Obj(Flatten(j)));
    if r.Ok? { ClashNotEqual(r.value, j); }
  }

  /** In particular a document without a member named "0" and without empty containers survives. */
  predicate NoZeroMember(j: Json) {
    match j
    case Arr(a) => forall i | 0 <= i < |a| :: NoZeroMember(a[i])
    case Obj(m) => "0" !in m && forall k <- m.Keys :: NoZeroMember(m[k])
    case _ => true
  }

  lemma NoZeroIsSafe(j: Json)
    requires NoZeroMember(j)
    ensures ZeroSafe(j)
  {}

  lemma ZeroPointer()
    ensures ToString(["0"]) == "/0" && ["0"][1..] == []
  {
    EscapeZero();
    ToStringCons("0", []);
    assert ["0"] + [] == ["0"];
  }

  lemma LeavesSingleZero(j: Json)
    requires j == Obj(map["0" := Null])
    ensures Leaves(j) == {["0"]} && GetChecked(j, ["0"]) == Ok(Null)
  {
    assert "0" in j.members;
    ZeroPointer();
    forall p ensures p in Leaves(j) <==> p == ["0"] {
      LeafAt(j, p);
      if p != [] { assert p == [p[0]] + p[1..]; }
    }
    assert Child(j, "0") == Ok(Null) && GetChecked(Null, []) == Ok(Null);
  }

  lemma FlattenSingleZero(j: Json)
    requires j == Obj(map["0" := Null])
    ensures Flatten(j) == map["/0" := Null]
  {
    LeavesSingleZero(j);
    ZeroPointer();
    EntryAt("", j, ["0"]);
    assert "" + ToString(["0"]) == "/0";
    assert Texts("", {["0"]}) == {"/0"};
  }

  lemma UnflattenSingleZero()
    ensures Unflatten(Obj(map["/0" := Null])) == Ok(Arr([Null]))
  {
    var flat: map<string, Json> := map["/0" := Null];
    var keys := SortedKeys(flat.Keys);
    SortedListingUnique(keys, ["/0"], flat.Keys);
    ZeroPointer();
    SplitToString(["0"]);
    assert Assign(Null, ["0"], Null) == Ok(Arr([Null]));
    assert UnflattenFrom(flat, keys, 1, Arr([Null])) == Ok(Arr([Null]));
  }

  /** The smallest failing document: {"0": null} comes back as [null]. */
  lemma SingleZeroMember()
    ensures var j := Obj(map["0" := Null]);
            NoEmpty(j) && !ZeroSafe(j) && Unflatten(Obj(Flatten(j))) == Ok(Arr([Null]))
  {
    FlattenSingleZero(Obj(map["0" := Null]));
    UnflattenSingleZero();
    assert "0" in map["0" := Null];
  }

  /** The round trip of the methods. */
  method FlattenThenUnflatten(j: Json) returns (r: Result<Json>)
    requires Fits(j)
    ensures (r.Ok? && Equal(r.value, j)) <==> (NoEmpty(j) && ZeroSafe(j))
  {
    var flat := FlattenDocument(j);
    r := UnflattenLoop(Obj(flat));
    RoundTripExact(j);
  }
}
