/** `flatten` and `unflatten` (3rdparty/nlohmann/detail/json_pointer.hpp), and exactly which documents
    survive the round trip. */
module JsonFlatten {
  import opened Wrappers
  import opened Text
  import opened StringEscape
  import opened JsonPointer
  import opened JsonValue
  import opened JsonAccess

  // ------------------------------------------------- leaves

  /** The values that `flatten` writes down: primitive ones and empty containers. */
  predicate IsLeaf(j: Json) {
    match j
    case Arr(a) => a == []
    case Obj(m) => m == map[]
    case _ => true
  }

  /** An empty container is flattened to null. */
  function FlatValue(j: Json): Json {
    if IsPrimitive(j) then j else Null
  }

  function Under(t: string, qs: set<Tokens>): set<Tokens> {
    set q | q in qs :: [t] + q
  }

  lemma UnderMember(t: string, qs: set<Tokens>, p: Tokens)
    ensures p in Under(t, qs) <==> p != [] && p[0] == t && p[1..] in qs
  {
    if p != [] && p[0] == t && p[1..] in qs { assert p == [t] + p[1..]; }
    if p in Under(t, qs) {
      var q :| q in qs && p == [t] + q;
      assert p[1..] == q;
    }
  }

  /** The leaf pointers below the first elements of an array. */
  function ElemLeaves(j: Json, n: nat): set<Tokens>
    requires j.Arr? && n <= |j.elems|
    decreases j, 0, n
  {
    if n == 0 then {} else ElemLeaves(j, n - 1) + Under(Decimal(n - 1), Leaves(j.elems[n - 1]))
  }

  /** The leaf pointers below some members of an object. */
  function MemberLeaves(j: Json, keys: seq<string>): set<Tokens>
    requires j.Obj? && forall i | 0 <= i < |keys| :: keys[i] in j.members
    decreases j, 0, |keys|
  {
    if keys == [] then {}
    else
      var last := keys[|keys| - 1];
      MemberLeaves(j, keys[..|keys| - 1]) + Under(last, Leaves(j.members[last]))
  }

  /** The pointers to all leaves. */
  function Leaves(j: Json): set<Tokens>
    decreases j, 1
  {
    if IsLeaf(j) then {[]}
    else match j
      case Arr(a) => ElemLeaves(j, |a|)
      case Obj(m) => MemberLeaves(j, SortedKeys(m.Keys))
  }

  lemma {:induction false} ElemLeavesMember(j: Json, n: nat, p: Tokens)
    requires j.Arr? && n <= |j.elems| && Fits(j)
    ensures p in ElemLeaves(j, n) <==>
            && p != [] && ArrayIndex(p[0]).Ok? && ArrayIndex(p[0]).value < n
            && p[1..] in Leaves(j.elems[ArrayIndex(p[0]).value])
    decreases n
  {
    if n > 0 {
      ElemLeavesMember(j, n - 1, p);
      UnderMember(Decimal(n - 1), Leaves(j.elems[n - 1]), p);
      ArrayIndexDecimal(n - 1);
      if p != [] { ArrayIndexExact(p[0]); }
    }
  }

  lemma {:induction false} MemberLeavesMember(j: Json, keys: seq<string>, p: Tokens)
    requires j.Obj? && forall i | 0 <= i < |keys| :: keys[i] in j.members
    ensures p in MemberLeaves(j, keys) <==> p != [] && p[0] in keys && p[1..] in Leaves(j.members[p[0]])
    decreases |keys|
  {
    if keys != [] {
      var init, last := keys[..|keys| - 1], keys[|keys| - 1];
      MemberLeavesMember(j, init, p);
      UnderMember(last, Leaves(j.members[last]), p);
      assert keys == init + [last];
    }
  }

  /** Below a container, a leaf pointer is a child's token before a leaf pointer of the child. */
  lemma LeafAt(j: Json, p: Tokens)
    requires Fits(j) && !IsLeaf(j)
    ensures p in Leaves(j) <==> p != [] && Child(j, p[0]).Ok? && p[1..] in Leaves(Child(j, p[0]).value)
  {
    match j
    case Arr(a) =>
      ElemLeavesMember(j, |a|, p);
      if p != [] { ArrayIndexExact(p[0]); }
    case Obj(m) =>
      MemberLeavesMember(j, SortedKeys(m.Keys), p);
      assert p != [] ==> (p[0] in SortedKeys(m.Keys) <==> p[0] in m);
  }

  lemma LeafBelow(j: Json, t: string, q: Tokens)
    requires Fits(j) && !IsLeaf(j)
    ensures [t] + q in Leaves(j) <==> Child(j, t).Ok? && q in Leaves(Child(j, t).value)
    ensures [] !in Leaves(j)
  {
    LeafAt(j, [t] + q);
    LeafAt(j, []);
    assert ([t] + q)[1..] == q;
  }

  lemma LeafSplit(j: Json, p: Tokens)
    requires Fits(j) && !IsLeaf(j) && p in Leaves(j)
    ensures p != [] && p == [p[0]] + p[1..]
    ensures Child(j, p[0]).Ok? && p[1..] in Leaves(Child(j, p[0]).value)
  {
    LeafBelow(j, "", []);
    assert p == [p[0]] + p[1..];
    LeafBelow(j, p[0], p[1..]);
  }

  lemma FitsChild(j: Json, t: string)
    requires Fits(j) && Child(j, t).Ok?
    ensures Fits(Child(j, t).value) && Child(j, t).value < j && !IsLeaf(j)
  {}

  /** Leaves are what the pointers in `Leaves` resolve to. */
  lemma {:induction false} LeavesResolve(j: Json, p: Tokens)
    requires Fits(j)
    ensures p in Leaves(j) <==> GetChecked(j, p).Ok? && IsLeaf(GetChecked(j, p).value)
    decreases |p|
  {
    if p == [] {
      if !IsLeaf(j) { LeafBelow(j, "", []); }
    } else if IsLeaf(j) {
    } else {
      assert p == [p[0]] + p[1..];
      LeafBelow(j, p[0], p[1..]);
      if Child(j, p[0]).Ok? {
        FitsChild(j, p[0]);
        LeavesResolve(Child(j, p[0]).value, p[1..]);
      }
    }
  }

  lemma {:induction false} SomeLeaf(j: Json) returns (p: Tokens)
    requires Fits(j)
    ensures p in Leaves(j)
  {
    if IsLeaf(j) {
      p := [];
    } else if j.Arr? {
      var q := SomeLeaf(j.elems[0]);
      p := [Decimal(0)] + q;
      ArrayIndexDecimal(0);
      DecimalCanonical(0);
      LeafBelow(j, Decimal(0), q);
    } else {
      var k :| k in j.members;
      var q := SomeLeaf(j.members[k]);
      p := [k] + q;
      LeafBelow(j, k, q);
    }
  }

  // ------------------------------------------------- flatten

  /** The text under which the value at `p` is entered, and what is entered there. */
  function Texts(ref: string, ps: set<Tokens>): set<string> {
    set p | p in ps :: ref + ToString(p)
  }

  function EntryValue(ref: string, j: Json, text: string): Json {
    if |ref| <= |text| && Split(text[|ref|..]).Ok? && GetChecked(j, Split(text[|ref|..]).value).Ok?
    then FlatValue(GetChecked(j, Split(text[|ref|..]).value).value)
    else Null
  }

  lemma EntryAt(ref: string, j: Json, p: Tokens)
    requires GetChecked(j, p).Ok?
    ensures EntryValue(ref, j, ref + ToString(p)) == FlatValue(GetChecked(j, p).value)
  {
    assert (ref + ToString(p))[|ref|..] == ToString(p);
    SplitToString(p);
  }

  /** The entries for the given pointers, with `ref` before their text. */
  function FlatOver(ref: string, j: Json, ps: set<Tokens>): map<string, Json> {
    map text | text in Texts(ref, ps) :: EntryValue(ref, j, text)
  }

  /** `flatten`: the map from pointers, as text, to leaf values. */
  function Flatten(j: Json): map<string, Json> {
    FlatOver("", j, Leaves(j))
  }

  ghost predicate IsLeafText(j: Json, text: string) {
    exists p: Tokens :: p in Leaves(j) && text == ToString(p)
  }

  /** Its meaning: one entry for every leaf, holding the leaf's value, and no other entries. */
  lemma FlattenEntries(j: Json)
    requires Fits(j)
    ensures forall p: Tokens :: ToString(p) in Flatten(j) <==> GetChecked(j, p).Ok? && IsLeaf(GetChecked(j, p).value)
    ensures forall p <- Leaves(j) :: GetChecked(j, p).Ok? && ToString(p) in Flatten(j)
    ensures forall p <- Leaves(j) :: Flatten(j)[ToString(p)] == FlatValue(GetChecked(j, p).value)
    ensures forall text | text in Flatten(j) :: IsLeafText(j, text)
  {
    forall p: Tokens
      ensures ToString(p) in Flatten(j) <==> p in Leaves(j)
      ensures p in Leaves(j) <==> GetChecked(j, p).Ok? && IsLeaf(GetChecked(j, p).value)
      ensures p in Leaves(j) ==> Flatten(j)[ToString(p)] == FlatValue(GetChecked(j, p).value)
    {
      LeavesResolve(j, p);
      assert "" + ToString(p) == ToString(p);
      if ToString(p) in Flatten(j) {
        var q :| q in Leaves(j) && ToString(p) == "" + ToString(q);
        assert "" + ToString(q) == ToString(q);
        ToStringInjective(p, q);
      }
      if p in Leaves(j) { EntryAt("", j, p); }
    }
    forall text | text in Flatten(j) ensures IsLeafText(j, text) {
      var p :| p in Leaves(j) && text == "" + ToString(p);
      assert "" + ToString(p) == ToString(p);
    }
  }

  lemma EntryOf(j: Json, p: Tokens)
    requires Fits(j)
    ensures ToString(p) in Flatten(j) <==> GetChecked(j, p).Ok? && IsLeaf(GetChecked(j, p).value)
    ensures ToString(p) in Flatten(j) ==> Flatten(j)[ToString(p)] == FlatValue(GetChecked(j, p).value)
  {
    FlattenEntries(j);
    LeavesResolve(j, p);
  }

  /** The entry of a primitive value is the value, that of an empty array or object is null, and no other
      value has an entry. */
  lemma FlattenValues(j: Json, p: Tokens)
    requires Fits(j)
    ensures ToString(p) in Flatten(j) <==>
            GetChecked(j, p).Ok? &&
            var v := GetChecked(j, p).value; IsPrimitive(v) || v == Arr([]) || v == Obj(map[])
    ensures ToString(p) in Flatten(j) ==>
            var v := GetChecked(j, p).value; Flatten(j)[ToString(p)] == if v.Arr? || v.Obj? then Null else v
  {
    EntryOf(j, p);
  }

  predicate Resolve(j: Json, ps: set<Tokens>) {
    forall p <- ps :: GetChecked(j, p).Ok?
  }

  lemma LeavesAreResolved(j: Json)
    requires Fits(j)
    ensures Resolve(j, Leaves(j))
  {
    forall p | p in Leaves(j) ensures GetChecked(j, p).Ok? { LeavesResolve(j, p); }
  }

  lemma TextsBelow(ref: string, t: string, qs: set<Tokens>)
    ensures Texts(ref + "/" + Escape(t), qs) == Texts(ref, Under(t, qs))
  {
    var a, b := Texts(ref + "/" + Escape(t), qs), Texts(ref, Under(t, qs));
    forall q ensures ref + "/" + Escape(t) + ToString(q) == ref + ToString([t] + q) {
      ToStringCons(t, q);
      assert ref + "/" + Escape(t) + ToString(q) == ref + ("/" + Escape(t) + ToString(q));
    }
    forall text | text in a ensures text in b {
      var q :| q in qs && text == ref + "/" + Escape(t) + ToString(q);
      assert [t] + q in Under(t, qs);
    }
    forall text | text in b ensures text in a {
      var p :| p in Under(t, qs) && text == ref + ToString(p);
      var q :| q in qs && p == [t] + q;
    }
  }

  lemma EntryBelow(ref: string, j: Json, t: string, q: Tokens)
    requires Child(j, t).Ok? && GetChecked(Child(j, t).value, q).Ok?
    ensures var text := ref + "/" + Escape(t) + ToString(q);
            EntryValue(ref + "/" + Escape(t), Child(j, t).value, text) == EntryValue(ref, j, text)
  {
    var p := [t] + q;
    assert p[0] == t && p[1..] == q;
    assert GetChecked(j, p) == GetChecked(Child(j, t).value, q);
    ToStringCons(t, q);
    assert ref + "/" + Escape(t) + ToString(q) == ref + ToString(p);
    EntryAt(ref + "/" + Escape(t), Child(j, t).value, q);
    EntryAt(ref, j, p);
  }

  /** A child's entries are the container's entries below it. */
  lemma FlatChild(ref: string, j: Json, t: string, qs: set<Tokens>)
    requires Child(j, t).Ok? && Resolve(Child(j, t).value, qs)
    ensures FlatOver(ref + "/" + Escape(t), Child(j, t).value, qs) == FlatOver(ref, j, Under(t, qs))
  {
    var c, ref' := Child(j, t).value, ref + "/" + Escape(t);
    TextsBelow(ref, t, qs);
    forall text | text in Texts(ref', qs) ensures EntryValue(ref', c, text) == EntryValue(ref, j, text) {
      var q :| q in qs && text == ref' + ToString(q);
      EntryBelow(ref, j, t, q);
    }
  }

  lemma FlatUnion(ref: string, j: Json, ps: set<Tokens>, qs: set<Tokens>)
    ensures FlatOver(ref, j, ps + qs) == FlatOver(ref, j, ps) + FlatOver(ref, j, qs)
  {
    assert Texts(ref, ps + qs) == Texts(ref, ps) + Texts(ref, qs);
  }

  lemma FlatStep(ref: string, j: Json, result: map<string, Json>, t: string, done: set<Tokens>)
    requires Fits(j) && Child(j, t).Ok?
    ensures var c := Child(j, t).value;
            result + FlatOver(ref, j, done) + FlatOver(ref + "/" + Escape(t), c, Leaves(c)) ==
            result + FlatOver(ref, j, done + Under(t, Leaves(c)))
  {
    var c := Child(j, t).value;
    FitsChild(j, t);
    LeavesAreResolved(c);
    FlatChild(ref, j, t, Leaves(c));
    FlatUnion(ref, j, done, Under(t, Leaves(c)));
  }

  lemma FlatMemberStep(ref: string, j: Json, result: map<string, Json>, keys: seq<string>, i: nat)
    requires Fits(j) && j.Obj? && i < |keys| && forall i | 0 <= i < |keys| :: keys[i] in j.members
    ensures var c := j.members[keys[i]];
            result + FlatOver(ref, j, MemberLeaves(j, keys[..i]))
            + FlatOver(ref + "/" + Escape(keys[i]), c, Leaves(c)) ==
            result + FlatOver(ref, j, MemberLeaves(j, keys[..i + 1]))
  {
    FlatStep(ref, j, result, keys[i], MemberLeaves(j, keys[..i]));
    assert keys[..i + 1][..i] == keys[..i];
  }

  lemma FlatLeaf(ref: string, value: Json)
    requires IsLeaf(value)
    ensures FlatOver(ref, value, Leaves(value)) == map[ref := FlatValue(value)]
  {
    assert ref + ToString([]) == ref;
    assert GetChecked(value, []) == Ok(value);
    EntryAt(ref, value, []);
    assert Texts(ref, {[]}) == {ref};
  }

  /** The recursive `flatten`, which adds to a result object. */
  method FlattenInto(ref: string, value: Json, result: map<string, Json>) returns (r: map<string, Json>)
    requires Fits(value)
    ensures r == result + FlatOver(ref, value, Leaves(value))
    decreases value, 1
  {
    if IsLeaf(value) {
      FlatLeaf(ref, value);
      r := result[ref := if IsPrimitive(value) then value else Null];
    } else if value.Arr? {
      r := FlattenElems(ref, value, result);
    } else {
      r := FlattenMembers(ref, value, result);
    }
  }

  method FlattenElems(ref: string, value: Json, result: map<string, Json>) returns (r: map<string, Json>)
    requires Fits(value) && value.Arr? && value.elems != []
    ensures r == result + FlatOver(ref, value, Leaves(value))
    decreases value, 0
  {
    r := result;
    for i := 0 to |value.elems|
      invariant r == result + FlatOver(ref, value, ElemLeaves(value, i))
    {
      ArrayIndexDecimal(i);
      DecimalCanonical(i);
      DecimalPlain(i);
      FlatStep(ref, value, result, Decimal(i), ElemLeaves(value, i));
      r := FlattenInto(ref + "/" + Decimal(i), value.elems[i], r);
    }
  }

  lemma FlatNoMember(ref: string, value: Json, result: map<string, Json>, keys: seq<string>)
    requires value.Obj? && forall i | 0 <= i < |keys| :: keys[i] in value.members
    ensures result + FlatOver(ref, value, MemberLeaves(value, keys[..0])) == result
  {}

  lemma FlatAllMembers(ref: string, value: Json, keys: seq<string>)
    requires value.Obj? && value.members != map[] && keys == SortedKeys(value.members.Keys)
    ensures FlatOver(ref, value, MemberLeaves(value, keys[..|keys|])) == FlatOver(ref, value, Leaves(value))
  {
    assert keys[..|keys|] == keys;
  }

  method FlattenMembers(ref: string, value: Json, result: map<string, Json>) returns (r: map<string, Json>)
    requires Fits(value) && value.Obj? && value.members != map[]
    ensures r == result + FlatOver(ref, value, Leaves(value))
    decreases value, 0
  {
    r := result;
    var keys := SortedKeys(value.members.Keys);
    assert forall i | 0 <= i < |keys| :: keys[i] in value.members;
    FlatNoMember(ref, value, result, keys);
    for i := 0 to |keys|
      invariant r == result + FlatOver(ref, value, MemberLeaves(value, keys[..i]))
    {
      var key := keys[i];
      var escaped := EscapeInPlace(key);
      FlatMemberStep(ref, value, result, keys, i);
      r := FlattenInto(ref + "/" + escaped, value.members[key], r);
    }
    FlatAllMembers(ref, value, keys);
  }

  /** `flatten` of a whole document. */
  method FlattenDocument(j: Json) returns (r: map<string, Json>)
    requires Fits(j)
    ensures r == Flatten(j)
  {
    r := FlattenInto("", j, map[]);
  }

  // ------------------------------------------------- unflatten

  function Nulls(n: nat): seq<Json> { seq(n, i => Null) }

  /** `get_and_create` followed by the assignment to the reference it returns. */
  function Assign(j: Json, ts: Tokens, v: Json): Result<Json>
    decreases |ts|
  {
    if ts == [] then Ok(v)
    else
      var t := ts[0];
      match j
      case Null =>
        var c :- Assign(Null, ts[1..], v);
        Ok(if t == "0" then Arr([c]) else Obj(map[t := c]))
      case Obj(m) =>
        var c :- Assign(if t in m then m[t] else Null, ts[1..], v);
        Ok(Obj(m[t := c]))
      case Arr(a) =>
        var idx :- ArrayIndex(t);
        var b := if idx < |a| then a else a + Nulls(idx + 1 - |a|);
        var c :- Assign(b[idx], ts[1..], v);
        Ok(Arr(b[idx := c]))
      case _ => Err(TypeError(313))
  }

  /** The rounds of `unflatten` from the `i`-th key on. */
  function UnflattenFrom(flat: map<string, Json>, keys: seq<string>, i: nat, acc: Json): Result<Json>
    requires forall k | 0 <= k < |keys| :: keys[k] in flat
    decreases |keys| - i
  {
    if i >= |keys| then Ok(acc)
    else if !IsPrimitive(flat[keys[i]]) then Err(TypeError(315))
    else
      var ts :- Split(keys[i]);
      var next :- Assign(acc, ts, flat[keys[i]]);
      UnflattenFrom(flat, keys, i + 1, next)
  }

  /** `unflatten`. */
  function Unflatten(value: Json): Result<Json> {
    if !value.Obj? then Err(TypeError(314))
    else UnflattenFrom(value.members, SortedKeys(value.members.Keys), 0, Null)
  }

  /** The loop of `unflatten` over the members in key order. */
  method UnflattenLoop(value: Json) returns (r: Result<Json>)
    ensures r == Unflatten(value)
  {
    if !value.Obj? { return Err(TypeError(314)); }
    var flat := value.members;
    var keys := SortedKeys(flat.Keys);
    var result := Null;
    ghost var all := UnflattenFrom(flat, keys, 0, Null);
    for i := 0 to |keys|
      invariant all == UnflattenFrom(flat, keys, i, result)
    {
      var v := flat[keys[i]];
      if !IsPrimitive(v) { return Err(TypeError(315)); }
      var ts :- SplitLoop(keys[i]);
      result :- Assign(result, ts, v);
    }
    return Ok(result);
  }
}
