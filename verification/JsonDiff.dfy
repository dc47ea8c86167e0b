/** `diff` of 3rdparty/nlohmann/json.hpp, and its round trip with `patch`. The patch that `diff`
    writes with pointer texts is first read back as a list of operations (DiffOps); applying that
    list is then followed through the two documents. */
module JsonDiff {
  import opened Wrappers
  import opened Text
  import opened StringEscape
  import opened JsonPointer
  import opened JsonValue
  import opened JsonAccess
  import opened JsonPatch

  // ------------------------------------------------- the operations of a diff

  /** Removals of the positions from `n - 1` down to `from`. */
  function RemoveTail(n: nat, from: nat): seq<Op> {
    if n <= from then [] else [Remove([Decimal(n - 1)])] + RemoveTail(n - 1, from)
  }

  function AddTail(target: seq<Json>, from: nat): seq<Op>
    decreases |target| - from
  {
    if from >= |target| then [] else [Add(["-"], target[from])] + AddTail(target, from + 1)
  }

  function AddMembers(source: map<string, Json>, target: map<string, Json>, keys: seq<string>): seq<Op>
    requires forall i | 0 <= i < |keys| :: keys[i] in target
  {
    if keys == [] then []
    else OtherMemberOps(source, target[keys[0]], keys[0]) + AddMembers(source, target, keys[1..])
  }

  /** The operations for one member of the target. */
  function OtherMemberOps(source: map<string, Json>, v: Json, key: string): seq<Op> {
    if key in source then [] else [Add([key], v)]
  }

  function DiffElems(source: Json, target: Json, i: nat): seq<Op>
    requires source.Arr? && target.Arr?
    decreases source, 0, |source.elems| - i
  {
    if i >= |source.elems| || i >= |target.elems| then []
    else LiftAll([Decimal(i)], DiffOps(source.elems[i], target.elems[i])) + DiffElems(source, target, i + 1)
  }

  function DiffMembers(source: Json, target: Json, keys: seq<string>): seq<Op>
    requires source.Obj? && target.Obj?
    requires forall i | 0 <= i < |keys| :: keys[i] in source.members
    decreases source, 0, |keys|
  {
    if keys == [] then []
    else OwnMemberOps(source, target, keys[0]) + DiffMembers(source, target, keys[1..])
  }

  /** The operations for one member of the source. */
  function OwnMemberOps(source: Json, target: Json, key: string): seq<Op>
    requires source.Obj? && target.Obj? && key in source.members
    decreases source, 0, 0
  {
    if key in target.members then LiftAll([key], DiffOps(source.members[key], target.members[key])) else [Remove([key])]
  }

  /** The operations that `diff` emits, with their pointers relative to the two values. */
  function DiffOps(source: Json, target: Json): seq<Op>
    decreases source, 1, 0
  {
    if Equal(source, target) then []
    else if TypeOf(source) != TypeOf(target) then [Replace([], target)]
    else match source
      case Arr(a) =>
        DiffElems(source, target, 0) + RemoveTail(|a|, |target.elems|) + AddTail(target.elems, |a|)
      case Obj(m) =>
        DiffMembers(source, target, SortedKeys(m.Keys)) + AddMembers(m, target.members, SortedKeys(target.members.Keys))
      case _ => [Replace([], target)]
  }

  // ------------------------------------------------- the text of a diff

  function Replacement(path: string, v: Json): Json {
    Obj(map["op" := Str("replace"), "path" := Str(path), "value" := v])
  }

  function Removal(path: string): Json {
    Obj(map["op" := Str("remove"), "path" := Str(path)])
  }

  function Addition(path: string, v: Json): Json {
    Obj(map["op" := Str("add"), "path" := Str(path), "value" := v])
  }

  lemma PathLifted(path: string, t: string, ptr: Tokens)
    ensures path + "/" + Escape(t) + ToString(ptr) == path + ToString([t] + ptr)
  {
    ToStringCons(t, ptr);
    assert path + "/" + Escape(t) + ToString(ptr) == path + ("/" + Escape(t) + ToString(ptr));
  }

  lemma EncodeOneLifted(path: string, t: string, op: Op)
    ensures Encode(path + "/" + Escape(t), op) == Encode(path, Lift([t], op))
  {
    PathLifted(path, t, op.path);
    if op.Move? || op.Copy? { PathLifted(path, t, op.from); }
  }

  /** Operations on a child, written behind the child's path, are the lifted operations. */
  lemma {:induction false} EncodeLifted(path: string, t: string, ops: seq<Op>)
    ensures EncodeAll(path + "/" + Escape(t), ops) == EncodeAll(path, LiftAll([t], ops))
  {
    if ops != [] {
      EncodeOneLifted(path, t, ops[0]);
      EncodeLifted(path, t, ops[1..]);
    }
  }

  lemma {:induction false} EncodeConcat(path: string, a: seq<Op>, b: seq<Op>)
    ensures EncodeAll(path, a + b) == EncodeAll(path, a) + EncodeAll(path, b)
  {
    if a == [] {
      assert a + b == b;
    } else {
      assert (a + b)[1..] == a[1..] + b;
      EncodeConcat(path, a[1..], b);
    }
  }

  lemma EncodeSingle(path: string, op: Op)
    ensures EncodeAll(path, [op]) == [Encode(path, op)]
  {
    assert [op][1..] == [];
    assert EncodeAll(path, []) == [];
  }

  /** The elements that `diff` writes itself. */
  lemma EncodeOwn(path: string, t: string, v: Json)
    ensures EncodeAll(path, [Add([t], v)]) == [Addition(path + "/" + Escape(t), v)]
    ensures EncodeAll(path, [Remove([t])]) == [Removal(path + "/" + Escape(t))]
    ensures EncodeAll(path, [Replace([], v)]) == [Replacement(path, v)]
  {
    ToStringCons(t, []);
    assert [t] + [] == [t];
    assert path + ("/" + Escape(t)) == path + "/" + Escape(t);
    assert path + "" == path && "/" + Escape(t) + "" == "/" + Escape(t);
    EncodeSingle(path, Add([t], v));
    EncodeSingle(path, Remove([t]));
    EncodeSingle(path, Replace([], v));
  }

  /** What has been emitted so far, and what is emitted next. */
  lemma Emit(path: string, done: seq<Op>, ops: seq<Op>, rest: seq<Op>)
    ensures done + (ops + rest) == (done + ops) + rest
    ensures EncodeAll(path, done + ops) == EncodeAll(path, done) + EncodeAll(path, ops)
  {
    EncodeConcat(path, done, ops);
  }

  /** `diff`: the elements of the patch array it returns. */
  method Diff(source: Json, target: Json, path: string) returns (result: seq<Json>)
    ensures result == EncodeAll(path, DiffOps(source, target))
    decreases source, 2
  {
    EncodeOwn(path, "", target);
    if Equal(source, target) {
      return [];
    }
    if TypeOf(source) != TypeOf(target) {
      return [Replacement(path, target)];
    }
    match source
    case Arr(s) =>
      var t := target.elems;
      result := DiffCommonElems(source, target, path);
      var removals := RemoveOwnRest(|s|, |t|, path);
      var additions := AddOtherRest(|s|, t, path);
      EncodeConcat(path, DiffElems(source, target, 0), RemoveTail(|s|, |t|));
      EncodeConcat(path, DiffElems(source, target, 0) + RemoveTail(|s|, |t|), AddTail(t, |s|));
      result := result + removals + additions;
    case Obj(s) =>
      result := DiffOwnMembers(source, target, SortedKeys(s.Keys), path);
      var additions := AddOtherMembers(s, target.members, SortedKeys(target.members.Keys), path);
      EncodeConcat(path, DiffMembers(source, target, SortedKeys(s.Keys)),
                   AddMembers(s, target.members, SortedKeys(target.members.Keys)));
      result := result + additions;
    case _ => result := [Replacement(path, target)];
  }

  /** The first pass over two arrays: the common positions. */
  method DiffCommonElems(source: Json, target: Json, path: string) returns (result: seq<Json>)
    requires source.Arr? && target.Arr?
    ensures result == EncodeAll(path, DiffElems(source, target, 0))
    decreases source, 0
  {
    var s, t := source.elems, target.elems;
    result := [];
    var i := 0;
    ghost var done: seq<Op> := [];
    while i < |s| && i < |t|
      invariant 0 <= i <= |s| && i <= |t|
      invariant result == EncodeAll(path, done)
      invariant DiffElems(source, target, 0) == done + DiffElems(source, target, i)
      decreases |s| - i
    {
      DecimalPlain(i);
      var tempDiff := Diff(s[i], t[i], path + "/" + Decimal(i));
      ghost var ops := LiftAll([Decimal(i)], DiffOps(s[i], t[i]));
      EncodeLifted(path, Decimal(i), DiffOps(s[i], t[i]));
      Emit(path, done, ops, DiffElems(source, target, i + 1));
      done := done + ops;
      result := result + tempDiff;
      i := i + 1;
    }
    assert done + [] == done;
  }

  /** The second pass: removals of the positions the target lacks. Each is inserted before the ones
      already there, so the positions are removed from the back. */
  method RemoveOwnRest(n: nat, from: nat, path: string) returns (result: seq<Json>)
    ensures result == EncodeAll(path, RemoveTail(n, from))
  {
    result := [];
    var i := from;
    while i < n
      invariant from <= i && (i == from || i <= n)
      invariant result == EncodeAll(path, RemoveTail(i, from))
      decreases n - i
    {
      DecimalPlain(i);
      EncodeOwn(path, Decimal(i), Null);
      EncodeConcat(path, [Remove([Decimal(i)])], RemoveTail(i, from));
      result := [Removal(path + "/" + Decimal(i))] + result;
      i := i + 1;
    }
    if n < from {
      assert RemoveTail(n, from) == [] && RemoveTail(from, from) == [];
    }
  }

  /** The third pass: additions of the positions only the target has. */
  method AddOtherRest(n: nat, target: seq<Json>, path: string) returns (result: seq<Json>)
    ensures result == EncodeAll(path, AddTail(target, n))
  {
    result := [];
    var i := n;
    ghost var done: seq<Op> := [];
    while i < |target|
      invariant n <= i
      invariant result == EncodeAll(path, done)
      invariant AddTail(target, n) == done + AddTail(target, i)
      decreases |target| - i
    {
      EscapePlain("-");
      EncodeOwn(path, "-", target[i]);
      assert path + "/" + "-" == path + "/-";
      Emit(path, done, [Add(["-"], target[i])], AddTail(target, i + 1));
      done := done + [Add(["-"], target[i])];
      result := result + [Addition(path + "/-", target[i])];
      i := i + 1;
    }
    assert done + [] == done;
  }

  method DiffOwnMember(source: Json, target: Json, key: string, path: string) returns (result: seq<Json>)
    requires source.Obj? && target.Obj? && key in source.members
    ensures result == EncodeAll(path, OwnMemberOps(source, target, key))
    decreases source, 0
  {
    var s, t := source.members, target.members;
    var escaped := EscapeInPlace(key);
    var pathKey := path + "/" + escaped;
    if key in t {
      result := Diff(s[key], t[key], pathKey);
      EncodeLifted(path, key, DiffOps(s[key], t[key]));
    } else {
      EncodeOwn(path, key, Null);
      result := [Removal(pathKey)];
    }
  }

  lemma EncodeAfter(path: string, before: seq<Json>, a: seq<Op>, b: seq<Op>)
    ensures before + EncodeAll(path, a + b) == (before + EncodeAll(path, a)) + EncodeAll(path, b)
  {
    EncodeConcat(path, a, b);
  }

  lemma OwnMembersAt(source: Json, target: Json, keys: seq<string>, i: nat, path: string, before: seq<Json>)
    requires source.Obj? && target.Obj? && i < |keys| && forall k | 0 <= k < |keys| :: keys[k] in source.members
    ensures before + EncodeAll(path, DiffMembers(source, target, keys[i..])) ==
            (before + EncodeAll(path, OwnMemberOps(source, target, keys[i])))
            + EncodeAll(path, DiffMembers(source, target, keys[i + 1..]))
  {
    var first, rest := OwnMemberOps(source, target, keys[i]), DiffMembers(source, target, keys[i + 1..]);
    assert DiffMembers(source, target, keys[i..]) == first + rest by { assert keys[i..][1..] == keys[i + 1..]; }
    EncodeAfter(path, before, first, rest);
  }

  /** The first pass over two objects: the members of the source. */
  method DiffOwnMembers(source: Json, target: Json, keys: seq<string>, path: string) returns (result: seq<Json>)
    requires source.Obj? && target.Obj? && forall k | 0 <= k < |keys| :: keys[k] in source.members
    ensures result == EncodeAll(path, DiffMembers(source, target, keys))
    decreases source, 1
  {
    result := [];
    assert keys[0..] == keys;
    for i := 0 to |keys|
      invariant result + EncodeAll(path, DiffMembers(source, target, keys[i..])) ==
                EncodeAll(path, DiffMembers(source, target, keys))
    {
      var more := DiffOwnMember(source, target, keys[i], path);
      OwnMembersAt(source, target, keys, i, path, result);
      result := result + more;
    }
    assert result + [] == result;
  }

  lemma OtherMembersAt(source: map<string, Json>, target: map<string, Json>, keys: seq<string>, i: nat, path: string,
                       before: seq<Json>)
    requires i < |keys| && forall k | 0 <= k < |keys| :: keys[k] in target
    ensures before + EncodeAll(path, AddMembers(source, target, keys[i..])) ==
            (before + EncodeAll(path, OtherMemberOps(source, target[keys[i]], keys[i])))
            + EncodeAll(path, AddMembers(source, target, keys[i + 1..]))
  {
    var first, rest := OtherMemberOps(source, target[keys[i]], keys[i]), AddMembers(source, target, keys[i + 1..]);
    assert AddMembers(source, target, keys[i..]) == first + rest by { assert keys[i..][1..] == keys[i + 1..]; }
    EncodeAfter(path, before, first, rest);
  }

  method AddOtherMember(source: map<string, Json>, v: Json, key: string, path: string) returns (result: seq<Json>)
    ensures result == EncodeAll(path, OtherMemberOps(source, v, key))
  {
    result := [];
    if key !in source {
      var escaped := EscapeInPlace(key);
      EncodeOwn(path, key, v);
      result := [Addition(path + "/" + escaped, v)];
    }
  }

  /** The second pass over two objects: the members only the target has. */
  method AddOtherMembers(source: map<string, Json>, target: map<string, Json>, keys: seq<string>, path: string)
    returns (result: seq<Json>)
    requires forall k | 0 <= k < |keys| :: keys[k] in target
    ensures result == EncodeAll(path, AddMembers(source, target, keys))
  {
    result := [];
    assert keys[0..] == keys;
    for i := 0 to |keys|
      invariant result + EncodeAll(path, AddMembers(source, target, keys[i..])) ==
                EncodeAll(path, AddMembers(source, target, keys))
    {
      var more := AddOtherMember(source, target[keys[i]], keys[i], path);
      OtherMembersAt(source, target, keys, i, path, result);
      result := result + more;
    }
    assert result + [] == result;
  }

  // ------------------------------------------------- the round trip

  lemma OneStep(doc: Json, op: Op)
    ensures RunOps(doc, [op]) == Apply(doc, op)
  {
    var o := Apply(doc, op);
    assert [op][1..] == [];
    assert o.error.None? ==> RunOps(o.doc, []) == o;
  }

  /** `doc` takes `ops` without an exception and ends as `r`. */
  predicate Reaches(doc: Json, ops: seq<Op>, r: Json) {
    RunOps(doc, ops) == Outcome(r, None)
  }

  lemma ReachesAppend(doc: Json, a: seq<Op>, mid: Json, b: seq<Op>, r: Json)
    requires Reaches(doc, a, mid) && Reaches(mid, b, r)
    ensures Reaches(doc, a + b, r)
  {
    RunAppend(doc, a, b);
  }

  lemma SetAtOne(doc: Json, t: string, r: Json)
    requires Child(doc, t).Ok?
    ensures GetChecked(doc, [t]) == Child(doc, t)
    ensures SetAt(doc, [t], r) == SetChild(doc, t, r)
  {
    var c := Child(doc, t).value;
    assert [t][1..] == [];
    assert GetChecked(c, []) == Ok(c) && SetAt(c, [], r) == r;
  }

  lemma ReachesChild(doc: Json, t: string, ops: seq<Op>, r: Json)
    requires Child(doc, t).Ok? && DiffBelow(ops) && Reaches(Child(doc, t).value, ops, r)
    ensures Reaches(doc, LiftAll([t], ops), SetChild(doc, t, r))
  {
    SetAtOne(doc, t, r);
    RunLocal(doc, [t], ops);
  }

  predicate DiffBelow(ops: seq<Op>) {
    forall i | 0 <= i < |ops| :: StaysBelow(ops[i])
  }

  lemma {:induction false} RemoveTailBelow(n: nat, from: nat)
    ensures DiffBelow(RemoveTail(n, from))
  {
    if n > from { RemoveTailBelow(n - 1, from); }
  }

  lemma {:induction false} AddTailBelow(target: seq<Json>, from: nat)
    ensures DiffBelow(AddTail(target, from))
    decreases |target| - from
  {
    if from < |target| { AddTailBelow(target, from + 1); }
  }

  lemma {:induction false} AddMembersBelow(source: map<string, Json>, target: map<string, Json>, keys: seq<string>)
    requires forall i | 0 <= i < |keys| :: keys[i] in target
    ensures DiffBelow(AddMembers(source, target, keys))
  {
    if keys != [] { AddMembersBelow(source, target, keys[1..]); }
  }

  lemma {:induction false} LiftBelow(t: string, ops: seq<Op>)
    ensures DiffBelow(LiftAll([t], ops))
  {
    if ops != [] { LiftBelow(t, ops[1..]); }
  }

  lemma {:induction false} DiffElemsBelow(source: Json, target: Json, i: nat)
    requires source.Arr? && target.Arr?
    ensures DiffBelow(DiffElems(source, target, i))
    decreases |source.elems| - i
  {
    if i < |source.elems| && i < |target.elems| {
      LiftBelow(Decimal(i), DiffOps(source.elems[i], target.elems[i]));
      DiffElemsBelow(source, target, i + 1);
    }
  }

  lemma {:induction false} DiffMembersBelow(source: Json, target: Json, keys: seq<string>)
    requires source.Obj? && target.Obj?
    requires forall i | 0 <= i < |keys| :: keys[i] in source.members
    ensures DiffBelow(DiffMembers(source, target, keys))
    decreases |keys|
  {
    if keys != [] {
      if keys[0] in target.members {
        LiftBelow(keys[0], DiffOps(source.members[keys[0]], target.members[keys[0]]));
      }
      DiffMembersBelow(source, target, keys[1..]);
    }
  }

  lemma DiffOpsBelow(source: Json, target: Json)
    ensures DiffBelow(DiffOps(source, target))
  {
    if !Equal(source, target) && TypeOf(source) == TypeOf(target) {
      match source
      case Arr(a) =>
        DiffElemsBelow(source, target, 0);
        RemoveTailBelow(|a|, |target.elems|);
        AddTailBelow(target.elems, |a|);
      case Obj(m) =>
        DiffMembersBelow(source, target, SortedKeys(m.Keys));
        AddMembersBelow(m, target.members, SortedKeys(target.members.Keys));
      case _ =>
    }
  }

  /** Removing from the back leaves the front. */
  lemma {:induction false} RemoveTailRuns(a: seq<Json>, from: nat)
    requires |a| < SIZE_MAX
    ensures Reaches(Arr(a), RemoveTail(|a|, from), Arr(if from < |a| then a[..from] else a))
    decreases |a|
  {
    if from < |a| {
      var n := |a| - 1;
      ArrayIndexDecimal(n);
      var op := Remove([Decimal(n)]);
      assert [Decimal(n)][..0] == [];
      assert a[..n] + a[n + 1..] == a[..n];
      assert Apply(Arr(a), op) == Outcome(Arr(a[..n]), None);
      OneStep(Arr(a), op);
      RemoveTailRuns(a[..n], from);
      assert from < n ==> a[..n][..from] == a[..from];
      ReachesAppend(Arr(a), [op], Arr(a[..n]), RemoveTail(n, from), Arr(a[..from]));
    }
  }

  /** Appending with "-" copies the rest of the target. */
  lemma {:induction false} AddTailRuns(a: seq<Json>, target: seq<Json>, from: nat)
    ensures Reaches(Arr(a), AddTail(target, from), Arr(if from < |target| then a + target[from..] else a))
    decreases |target| - from
  {
    if from < |target| {
      var op := Add(["-"], target[from]);
      var next := a + [target[from]];
      assert ["-"][..0] == [];
      assert Apply(Arr(a), op) == Outcome(Arr(next), None);
      OneStep(Arr(a), op);
      AddTailRuns(next, target, from + 1);
      assert a + target[from..] == (if from + 1 < |target| then next + target[from + 1..] else next);
      ReachesAppend(Arr(a), [op], Arr(next), AddTail(target, from + 1), Arr(a + target[from..]));
    }
  }

  /** The first pass over two arrays turns the common positions, one after another, into values equal
      to the target's; `cur` is the array in mid-pass. */
  lemma {:induction false} DiffElemsRuns(source: Json, target: Json, i: nat, cur: seq<Json>) returns (r: seq<Json>)
    requires source.Arr? && target.Arr? && Fits(source)
    requires i <= |source.elems| && i <= |target.elems| && |cur| == |source.elems|
    requires forall k | 0 <= k < i :: Equal(cur[k], target.elems[k])
    requires forall k | i <= k < |cur| :: cur[k] == source.elems[k]
    ensures Reaches(Arr(cur), DiffElems(source, target, i), Arr(r)) && |r| == |source.elems|
    ensures forall k | 0 <= k < |r| && k < |target.elems| :: Equal(r[k], target.elems[k])
    decreases source, 0, |source.elems| - i
  {
    var s, t := source.elems, target.elems;
    if i >= |s| || i >= |t| {
      r := cur;
    } else {
      var v := DiffRuns(s[i], t[i]);
      ArrayIndexDecimal(i);
      DecimalCanonical(i);
      DiffOpsBelow(s[i], t[i]);
      assert Child(Arr(cur), Decimal(i)) == Ok(s[i]);
      ReachesChild(Arr(cur), Decimal(i), DiffOps(s[i], t[i]), v);
      r := DiffElemsRuns(source, target, i + 1, cur[i := v]);
      ReachesAppend(Arr(cur), LiftAll([Decimal(i)], DiffOps(s[i], t[i])), Arr(cur[i := v]),
                    DiffElems(source, target, i + 1), Arr(r));
    }
  }

  /** The first pass over an object's members; `cur` is the object in mid-pass. */
  lemma {:induction false} DiffMembersRuns(source: Json, target: Json, keys: seq<string>, cur: map<string, Json>)
    returns (r: map<string, Json>)
    requires source.Obj? && target.Obj? && Fits(source)
    requires forall i | 0 <= i < |keys| :: keys[i] in source.members
    requires forall i, j | 0 <= i < j < |keys| :: keys[i] != keys[j]
    requires forall i | 0 <= i < |keys| :: keys[i] in cur && cur[keys[i]] == source.members[keys[i]]
    requires forall k | k in source.members && k in target.members && k !in keys ::
               k in cur && Equal(cur[k], target.members[k])
    requires forall k | k in cur && k !in keys :: k in source.members && k in target.members
    ensures Reaches(Obj(cur), DiffMembers(source, target, keys), Obj(r))
    ensures r.Keys == source.members.Keys * target.members.Keys
    ensures forall k | k in r :: Equal(r[k], target.members[k])
    decreases source, 0, |keys|
  {
    var s, t := source.members, target.members;
    if keys == [] {
      r := cur;
    } else {
      var key, rest := keys[0], keys[1..];
      assert key !in rest;
      assert forall k :: k in keys <==> k == key || k in rest;
      if key in t {
        var v := DiffRuns(s[key], t[key]);
        DiffOpsBelow(s[key], t[key]);
        ReachesChild(Obj(cur), key, DiffOps(s[key], t[key]), v);
        r := DiffMembersRuns(source, target, rest, cur[key := v]);
        ReachesAppend(Obj(cur), LiftAll([key], DiffOps(s[key], t[key])), Obj(cur[key := v]),
                      DiffMembers(source, target, rest), Obj(r));
      } else {
        var op := Remove([key]);
        assert [key][..0] == [];
        assert Apply(Obj(cur), op) == Outcome(Obj(cur - {key}), None);
        OneStep(Obj(cur), op);
        r := DiffMembersRuns(source, target, rest, cur - {key});
        ReachesAppend(Obj(cur), [op], Obj(cur - {key}), DiffMembers(source, target, rest), Obj(r));
      }
    }
  }

  /** The second pass adds the members that only the target has. */
  lemma {:induction false} AddMembersRuns(source: map<string, Json>, target: map<string, Json>, keys: seq<string>,
                                          cur: map<string, Json>)
    returns (r: map<string, Json>)
    requires forall i | 0 <= i < |keys| :: keys[i] in target
    requires forall k | k in cur :: k in target && Equal(cur[k], target[k])
    ensures Reaches(Obj(cur), AddMembers(source, target, keys), Obj(r))
    ensures forall k :: k in r <==> k in cur || (k in keys && k !in source)
    ensures forall k | k in r :: k in target && Equal(r[k], target[k])
  {
    if keys == [] {
      r := cur;
    } else {
      var key, rest := keys[0], keys[1..];
      assert forall k :: k in keys <==> k == key || k in rest;
      if key in source {
        r := AddMembersRuns(source, target, rest, cur);
        assert [] + AddMembers(source, target, rest) == AddMembers(source, target, rest);
      } else {
        var op := Add([key], target[key]);
        var next := cur[key := target[key]];
        assert [key][..0] == [];
        assert Apply(Obj(cur), op) == Outcome(Obj(next), None);
        OneStep(Obj(cur), op);
        EqualReflexive(target[key]);
        r := AddMembersRuns(source, target, rest, next);
        ReachesAppend(Obj(cur), [op], Obj(next), AddMembers(source, target, rest), Obj(r));
      }
    }
  }

  /** The operations of a diff turn the source into a value equal to the target. */
  lemma {:induction false} DiffRuns(source: Json, target: Json) returns (r: Json)
    requires Fits(source)
    ensures Reaches(source, DiffOps(source, target), r) && Equal(r, target)
    decreases source, 2, 0
  {
    if Equal(source, target) {
      r := source;
    } else if TypeOf(source) != TypeOf(target) || IsPrimitive(source) {
      OneStep(source, Replace([], target));
      EqualReflexive(target);
      r := target;
    } else if source.Arr? {
      r := DiffArrayRuns(source, target);
    } else {
      r := DiffObjectRuns(source, target);
    }
  }

  lemma {:induction false} DiffArrayRuns(source: Json, target: Json) returns (r: Json)
    requires Fits(source) && source.Arr? && target.Arr?
    ensures Reaches(source, DiffElems(source, target, 0) + RemoveTail(|source.elems|, |target.elems|)
                            + AddTail(target.elems, |source.elems|), r)
    ensures Equal(r, target)
    decreases source, 1, 0
  {
    var a, t := source.elems, target.elems;
    var common := DiffElemsRuns(source, target, 0, a);
    RemoveTailRuns(common, |t|);
    var kept := if |t| < |common| then common[..|t|] else common;
    AddTailRuns(kept, t, |a|);
    r := Arr(if |a| < |t| then kept + t[|a|..] else kept);
    ReachesThrice(source, DiffElems(source, target, 0), Arr(common), RemoveTail(|a|, |t|), Arr(kept),
                  AddTail(t, |a|), r);
    TailsEqual(common, t, |a|);
  }

  lemma ReachesThrice(doc: Json, a: seq<Op>, x: Json, b: seq<Op>, y: Json, c: seq<Op>, r: Json)
    requires Reaches(doc, a, x) && Reaches(x, b, y) && Reaches(y, c, r)
    ensures Reaches(doc, a + b + c, r)
  {
    ReachesAppend(doc, a, x, b, y);
    ReachesAppend(doc, a + b, y, c, r);
  }

  /** The common part equals the target's, the rest was removed or copied. */
  lemma TailsEqual(common: seq<Json>, t: seq<Json>, n: nat)
    requires |common| == n && forall k | 0 <= k < n && k < |t| :: Equal(common[k], t[k])
    ensures var kept := if |t| < n then common[..|t|] else common;
            Equal(Arr(if n < |t| then kept + t[n..] else kept), Arr(t))
  {
    var kept := if |t| < n then common[..|t|] else common;
    EqualArrays(if n < |t| then kept + t[n..] else kept, t);
  }

  /** Arrays are equal if their elements are equal or even the same. */
  lemma EqualArrays(a: seq<Json>, b: seq<Json>)
    requires |a| == |b| && forall k | 0 <= k < |a| :: a[k] == b[k] || Equal(a[k], b[k])
    ensures Equal(Arr(a), Arr(b))
  {
    forall k | 0 <= k < |a| ensures Equal(a[k], b[k]) { EqualReflexive(b[k]); }
  }

  lemma {:induction false} DiffObjectRuns(source: Json, target: Json) returns (r: Json)
    requires Fits(source) && source.Obj? && target.Obj?
    ensures Reaches(source, DiffMembers(source, target, SortedKeys(source.members.Keys))
                            + AddMembers(source.members, target.members, SortedKeys(target.members.Keys)), r)
    ensures Equal(r, target)
    decreases source, 1, 0
  {
    var m, t := source.members, target.members;
    SortedDistinct(SortedKeys(m.Keys), m.Keys);
    var common := DiffMembersRuns(source, target, SortedKeys(m.Keys), m);
    var all := AddMembersRuns(m, t, SortedKeys(t.Keys), common);
    r := Obj(all);
    ReachesAppend(source, DiffMembers(source, target, SortedKeys(m.Keys)), Obj(common),
                  AddMembers(m, t, SortedKeys(t.Keys)), r);
    MembersEqual(all, t);
  }

  lemma MembersEqual(a: map<string, Json>, b: map<string, Json>)
    requires forall k :: k in a <==> k in b
    requires forall k | k in a :: Equal(a[k], b[k])
    ensures Equal(Obj(a), Obj(b))
  {
    assert a.Keys == b.Keys;
  }

  /** The law of `diff` and `patch`: patching the source with `diff(source, target)` never throws and
      yields a value equal to the target. */
  lemma DiffPatchRoundTrip(source: Json, target: Json)
    requires Fits(source)
    ensures var o := Patch(source, Arr(EncodeAll("", DiffOps(source, target))));
            o.error.None? && Equal(o.doc, target)
  {
    RunEncoded(source, DiffOps(source, target));
    var r := DiffRuns(source, target);
  }

  /** The same law of the methods. */
  method DiffThenPatch(source: Json, target: Json) returns (r: Result<Json>)
    requires Fits(source)
    ensures r.Ok? && Equal(r.value, target)
  {
    var patch := Diff(source, target, "");
    DiffPatchRoundTrip(source, target);
    var doc := new Document(source);
    r := doc.PatchedCopy(Arr(patch));
  }

  /** An empty patch means equal values: `diff` finds every difference. */
  lemma EmptyDiff(source: Json, target: Json)
    requires Fits(source)
    ensures DiffOps(source, target) == [] <==> Equal(source, target)
  {
    var r := DiffRuns(source, target);
  }
}
