/** `get_and_create` and `unflatten` on any input, not only on what `flatten` writes: when they throw, where an
    entry is found afterwards, and what else changes. */
module UnflattenEffects {
  import opened Wrappers
  import opened Text
  import opened StringEscape
  import opened JsonPointer
  import opened JsonValue
  import opened JsonAccess
  import opened JsonFlatten
  import opened PatchEffects

  // ------------------------------------------------- one assignment

  /** The exception for a value and the token that it meets; null becomes a container. */
  predicate Blocks(v: Json, t: string, e: Error) {
    match v
    case Null => false
    case Obj(_) => false
    case Arr(_) => ArrayIndex(t).Err? && e == ArrayIndex(t).error
    case _ => e == TypeError(313)
  }

  ghost predicate BlockedAt(j: Json, ts: Tokens, k: nat, e: Error) {
    k < |ts| && GetChecked(j, ts[..k]).Ok? && Blocks(GetChecked(j, ts[..k]).value, ts[k], e)
  }

  lemma BlockedBelow(j: Json, ts: Tokens, k: nat, e: Error)
    requires ts != [] && k > 0
    ensures BlockedAt(j, ts, k, e) <==> Child(j, ts[0]).Ok? && BlockedAt(Child(j, ts[0]).value, ts[1..], k - 1, e)
  {
    if k < |ts| { assert ts[..k][1..] == ts[1..][..k - 1] && ts[..k][0] == ts[0]; }
  }

  lemma {:induction false} NullTakes(ts: Tokens, v: Json)
    ensures Assign(Null, ts, v).Ok?
  {
    if ts != [] { NullTakes(ts[1..], v); }
  }

  /** What the assignment goes on with. */
  function Entered(j: Json, t: string): Json { if Child(j, t).Ok? then Child(j, t).value else Null }

  predicate IsBlocked(j: Json, t: string) { (j.Arr? && ArrayIndex(t).Err?) || (IsPrimitive(j) && !j.Null?) }

  lemma AssignStep(j: Json, ts: Tokens, v: Json, e: Error)
    requires ts != []
    ensures IsBlocked(j, ts[0]) ==> (Assign(j, ts, v) == Err(e) <==> Blocks(j, ts[0], e)) && Child(j, ts[0]).Err?
    ensures !IsBlocked(j, ts[0]) ==>
              (Assign(j, ts, v) == Err(e) <==> Assign(Entered(j, ts[0]), ts[1..], v) == Err(e)) && !Blocks(j, ts[0], e)
  {
    NullTakes(ts[1..], v);
    if j.Arr? { AssignStepElem(j, ts, v, e); }
  }

  lemma AssignStepElem(j: Json, ts: Tokens, v: Json, e: Error)
    requires ts != [] && j.Arr?
    ensures ArrayIndex(ts[0]).Err? ==>
              (Assign(j, ts, v) == Err(e) <==> e == ArrayIndex(ts[0]).error) && Child(j, ts[0]).Err?
    ensures ArrayIndex(ts[0]).Ok? ==>
              (Assign(j, ts, v) == Err(e) <==> Assign(Entered(j, ts[0]), ts[1..], v) == Err(e))
  {
    ArrayIndexExact("-");
  }

  /** `get_and_create` throws exactly where some prefix resolves to a primitive value other than null, or to an
      array for which the next token is no index. */
  lemma {:induction false} AssignExact(j: Json, ts: Tokens, v: Json, e: Error)
    ensures Assign(j, ts, v) == Err(e) <==> exists k: nat :: BlockedAt(j, ts, k, e)
    decreases |ts|
  {
    if ts != [] {
      AssignStep(j, ts, v, e);
      assert ts[..0] == [];
      assert BlockedAt(j, ts, 0, e) <==> Blocks(j, ts[0], e);
      AssignExact(Entered(j, ts[0]), ts[1..], v, e);
      NullTakes(ts[1..], v);
      if k: nat :| BlockedAt(j, ts, k, e) {
        if k > 0 { BlockedBelow(j, ts, k, e); }
      }
      if Child(j, ts[0]).Ok? {
        if k: nat :| BlockedAt(Child(j, ts[0]).value, ts[1..], k, e) { BlockedBelow(j, ts, k + 1, e); }
      }
    }
  }

  /** The assigned value is found at its pointer. */
  lemma {:induction false} AssignedIsFound(j: Json, ts: Tokens, v: Json)
    requires Assign(j, ts, v).Ok?
    ensures GetChecked(Assign(j, ts, v).value, ts) == Ok(v)
    decreases |ts|
  {
    if ts != [] {
      EnteredNext(j, ts, v);
      AssignedIsFound(Entered(j, ts[0]), ts[1..], v);
    }
  }

  /** One level of an assignment: the child of the first token is assigned to, or created. */
  lemma EnteredNext(j: Json, ts: Tokens, v: Json)
    requires ts != [] && Assign(j, ts, v).Ok?
    ensures var c := Assign(Entered(j, ts[0]), ts[1..], v);
            c.Ok? && Child(Assign(j, ts, v).value, ts[0]) == c
  {
    ArrayIndexExact("-");
    ZeroIndex();
  }

  lemma ZeroIndex()
    ensures ArrayIndex("0") == Ok(0)
  {
    ArrayIndexDecimal(0);
    assert Decimal(0) == "0";
  }

  /** A pointer that resolved and leaves the path resolves as before. */
  lemma {:induction false} AssignKeepsOthers(j: Json, ts: Tokens, v: Json, q: Tokens)
    requires Assign(j, ts, v).Ok? && GetChecked(j, q).Ok? && !(ts <= q) && !(q <= ts)
    ensures GetChecked(Assign(j, ts, v).value, q) == GetChecked(j, q)
    decreases |ts|
  {
    if q[0] == ts[0] {
      EnteredNext(j, ts, v);
      PrefixTail(ts, q);
      AssignKeepsOthers(Entered(j, ts[0]), ts[1..], v, q[1..]);
    } else {
      OtherChild(j, ts, v, q[0]);
    }
  }

  lemma PrefixTail(ts: Tokens, q: Tokens)
    requires ts != [] && q != [] && q[0] == ts[0]
    ensures ts[1..] <= q[1..] <==> ts <= q
    ensures q[1..] <= ts[1..] <==> q <= ts
  {
    assert ts == [ts[0]] + ts[1..] && q == [q[0]] + q[1..];
  }

  lemma OtherChild(j: Json, ts: Tokens, v: Json, t: string)
    requires ts != [] && t != ts[0] && Assign(j, ts, v).Ok? && Child(j, t).Ok?
    ensures Child(Assign(j, ts, v).value, t) == Child(j, t)
  {
    if j.Arr? {
      ArrayIndexExact(t);
      ArrayIndexExact(ts[0]);
    }
  }

  /** A value that no assignment creates on its way. */
  predicate IsSolid(w: Json) { IsPrimitive(w) && !w.Null? }

  /** Nothing but nulls and containers appears beside the path and above its end. */
  lemma {:induction false} AssignAddsNothing(j: Json, ts: Tokens, v: Json, q: Tokens, w: Json)
    requires Assign(j, ts, v).Ok? && GetChecked(Assign(j, ts, v).value, q) == Ok(w) && IsSolid(w) && !(ts <= q)
    ensures GetChecked(j, q) == Ok(w)
    decreases |ts|
  {
    EnteredNext(j, ts, v);
    if q != [] && q[0] == ts[0] {
      PrefixTail(ts, q);
      AssignAddsNothing(Entered(j, ts[0]), ts[1..], v, q[1..], w);
      assert GetChecked(Null, q[1..]) != Ok(w);
    } else if q != [] {
      OtherCreated(j, ts, v, q[0]);
      assert GetChecked(Null, q[1..]) != Ok(w);
    }
  }

  lemma OtherCreated(j: Json, ts: Tokens, v: Json, t: string)
    requires ts != [] && t != ts[0] && Assign(j, ts, v).Ok? && Child(Assign(j, ts, v).value, t).Ok?
    ensures Child(j, t) == Child(Assign(j, ts, v).value, t) || Child(Assign(j, ts, v).value, t) == Ok(Null)
  {
    if Assign(j, ts, v).value.Arr? {
      ArrayIndexExact(t);
      ArrayIndexExact(ts[0]);
    }
  }

  // ------------------------------------------------- all assignments

  /** The solid values that resolve are those of the first entries. */
  ghost predicate Collected(flat: map<string, Json>, keys: seq<string>, i: nat, acc: Json) {
    forall q: Tokens, w | IsSolid(w) :: GetChecked(acc, q) == Ok(w) <==> IsEntry(flat, keys, i, q, w)
  }

  predicate IsEntry(flat: map<string, Json>, keys: seq<string>, i: nat, q: Tokens, w: Json) {
    i <= |keys| && ToString(q) in keys[..i] && ToString(q) in flat && flat[ToString(q)] == w
  }

  lemma PrefixIsLess(p: Tokens, q: Tokens)
    requires p <= q && p != q
    ensures StrLess(ToString(p), ToString(q))
  {
    var rest := q[|p|..];
    assert q == p + rest;
    ToStringAppend(p, rest);
    StrLessPrefix(ToString(p), "", ToString(rest));
    assert ToString(p) + "" == ToString(p);
    ToStringCons(rest[0], rest[1..]);
    assert rest == [rest[0]] + rest[1..];
  }

  /** A solid value found before the assignment is found after it, unless the pointer is assigned to. */
  lemma SolidStays(flat: map<string, Json>, keys: seq<string>, i: nat, acc: Json, ts: Tokens, v: Json,
                   q: Tokens, w: Json)
    requires IsSortedListing(keys, flat.Keys) && i < |keys| && keys[i] == ToString(ts) && IsPrimitive(v)
    requires IsEntry(flat, keys, i, q, w) && IsSolid(w) && GetChecked(acc, q) == Ok(w) && Assign(acc, ts, v).Ok?
    ensures GetChecked(Assign(acc, ts, v).value, q) == Ok(w) && q != ts
  {
    var k :| 0 <= k < i && keys[k] == ToString(q);
    assert StrLess(ToString(q), ToString(ts));
    StrLessTotal(ToString(q), ToString(ts));
    if ts <= q {
      if ts != q { PrefixIsLess(ts, q); }
    } else if q <= ts {
      assert ts[..|q|] == q;
      assert BlockedAt(acc, ts, |q|, TypeError(313));
      AssignExact(acc, ts, v, TypeError(313));
    } else {
      AssignKeepsOthers(acc, ts, v, q);
    }
  }

  lemma CollectedStep(flat: map<string, Json>, keys: seq<string>, i: nat, acc: Json, ts: Tokens)
    requires IsSortedListing(keys, flat.Keys) && i < |keys| && keys[i] == ToString(ts) && IsPrimitive(flat[keys[i]])
    requires Collected(flat, keys, i, acc) && Assign(acc, ts, flat[keys[i]]).Ok?
    ensures Collected(flat, keys, i + 1, Assign(acc, ts, flat[keys[i]]).value)
  {
    var v := flat[keys[i]];
    var next := Assign(acc, ts, v).value;
    forall q: Tokens, w | IsSolid(w) ensures GetChecked(next, q) == Ok(w) <==> IsEntry(flat, keys, i + 1, q, w) {
      assert keys[..i + 1] == keys[..i] + [keys[i]];
      AssignedIsFound(acc, ts, v);
      if IsEntry(flat, keys, i, q, w) {
        SolidStays(flat, keys, i, acc, ts, v, q, w);
      } else if q == ts {
      } else {
        if ToString(q) == ToString(ts) { ToStringInjective(q, ts); }
        if GetChecked(next, q) == Ok(w) { SolidIsOld(acc, ts, v, q, w); }
      }
    }
  }

  lemma SolidIsOld(acc: Json, ts: Tokens, v: Json, q: Tokens, w: Json)
    requires Assign(acc, ts, v).Ok? && IsPrimitive(v) && IsSolid(w) && q != ts
    requires GetChecked(Assign(acc, ts, v).value, q) == Ok(w)
    ensures GetChecked(acc, q) == Ok(w)
  {
    if ts <= q {
      AssignedIsFound(acc, ts, v);
      assert q == ts + q[|ts|..];
      GetAppend(Assign(acc, ts, v).value, ts, q[|ts|..]);
    } else {
      AssignAddsNothing(acc, ts, v, q, w);
    }
  }

  lemma {:induction false} CollectedRest(flat: map<string, Json>, keys: seq<string>, i: nat, acc: Json)
    requires IsSortedListing(keys, flat.Keys) && i <= |keys| && Collected(flat, keys, i, acc)
    requires UnflattenFrom(flat, keys, i, acc).Ok?
    ensures Collected(flat, keys, |keys|, UnflattenFrom(flat, keys, i, acc).value)
    decreases |keys| - i
  {
    if i < |keys| {
      var ts := Split(keys[i]).value;
      ToStringSplit(keys[i]);
      CollectedStep(flat, keys, i, acc, ts);
      CollectedRest(flat, keys, i + 1, Assign(acc, ts, flat[keys[i]]).value);
    }
  }

  /** Whatever object `unflatten` accepts: the primitive values other than null that resolve in the result are
      exactly those of the entries, each at the pointer that is its name. */
  lemma UnflattenExact(value: Json, q: Tokens, w: Json)
    requires value.Obj? && Unflatten(value).Ok? && IsPrimitive(w) && !w.Null?
    ensures GetChecked(Unflatten(value).value, q) == Ok(w) <==>
            ToString(q) in value.members && value.members[ToString(q)] == w
  {
    var flat := value.members;
    var keys := SortedKeys(flat.Keys);
    assert Collected(flat, keys, 0, Null);
    CollectedRest(flat, keys, 0, Null);
    assert keys[..|keys|] == keys;
    assert GetChecked(Unflatten(value).value, q) == Ok(w) <==> IsEntry(flat, keys, |keys|, q, w);
  }

  // ------------------------------------------------- when unflattening fails

  lemma {:induction false} RoundsSucceed(flat: map<string, Json>, keys: seq<string>, i: nat, acc: Json, k: nat)
    requires (forall n | 0 <= n < |keys| :: keys[n] in flat) && i <= k < |keys|
    requires UnflattenFrom(flat, keys, i, acc).Ok?
    ensures IsPrimitive(flat[keys[k]]) && Split(keys[k]).Ok?
    decreases |keys| - i
  {
    if i < k { RoundsSucceed(flat, keys, i + 1, Assign(acc, Split(keys[i]).value, flat[keys[i]]).value, k); }
  }

  /** Only objects of primitive values under pointer texts are accepted. */
  lemma UnflattenAccepts(value: Json)
    ensures !value.Obj? ==> Unflatten(value) == Err(TypeError(314))
    ensures Unflatten(value).Ok? ==> forall k <- value.members.Keys :: IsPrimitive(value.members[k]) && Split(k).Ok?
  {
    if Unflatten(value).Ok? {
      var flat := value.members;
      var keys := SortedKeys(flat.Keys);
      forall k | k in flat ensures IsPrimitive(flat[k]) && Split(k).Ok? {
        var n :| 0 <= n < |keys| && keys[n] == k;
        RoundsSucceed(flat, keys, 0, Null, n);
      }
    }
  }

  /** The entry that `unflatten` fails at, after the entries before it were assigned: its value is a container, its
      name is no pointer, or the pointer is blocked. */
  ghost predicate FailsAt(flat: map<string, Json>, keys: seq<string>, n: nat, acc: Json, e: Error) {
    && n < |keys| && keys[n] in flat && Collected(flat, keys, n, acc)
    && if !IsPrimitive(flat[keys[n]]) then e == TypeError(315)
       else if Split(keys[n]).Err? then e == Split(keys[n]).error
       else exists k: nat :: BlockedAt(acc, Split(keys[n]).value, k, e)
  }

  lemma {:induction false} RoundsFail(flat: map<string, Json>, keys: seq<string>, i: nat, acc: Json)
    returns (n: nat, at: Json)
    requires IsSortedListing(keys, flat.Keys) && i <= |keys| && Collected(flat, keys, i, acc)
    requires UnflattenFrom(flat, keys, i, acc).Err?
    ensures FailsAt(flat, keys, n, at, UnflattenFrom(flat, keys, i, acc).error)
    decreases |keys| - i
  {
    n, at := i, acc;
    if IsPrimitive(flat[keys[i]]) && Split(keys[i]).Ok? {
      var ts := Split(keys[i]).value;
      var next := Assign(acc, ts, flat[keys[i]]);
      if next.Err? {
        AssignExact(acc, ts, flat[keys[i]], next.error);
      } else {
        ToStringSplit(keys[i]);
        CollectedStep(flat, keys, i, acc, ts);
        n, at := RoundsFail(flat, keys, i + 1, next.value);
      }
    }
  }

  lemma UnflattenFails(value: Json) returns (n: nat, acc: Json)
    requires value.Obj? && Unflatten(value).Err?
    ensures FailsAt(value.members, SortedKeys(value.members.Keys), n, acc, Unflatten(value).error)
  {
    var keys := SortedKeys(value.members.Keys);
    assert Collected(value.members, keys, 0, Null);
    n, acc := RoundsFail(value.members, keys, 0, Null);
  }
}
