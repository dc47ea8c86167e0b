/** What `diff` emits: exactly one replacement for every place where both documents have values that
    cannot be changed from inside, and removals and additions for what only one of them has. */
module DiffMinimal {
  import opened Wrappers
  import opened Text
  import opened JsonPointer
  import opened JsonValue
  import opened JsonAccess
  import opened JsonPatch
  import opened JsonDiff

  // ------------------------------------------------- which operations are called for

  /** Both documents have a container of one type there. */
  predicate SameContainer(s: Json, t: Json, p: Tokens) {
    && GetChecked(s, p).Ok? && GetChecked(t, p).Ok?
    && TypeOf(GetChecked(s, p).value) == TypeOf(GetChecked(t, p).value) && !IsPrimitive(GetChecked(s, p).value)
  }

  /** Above `p` the two documents have the same shape. */
  predicate Parallel(s: Json, t: Json, p: Tokens) {
    forall k | 0 <= k < |p| :: SameContainer(s, t, p[..k])
  }

  /** The values differ and neither can be turned into the other from inside. */
  predicate Irreconcilable(x: Json, y: Json) {
    !Equal(x, y) && (TypeOf(x) != TypeOf(y) || IsPrimitive(x))
  }

  /** One of the elements from the given position on is `v`. */
  predicate Beyond(b: seq<Json>, from: nat, v: Json) {
    exists k :: from <= k < |b| && b[k] == v
  }

  /** The operation is called for by the two documents. */
  predicate CalledFor(s: Json, t: Json, op: Op) {
    && Parallel(s, t, op.path)
    && match op
       case Replace(p, v) =>
         && GetChecked(s, p).Ok? && GetChecked(t, p) == Ok(v) && Irreconcilable(GetChecked(s, p).value, v)
       case Remove(p) => GetChecked(s, p).Ok? && GetChecked(t, p).Err?
       case Add(p, v) =>
         && p != []
         && SameContainer(s, t, p[..|p| - 1])
         && (match GetChecked(t, p[..|p| - 1]).value
             case Arr(b) => p[|p| - 1] == "-" && Beyond(b, |GetChecked(s, p[..|p| - 1]).value.elems|, v)
             case _ => GetChecked(s, p).Err? && GetChecked(t, p) == Ok(v))
       case _ => false
  }

  // ------------------------------------------------- one token at a time

  predicate IsEdit(op: Op) { op.Add? || op.Remove? || op.Replace? }

  /** The operation seen from the child that its first token names. */
  function Lowered(op: Op): Op
    requires op.path != [] && IsEdit(op)
  {
    match op
    case Add(p, v) => Add(p[1..], v)
    case Remove(p) => Remove(p[1..])
    case Replace(p, v) => Replace(p[1..], v)
  }

  lemma GetCons(j: Json, p: Tokens, k: nat)
    requires p != [] && k < |p|
    ensures GetChecked(j, p[..k + 1]) ==
            match Child(j, p[0]) case Ok(c) => GetChecked(c, p[1..][..k]) case Err(e) => Err(e)
  {
    assert p[..k + 1][1..] == p[1..][..k];
  }

  predicate Both(s: Json, t: Json, key: string) {
    && TypeOf(s) == TypeOf(t) && !IsPrimitive(s) && Child(s, key).Ok? && Child(t, key).Ok?
  }

  lemma SameContainerCons(s: Json, t: Json, p: Tokens, k: nat)
    requires p != [] && k < |p| && Both(s, t, p[0])
    ensures SameContainer(s, t, p[..k + 1]) <==>
            SameContainer(Child(s, p[0]).value, Child(t, p[0]).value, p[1..][..k])
  {
    GetCons(s, p, k);
    GetCons(t, p, k);
  }

  lemma ParallelCons(s: Json, t: Json, p: Tokens)
    requires |p| > 1
    ensures Parallel(s, t, p) <==>
            Both(s, t, p[0]) && Parallel(Child(s, p[0]).value, Child(t, p[0]).value, p[1..])
  {
    assert p[..0] == [];
    if Parallel(s, t, p) {
      assert SameContainer(s, t, p[..0]);
      assert SameContainer(s, t, p[..1]);
      GetCons(s, p, 0);
      GetCons(t, p, 0);
      forall k | 0 <= k < |p[1..]| ensures SameContainer(Child(s, p[0]).value, Child(t, p[0]).value, p[1..][..k]) {
        assert SameContainer(s, t, p[..k + 1]);
        SameContainerCons(s, t, p, k);
      }
    }
    if Both(s, t, p[0]) && Parallel(Child(s, p[0]).value, Child(t, p[0]).value, p[1..]) {
      forall k | 0 <= k < |p| ensures SameContainer(s, t, p[..k]) {
        if k > 0 {
          assert SameContainer(Child(s, p[0]).value, Child(t, p[0]).value, p[1..][..k - 1]);
          SameContainerCons(s, t, p, k - 1);
        }
      }
    }
  }

  lemma ParallelOne(s: Json, t: Json, key: string)
    ensures Parallel(s, t, [key]) <==> TypeOf(s) == TypeOf(t) && !IsPrimitive(s)
  {
    assert [key][..0] == [];
    if Parallel(s, t, [key]) { assert SameContainer(s, t, [key][..0]); }
    if TypeOf(s) == TypeOf(t) && !IsPrimitive(s) {
      forall k | 0 <= k < |[key]| ensures SameContainer(s, t, [key][..k]) { assert [key][..k] == []; }
    }
  }

  lemma GetOne(j: Json, key: string)
    ensures GetChecked(j, [key]) == Child(j, key)
  {
    assert [key][1..] == [];
    assert Child(j, key).Ok? ==> GetChecked(Child(j, key).value, []) == Child(j, key);
  }

  lemma Whole(p: Tokens)
    requires p != []
    ensures p[..|p| - 1 + 1] == p && p[1..][..|p| - 1] == p[1..]
    ensures |p| > 1 ==> p[1..][..|p[1..]| - 1] == p[1..|p| - 1] && p[..|p| - 1] == p[..|p| - 2 + 1]
  {}

  /** Below the first token an operation is called for if it is for the two children. */
  lemma CalledForCons(s: Json, t: Json, op: Op)
    requires |op.path| > 1 && IsEdit(op)
    ensures CalledFor(s, t, op) <==>
            Both(s, t, op.path[0]) && CalledFor(Child(s, op.path[0]).value, Child(t, op.path[0]).value, Lowered(op))
  {
    var p := op.path;
    ParallelCons(s, t, p);
    Whole(p);
    GetCons(s, p, |p| - 1);
    GetCons(t, p, |p| - 1);
    GetCons(s, p, |p| - 2);
    GetCons(t, p, |p| - 2);
    assert p[1..][|p[1..]| - 1] == p[|p| - 1];
  }

  /** A replacement below one token. */
  lemma ReplaceOne(s: Json, t: Json, key: string, v: Json)
    ensures CalledFor(s, t, Replace([key], v)) <==>
            Both(s, t, key) && CalledFor(Child(s, key).value, Child(t, key).value, Replace([], v))
  {
    ParallelOne(s, t, key);
    GetOne(s, key);
    GetOne(t, key);
  }

  lemma RemoveOne(s: Json, t: Json, key: string)
    ensures CalledFor(s, t, Remove([key])) <==>
            TypeOf(s) == TypeOf(t) && !IsPrimitive(s) && Child(s, key).Ok? && Child(t, key).Err?
  {
    ParallelOne(s, t, key);
    GetOne(s, key);
    GetOne(t, key);
  }

  lemma AddOne(s: Json, t: Json, key: string, v: Json)
    ensures CalledFor(s, t, Add([key], v)) <==>
            && TypeOf(s) == TypeOf(t) && !IsPrimitive(s)
            && (match t
                case Arr(b) => key == "-" && Beyond(b, |s.elems|, v)
                case _ => Child(s, key).Err? && Child(t, key) == Ok(v))
  {
    ParallelOne(s, t, key);
    GetOne(s, key);
    GetOne(t, key);
    assert [key][..0] == [];
    assert GetChecked(s, []) == Ok(s) && GetChecked(t, []) == Ok(t);
  }

  // ------------------------------------------------- which operations a list has

  ghost predicate Edits(ops: seq<Op>) { forall op | op in ops :: IsEdit(op) }

  lemma {:induction false} LiftEdits(key: string, ops: seq<Op>)
    requires Edits(ops)
    ensures Edits(LiftAll([key], ops))
  {
    if ops != [] {
      assert ops[0] in ops && forall op | op in ops[1..] :: op in ops;
      LiftEdits(key, ops[1..]);
    }
  }

  /** The operation begins with the token, and behind it is one of the given ones. */
  predicate Behind(key: string, ops: seq<Op>, op: Op) {
    op.path != [] && op.path[0] == key && IsEdit(op) && Lowered(op) in ops
  }

  lemma LiftOne(key: string, o: Op, op: Op)
    requires IsEdit(o) && IsEdit(op)
    ensures op == Lift([key], o) <==> op.path != [] && op.path[0] == key && Lowered(op) == o
  {
    assert ([key] + o.path)[1..] == o.path;
    if op.path != [] { assert op.path == [op.path[0]] + op.path[1..]; }
  }

  lemma {:induction false} InLift(key: string, ops: seq<Op>, op: Op)
    requires Edits(ops) && IsEdit(op)
    ensures op in LiftAll([key], ops) <==> Behind(key, ops, op)
  {
    if ops != [] {
      assert forall o | o in ops[1..] :: o in ops;
      assert forall o :: o in ops <==> o == ops[0] || o in ops[1..];
      assert ops[0] in ops;
      LiftOne(key, ops[0], op);
      InLift(key, ops[1..], op);
    }
  }

  lemma {:induction false} InRemoveTail(n: nat, from: nat, op: Op)
    requires n <= SIZE_MAX
    ensures op in RemoveTail(n, from) <==>
            && op.Remove? && |op.path| == 1 && ArrayIndex(op.path[0]).Ok?
            && from <= ArrayIndex(op.path[0]).value < n
  {
    if n > from {
      InRemoveTail(n - 1, from, op);
      ArrayIndexDecimal(n - 1);
      if op.Remove? && |op.path| == 1 {
        ArrayIndexExact(op.path[0]);
        assert op.path == [op.path[0]];
      }
    }
  }

  lemma BeyondStep(b: seq<Json>, from: nat, v: Json)
    requires from < |b|
    ensures Beyond(b, from, v) <==> b[from] == v || Beyond(b, from + 1, v)
  {}

  lemma {:induction false} InAddTail(b: seq<Json>, from: nat, op: Op)
    ensures op in AddTail(b, from) <==> op.Add? && op.path == ["-"] && Beyond(b, from, op.value)
    decreases |b| - from
  {
    if from < |b| {
      InAddTail(b, from + 1, op);
      if op.Add? { BeyondStep(b, from, op.value); }
    }
  }

  lemma {:induction false} InAddMembers(s: map<string, Json>, t: map<string, Json>, keys: seq<string>, op: Op)
    requires forall i | 0 <= i < |keys| :: keys[i] in t
    ensures op in AddMembers(s, t, keys) <==>
            op.Add? && |op.path| == 1 && op.path[0] in keys && op.path[0] !in s && t[op.path[0]] == op.value
  {
    if keys != [] {
      assert forall k :: k in keys <==> k == keys[0] || k in keys[1..];
      InAddMembers(s, t, keys[1..], op);
      assert op.Add? && |op.path| == 1 ==> op.path == [op.path[0]];
    }
  }

  lemma {:induction false} ElemsEdits(s: Json, t: Json, i: nat)
    requires s.Arr? && t.Arr?
    ensures Edits(DiffElems(s, t, i))
    decreases s, 0, |s.elems| - i
  {
    if i < |s.elems| && i < |t.elems| {
      DiffEdits(s.elems[i], t.elems[i]);
      LiftEdits(Decimal(i), DiffOps(s.elems[i], t.elems[i]));
      ElemsEdits(s, t, i + 1);
    }
  }

  lemma {:induction false} MembersEdits(s: Json, t: Json, keys: seq<string>)
    requires s.Obj? && t.Obj? && forall i | 0 <= i < |keys| :: keys[i] in s.members
    ensures Edits(DiffMembers(s, t, keys))
    decreases s, 0, |keys|
  {
    if keys != [] {
      if keys[0] in t.members {
        DiffEdits(s.members[keys[0]], t.members[keys[0]]);
        LiftEdits(keys[0], DiffOps(s.members[keys[0]], t.members[keys[0]]));
      }
      MembersEdits(s, t, keys[1..]);
    }
  }

  /** A diff only replaces, removes and adds. */
  lemma {:induction false} DiffEdits(s: Json, t: Json)
    ensures Edits(DiffOps(s, t))
    decreases s, 1, 0
  {
    if !Equal(s, t) && TypeOf(s) == TypeOf(t) {
      match s
      case Arr(a) =>
        ElemsEdits(s, t, 0);
        forall op | op in RemoveTail(|a|, |t.elems|) ensures IsEdit(op) { RemovalsEdit(|a|, |t.elems|, op); }
        forall op | op in AddTail(t.elems, |a|) ensures IsEdit(op) { InAddTail(t.elems, |a|, op); }
      case Obj(m) =>
        MembersEdits(s, t, SortedKeys(m.Keys));
        forall op | op in AddMembers(m, t.members, SortedKeys(t.members.Keys)) ensures IsEdit(op) {
          InAddMembers(m, t.members, SortedKeys(t.members.Keys), op);
        }
      case _ =>
    }
  }

  lemma {:induction false} RemovalsEdit(n: nat, from: nat, op: Op)
    requires op in RemoveTail(n, from)
    ensures IsEdit(op)
  {
    if n > from && op in RemoveTail(n - 1, from) { RemovalsEdit(n - 1, from, op); }
  }

  /** An operation for a position that both arrays have. */
  predicate ElemOp(s: Json, t: Json, i: nat, op: Op)
    requires s.Arr? && t.Arr?
  {
    && op.path != [] && ArrayIndex(op.path[0]).Ok? && IsEdit(op)
    && var k := ArrayIndex(op.path[0]).value;
       i <= k < |s.elems| && k < |t.elems| && Lowered(op) in DiffOps(s.elems[k], t.elems[k])
  }

  lemma ElemOpHere(s: Json, t: Json, i: nat, op: Op)
    requires s.Arr? && t.Arr? && i < |s.elems| < SIZE_MAX && i < |t.elems| && IsEdit(op)
    ensures ElemOp(s, t, i, op) <==>
            Behind(Decimal(i), DiffOps(s.elems[i], t.elems[i]), op) || ElemOp(s, t, i + 1, op)
  {
    ArrayIndexDecimal(i);
    if op.path != [] { ArrayIndexExact(op.path[0]); }
  }

  lemma {:induction false} InDiffElems(s: Json, t: Json, i: nat, op: Op)
    requires s.Arr? && t.Arr? && |s.elems| < SIZE_MAX && IsEdit(op)
    ensures op in DiffElems(s, t, i) <==> ElemOp(s, t, i, op)
    decreases |s.elems| - i
  {
    if i < |s.elems| && i < |t.elems| {
      var ops := DiffOps(s.elems[i], t.elems[i]);
      DiffEdits(s.elems[i], t.elems[i]);
      InLift(Decimal(i), ops, op);
      InDiffElems(s, t, i + 1, op);
      ElemOpHere(s, t, i, op);
      assert op in DiffElems(s, t, i) <==> op in LiftAll([Decimal(i)], ops) || op in DiffElems(s, t, i + 1);
    }
  }

  predicate MemberOp(s: Json, t: Json, op: Op)
    requires s.Obj? && t.Obj? && IsEdit(op) && op.path != [] && op.path[0] in s.members
  {
    var key := op.path[0];
    if key in t.members then Lowered(op) in DiffOps(s.members[key], t.members[key]) else op == Remove([key])
  }

  lemma InOwnMember(s: Json, t: Json, key: string, op: Op)
    requires s.Obj? && t.Obj? && key in s.members && IsEdit(op)
    ensures op in OwnMemberOps(s, t, key) <==> op.path != [] && op.path[0] == key && MemberOp(s, t, op)
  {
    if key in t.members {
      DiffEdits(s.members[key], t.members[key]);
      InLift(key, DiffOps(s.members[key], t.members[key]), op);
    }
  }

  lemma {:induction false} InDiffMembers(s: Json, t: Json, keys: seq<string>, op: Op)
    requires s.Obj? && t.Obj? && IsEdit(op) && forall i | 0 <= i < |keys| :: keys[i] in s.members
    ensures op in DiffMembers(s, t, keys) <==> op.path != [] && op.path[0] in keys && MemberOp(s, t, op)
    decreases |keys|
  {
    if keys != [] {
      assert forall k :: k in keys <==> k == keys[0] || k in keys[1..];
      InOwnMember(s, t, keys[0], op);
      InDiffMembers(s, t, keys[1..], op);
      assert op in DiffMembers(s, t, keys) <==>
             op in OwnMemberOps(s, t, keys[0]) || op in DiffMembers(s, t, keys[1..]);
    }
  }

  // ------------------------------------------------- the exact law

  lemma EqualChildren(s: Json, t: Json, key: string)
    requires Equal(s, t) && TypeOf(s) == TypeOf(t) && !IsPrimitive(s)
    ensures Child(s, key).Ok? <==> Child(t, key).Ok?
    ensures Child(s, key).Ok? ==> Equal(Child(s, key).value, Child(t, key).value)
  {
    if s.Obj? { assert key in s.members.Keys <==> key in t.members.Keys; }
  }

  lemma EqualHere(s: Json, t: Json, op: Op)
    requires Equal(s, t) && |op.path| == 1 && !op.Replace?
    ensures !CalledFor(s, t, op)
  {
    var key := op.path[0];
    assert op.path == [key];
    if TypeOf(s) == TypeOf(t) && !IsPrimitive(s) { EqualChildren(s, t, key); }
    match op
    case Remove(_) => RemoveOne(s, t, key);
    case Add(_, v) => AddOne(s, t, key, v);
    case _ =>
  }

  /** Nothing is called for at or below a place where the values are equal. */
  lemma {:induction false} EqualCallsNothing(s: Json, t: Json, op: Op)
    requires Equal(s, t)
    ensures !CalledFor(s, t, op)
    decreases |op.path|
  {
    if op.path != [] && IsEdit(op) {
      var key := op.path[0];
      if |op.path| > 1 {
        CalledForCons(s, t, op);
        if Both(s, t, key) {
          EqualChildren(s, t, key);
          EqualCallsNothing(Child(s, key).value, Child(t, key).value, Lowered(op));
        }
      } else if op.Replace? {
        assert op.path == [key];
        ReplaceOne(s, t, key, op.value);
        if Both(s, t, key) {
          EqualChildren(s, t, key);
          EqualCallsNothing(Child(s, key).value, Child(t, key).value, Replace([], op.value));
        }
      } else {
        EqualHere(s, t, op);
      }
    }
  }

  lemma OtherTypeCalls(s: Json, t: Json, op: Op)
    requires Irreconcilable(s, t)
    ensures CalledFor(s, t, op) <==> op == Replace([], t)
  {
    if op.path != [] {
      assert op.path[..0] == [];
      assert Parallel(s, t, op.path) ==> SameContainer(s, t, op.path[..0]);
    }
  }

  /** What the recursion of `diff` says about an operation, for two containers of one type. */
  predicate Emitted(s: Json, t: Json, op: Op)
    requires TypeOf(s) == TypeOf(t) && !IsPrimitive(s)
  {
    && op.path != [] && IsEdit(op)
    && var key := op.path[0];
       if Child(s, key).Ok? && Child(t, key).Ok? then Lowered(op) in DiffOps(Child(s, key).value, Child(t, key).value)
       else
         && |op.path| == 1
         && match op
            case Remove(_) => Child(s, key).Ok? && Child(t, key).Err?
            case Add(_, v) =>
              (match t
               case Arr(b) => key == "-" && Beyond(b, |s.elems|, v)
               case _ => Child(s, key).Err? && Child(t, key) == Ok(v))
            case Replace(_, _) => false
  }

  lemma ArrayEmits(s: Json, t: Json, op: Op)
    requires Fits(s) && Fits(t) && s.Arr? && t.Arr? && !Equal(s, t)
    ensures op in DiffOps(s, t) <==> Emitted(s, t, op)
  {
    var a, b := s.elems, t.elems;
    DiffEdits(s, t);
    if IsEdit(op) {
      InDiffElems(s, t, 0, op);
      InRemoveTail(|a|, |b|, op);
      InAddTail(b, |a|, op);
      if op.path != [] {
        ArrayIndexExact(op.path[0]);
        ArrayIndexExact("-");
        if |op.path| == 1 { assert op.path == [op.path[0]]; }
      }
    }
  }

  predicate AddsMember(s: Json, t: Json, op: Op)
    requires s.Obj? && t.Obj?
  {
    && op.Add? && |op.path| == 1 && op.path[0] in t.members && op.path[0] !in s.members
    && t.members[op.path[0]] == op.value
  }

  lemma ObjectOps(s: Json, t: Json, op: Op)
    requires s.Obj? && t.Obj? && !Equal(s, t) && IsEdit(op)
    ensures op in DiffOps(s, t) <==>
            (op.path != [] && op.path[0] in s.members && MemberOp(s, t, op)) || AddsMember(s, t, op)
  {
    var ks, ls := SortedKeys(s.members.Keys), SortedKeys(t.members.Keys);
    InDiffMembers(s, t, ks, op);
    InAddMembers(s.members, t.members, ls, op);
    if op.path != [] {
      assert op.path[0] in ks <==> op.path[0] in s.members;
      assert op.path[0] in ls <==> op.path[0] in t.members;
    }
  }

  lemma ObjectEmits(s: Json, t: Json, op: Op)
    requires s.Obj? && t.Obj? && !Equal(s, t)
    ensures op in DiffOps(s, t) <==> Emitted(s, t, op)
  {
    DiffEdits(s, t);
    if IsEdit(op) {
      ObjectOps(s, t, op);
      if |op.path| == 1 { assert op.path == [op.path[0]]; }
    }
  }

  /** What is called for at a child of the root. */
  lemma CalledForHere(s: Json, t: Json, op: Op)
    requires TypeOf(s) == TypeOf(t) && !IsPrimitive(s) && |op.path| == 1 && IsEdit(op)
    requires !(Child(s, op.path[0]).Ok? && Child(t, op.path[0]).Ok?)
    ensures CalledFor(s, t, op) <==> Emitted(s, t, op)
  {
    var key := op.path[0];
    assert op.path == [key];
    match op
    case Remove(_) => RemoveOne(s, t, key);
    case Add(_, v) => AddOne(s, t, key, v);
    case Replace(_, v) => ReplaceOne(s, t, key, v);
  }

  /** Where both have the child, an operation is called for if it is for the two children; an addition or
      removal of the child itself is not. */
  lemma CalledForChild(s: Json, t: Json, op: Op)
    requires op.path != [] && IsEdit(op) && Both(s, t, op.path[0])
    ensures CalledFor(s, t, op) <==> CalledFor(Child(s, op.path[0]).value, Child(t, op.path[0]).value, Lowered(op))
  {
    var key := op.path[0];
    if |op.path| > 1 {
      CalledForCons(s, t, op);
    } else {
      assert op.path == [key];
      match op
      case Remove(_) => RemoveOne(s, t, key);
      case Add(_, v) => AddOne(s, t, key, v); DashIsNoChild(s);
      case Replace(_, v) => ReplaceOne(s, t, key, v);
    }
  }

  lemma DashIsNoChild(s: Json)
    ensures s.Arr? ==> Child(s, "-").Err?
  {}

  /** `diff` emits an operation if and only if the two documents call for it. */
  lemma {:induction false} DiffExact(s: Json, t: Json, op: Op)
    requires Fits(s) && Fits(t)
    ensures op in DiffOps(s, t) <==> CalledFor(s, t, op)
    decreases s
  {
    if Equal(s, t) {
      EqualCallsNothing(s, t, op);
    } else if TypeOf(s) != TypeOf(t) || IsPrimitive(s) {
      OtherTypeCalls(s, t, op);
    } else {
      if s.Arr? { ArrayEmits(s, t, op); } else { ObjectEmits(s, t, op); }
      if op.path != [] && IsEdit(op) {
        if Both(s, t, op.path[0]) {
          CalledForChild(s, t, op);
          DiffExact(Child(s, op.path[0]).value, Child(t, op.path[0]).value, Lowered(op));
        } else if |op.path| > 1 {
          CalledForCons(s, t, op);
        } else {
          CalledForHere(s, t, op);
        }
      }
    }
  }

  /** Where both documents have the first token's child, the operation is one of the diff of the two children. */
  lemma TouchedChild(s: Json, t: Json, op: Op)
    requires Fits(s) && Fits(t) && op in DiffOps(s, t) && op.path != []
    requires Child(s, op.path[0]).Ok? && Child(t, op.path[0]).Ok?
    ensures var c, d := Child(s, op.path[0]).value, Child(t, op.path[0]).value;
            Fits(c) && Fits(d) && IsEdit(op) && Lowered(op) in DiffOps(c, d) && Lowered(op).path == op.path[1..]
  {
    DiffExact(s, t, op);
    DiffEdits(s, t);
    assert op.path[..0] == [] && SameContainer(s, t, op.path[..0]);
    CalledForChild(s, t, op);
    DiffExact(Child(s, op.path[0]).value, Child(t, op.path[0]).value, Lowered(op));
  }

  /** No operation lies at or below a place where the two documents have equal values. */
  lemma {:induction false} DiffTouchesNoEqual(s: Json, t: Json, op: Op, p: Tokens)
    requires Fits(s) && Fits(t) && op in DiffOps(s, t) && p <= op.path
    requires GetChecked(s, p).Ok? && GetChecked(t, p).Ok?
    ensures !Equal(GetChecked(s, p).value, GetChecked(t, p).value)
    decreases |p|
  {
    if p == [] {
      DiffsAreUnequal(s, t, op);
    } else {
      assert p[0] == op.path[0] && p[1..] <= op.path[1..];
      TouchedChild(s, t, op);
      DiffTouchesNoEqual(Child(s, p[0]).value, Child(t, p[0]).value, Lowered(op), p[1..]);
    }
  }

  lemma DiffsAreUnequal(s: Json, t: Json, op: Op)
    requires op in DiffOps(s, t)
    ensures !Equal(s, t)
  {}

  // ------------------------------------------------- each operation once

  predicate Appends(op: Op) { op.Add? && op.path != [] && op.path[|op.path| - 1] == "-" }

  /** Only values appended to an array are added at one path. */
  predicate Apart(a: Op, b: Op) { a.path != b.path || (Appends(a) && Appends(b)) }

  ghost predicate Once(ops: seq<Op>) {
    forall i, j | 0 <= i < j < |ops| :: Apart(ops[i], ops[j])
  }

  lemma OnceConcat(a: seq<Op>, b: seq<Op>)
    requires Once(a) && Once(b) && forall x, y | x in a && y in b :: Apart(x, y)
    ensures Once(a + b)
  {
    var c := a + b;
    forall i, j | 0 <= i < j < |c| ensures Apart(c[i], c[j]) {
      if i < |a| && j >= |a| { assert c[i] in a && c[j] in b; }
    }
  }

  lemma {:induction false} LiftAt(key: string, ops: seq<Op>, i: nat)
    requires i < |ops|
    ensures |LiftAll([key], ops)| == |ops| && LiftAll([key], ops)[i] == Lift([key], ops[i])
    decreases |ops|
  {
    LiftLength(key, ops);
    if i > 0 { LiftAt(key, ops[1..], i - 1); }
  }

  lemma {:induction false} LiftLength(key: string, ops: seq<Op>)
    ensures |LiftAll([key], ops)| == |ops|
  {
    if ops != [] { LiftLength(key, ops[1..]); }
  }

  lemma LiftApart(key: string, a: Op, b: Op)
    requires Apart(a, b)
    ensures Apart(Lift([key], a), Lift([key], b))
  {
    assert ([key] + a.path)[1..] == a.path && ([key] + b.path)[1..] == b.path;
  }

  lemma LiftOnce(key: string, ops: seq<Op>)
    requires Once(ops)
    ensures Once(LiftAll([key], ops))
  {
    LiftLength(key, ops);
    var r := LiftAll([key], ops);
    forall i, j | 0 <= i < j < |r| ensures Apart(r[i], r[j]) {
      LiftAt(key, ops, i);
      LiftAt(key, ops, j);
      LiftApart(key, ops[i], ops[j]);
    }
  }

  lemma {:induction false} RemovalsOnce(n: nat, from: nat)
    requires n <= SIZE_MAX
    ensures Once(RemoveTail(n, from))
  {
    if n > from {
      RemovalsOnce(n - 1, from);
      var first, rest := [Remove([Decimal(n - 1)])], RemoveTail(n - 1, from);
      ArrayIndexDecimal(n - 1);
      forall x, y | x in first && y in rest ensures Apart(x, y) { InRemoveTail(n - 1, from, y); }
      OnceConcat(first, rest);
    }
  }

  lemma AppendsOnce(b: seq<Json>, from: nat)
    ensures Once(AddTail(b, from))
  {
    var ops := AddTail(b, from);
    forall i, j | 0 <= i < j < |ops| ensures Apart(ops[i], ops[j]) {
      InAddTail(b, from, ops[i]);
      InAddTail(b, from, ops[j]);
    }
  }

  lemma {:induction false} AdditionsOnce(s: map<string, Json>, t: map<string, Json>, keys: seq<string>)
    requires forall i | 0 <= i < |keys| :: keys[i] in t
    requires forall i, j | 0 <= i < j < |keys| :: keys[i] != keys[j]
    ensures Once(AddMembers(s, t, keys))
  {
    if keys != [] {
      var first, rest := OtherMemberOps(s, t[keys[0]], keys[0]), AddMembers(s, t, keys[1..]);
      AdditionsOnce(s, t, keys[1..]);
      assert keys[0] !in keys[1..];
      forall x, y | x in first && y in rest ensures Apart(x, y) { InAddMembers(s, t, keys[1..], y); }
      OnceConcat(first, rest);
    }
  }

  lemma {:induction false} ElemsOnce(s: Json, t: Json, i: nat)
    requires s.Arr? && t.Arr? && Fits(s) && Fits(t)
    ensures Once(DiffElems(s, t, i))
    decreases s, 0, |s.elems| - i
  {
    if i < |s.elems| && i < |t.elems| {
      var ops := DiffOps(s.elems[i], t.elems[i]);
      var first, rest := LiftAll([Decimal(i)], ops), DiffElems(s, t, i + 1);
      DiffOnce(s.elems[i], t.elems[i]);
      LiftOnce(Decimal(i), ops);
      ElemsOnce(s, t, i + 1);
      ElemsApart(s, t, i);
      OnceConcat(first, rest);
    }
  }

  lemma ElemsApart(s: Json, t: Json, i: nat)
    requires s.Arr? && t.Arr? && Fits(s) && i < |s.elems| && i < |t.elems|
    ensures forall x, y | x in LiftAll([Decimal(i)], DiffOps(s.elems[i], t.elems[i])) && y in DiffElems(s, t, i + 1) ::
              Apart(x, y)
  {
    var ops := DiffOps(s.elems[i], t.elems[i]);
    DiffEdits(s.elems[i], t.elems[i]);
    LiftEdits(Decimal(i), ops);
    ElemsEdits(s, t, i + 1);
    ArrayIndexDecimal(i);
    forall x, y | x in LiftAll([Decimal(i)], ops) && y in DiffElems(s, t, i + 1) ensures Apart(x, y) {
      InLift(Decimal(i), ops, x);
      InDiffElems(s, t, i + 1, y);
    }
  }

  lemma {:induction false} MembersOnce(s: Json, t: Json, keys: seq<string>)
    requires s.Obj? && t.Obj? && Fits(s) && Fits(t) && forall i | 0 <= i < |keys| :: keys[i] in s.members
    requires forall i, j | 0 <= i < j < |keys| :: keys[i] != keys[j]
    ensures Once(DiffMembers(s, t, keys))
    decreases s, 0, |keys|
  {
    if keys != [] {
      var key := keys[0];
      var first, rest := OwnMemberOps(s, t, key), DiffMembers(s, t, keys[1..]);
      if key in t.members {
        DiffOnce(s.members[key], t.members[key]);
        LiftOnce(key, DiffOps(s.members[key], t.members[key]));
      }
      MembersOnce(s, t, keys[1..]);
      MembersApart(s, t, keys);
      OnceConcat(first, rest);
    }
  }

  lemma MembersApart(s: Json, t: Json, keys: seq<string>)
    requires s.Obj? && t.Obj? && keys != [] && forall i | 0 <= i < |keys| :: keys[i] in s.members
    requires forall i, j | 0 <= i < j < |keys| :: keys[i] != keys[j]
    ensures forall x, y | x in OwnMemberOps(s, t, keys[0]) && y in DiffMembers(s, t, keys[1..]) :: Apart(x, y)
  {
    assert keys[0] !in keys[1..];
    MembersEdits(s, t, keys[1..]);
    OwnEdits(s, t, keys[0]);
    forall x, y | x in OwnMemberOps(s, t, keys[0]) && y in DiffMembers(s, t, keys[1..]) ensures Apart(x, y) {
      InOwnMember(s, t, keys[0], x);
      InDiffMembers(s, t, keys[1..], y);
    }
  }

  lemma OwnEdits(s: Json, t: Json, key: string)
    requires s.Obj? && t.Obj? && key in s.members
    ensures Edits(OwnMemberOps(s, t, key))
  {
    if key in t.members {
      DiffEdits(s.members[key], t.members[key]);
      LiftEdits(key, DiffOps(s.members[key], t.members[key]));
    }
  }

  /** The three passes over two arrays name different paths. */
  lemma ArrayOnce(s: Json, t: Json)
    requires s.Arr? && t.Arr? && Fits(s) && Fits(t) && Once(DiffElems(s, t, 0))
    ensures Once(DiffElems(s, t, 0) + RemoveTail(|s.elems|, |t.elems|) + AddTail(t.elems, |s.elems|))
  {
    var x, y, z := DiffElems(s, t, 0), RemoveTail(|s.elems|, |t.elems|), AddTail(t.elems, |s.elems|);
    RemovalsOnce(|s.elems|, |t.elems|);
    AppendsOnce(t.elems, |s.elems|);
    ElemsEdits(s, t, 0);
    forall o, p | o in x && p in y ensures Apart(o, p) {
      InDiffElems(s, t, 0, o);
      InRemoveTail(|s.elems|, |t.elems|, p);
    }
    OnceConcat(x, y);
    ArrayIndexExact("-");
    forall o, p | o in x + y && p in z ensures Apart(o, p) {
      if o in x { InDiffElems(s, t, 0, o); } else { InRemoveTail(|s.elems|, |t.elems|, o); }
      InAddTail(t.elems, |s.elems|, p);
    }
    OnceConcat(x + y, z);
  }

  lemma ObjectOnce(s: Json, t: Json)
    requires s.Obj? && t.Obj? && Once(DiffMembers(s, t, SortedKeys(s.members.Keys)))
    ensures Once(DiffMembers(s, t, SortedKeys(s.members.Keys))
                 + AddMembers(s.members, t.members, SortedKeys(t.members.Keys)))
  {
    var ks, ls := SortedKeys(s.members.Keys), SortedKeys(t.members.Keys);
    SortedDistinct(ls, t.members.Keys);
    AdditionsOnce(s.members, t.members, ls);
    MembersEdits(s, t, ks);
    forall o, p | o in DiffMembers(s, t, ks) && p in AddMembers(s.members, t.members, ls) ensures Apart(o, p) {
      InDiffMembers(s, t, ks, o);
      InAddMembers(s.members, t.members, ls, p);
    }
    OnceConcat(DiffMembers(s, t, ks), AddMembers(s.members, t.members, ls));
  }

  /** No path is named twice, but for several values appended to one array. */
  lemma {:induction false} DiffOnce(s: Json, t: Json)
    requires Fits(s) && Fits(t)
    ensures Once(DiffOps(s, t))
    decreases s, 1, 0
  {
    if !Equal(s, t) && TypeOf(s) == TypeOf(t) {
      match s
      case Arr(_) =>
        ElemsOnce(s, t, 0);
        ArrayOnce(s, t);
      case Obj(m) =>
        SortedDistinct(SortedKeys(m.Keys), m.Keys);
        MembersOnce(s, t, SortedKeys(m.Keys));
        ObjectOnce(s, t);
      case _ =>
    }
  }
}
