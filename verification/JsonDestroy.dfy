/** `json_value::destroy` of 3rdparty/nlohmann/json.hpp: a nested value is taken apart with an
    explicit stack, so that destructors never recurse. */
module JsonDestroy {
  import opened Wrappers
  import opened Text
  import opened JsonPointer
  import opened JsonValue
  import opened JsonAccess

  /** Everything below the values of a list, and the values themselves. */
  function Forest(s: seq<Json>): multiset<Json>
    decreases s
  {
    if s == [] then multiset{}
    else Forest(s[..|s| - 1]) + multiset{s[|s| - 1]} + Descendants(s[|s| - 1])
  }

  function MemberForest(j: Json, keys: seq<string>): multiset<Json>
    requires j.Obj? && forall i | 0 <= i < |keys| :: keys[i] in j.members
    decreases j, 0, |keys|
  {
    if keys == [] then multiset{}
    else
      var last := keys[|keys| - 1];
      MemberForest(j, keys[..|keys| - 1]) + multiset{j.members[last]} + Descendants(j.members[last])
  }

  /** The proper descendants of a value, with multiplicity. */
  function Descendants(j: Json): multiset<Json>
    decreases j, 1
  {
    match j
    case Arr(a) => Forest(a)
    case Obj(m) => MemberForest(j, SortedKeys(m.Keys))
    case _ => multiset{}
  }

  function ValuesOf(m: map<string, Json>, keys: seq<string>): seq<Json>
    requires forall i | 0 <= i < |keys| :: keys[i] in m
  {
    seq(|keys|, i requires 0 <= i < |keys| => m[keys[i]])
  }

  lemma {:induction false} MemberForestIsForest(j: Json, keys: seq<string>)
    requires j.Obj? && forall i | 0 <= i < |keys| :: keys[i] in j.members
    ensures MemberForest(j, keys) == Forest(ValuesOf(j.members, keys))
    decreases |keys|
  {
    if keys != [] {
      MemberForestIsForest(j, keys[..|keys| - 1]);
      var vs := ValuesOf(j.members, keys);
      assert vs[..|vs| - 1] == ValuesOf(j.members, keys[..|keys| - 1]);
    }
  }

  lemma {:induction false} ForestConcat(a: seq<Json>, b: seq<Json>)
    ensures Forest(a + b) == Forest(a) + Forest(b)
    decreases |b|
  {
    if b == [] {
      assert a + b == a;
    } else {
      assert (a + b)[..|a + b| - 1] == a + b[..|b| - 1];
      ForestConcat(a, b[..|b| - 1]);
    }
  }

  /** The children that `destroy` moves to its stack. */
  function Children(j: Json): seq<Json> {
    match j
    case Arr(a) => a
    case Obj(m) => ValuesOf(m, SortedKeys(m.Keys))
    case _ => []
  }

  lemma ChildrenForest(j: Json)
    ensures Forest(Children(j)) == Descendants(j)
  {
    if j.Obj? { MemberForestIsForest(j, SortedKeys(j.members.Keys)); }
  }

  // ------------------------------------------------- moving

  /** A value that has been moved from is null. */
  predicate AllMoved(values: seq<Json>) { forall i | 0 <= i < |values| :: values[i] == Null }

  predicate MembersMoved(m: map<string, Json>, keys: set<string>) {
    m.Keys == keys && forall k | k in m :: m[k] == Null
  }

  /** `std::move` of a range to the back of the stack. */
  method MoveElems(elems: seq<Json>, stack: seq<Json>) returns (elems': seq<Json>, stack': seq<Json>)
    ensures stack' == stack + elems && |elems'| == |elems| && AllMoved(elems')
  {
    elems', stack' := elems, stack;
    for i := 0 to |elems|
      invariant |elems'| == |elems| && AllMoved(elems'[..i]) && elems'[i..] == elems[i..]
      invariant stack' == stack + elems[..i]
    {
      stack' := stack' + [elems'[i]];
      elems' := elems'[i := Null];
    }
  }

  /** The loop that moves the members of an object, which are listed by `keys`. */
  method MoveMembers(members: map<string, Json>, keys: seq<string>, stack: seq<Json>)
    returns (members': map<string, Json>, stack': seq<Json>)
    requires forall i | 0 <= i < |keys| :: keys[i] in members
    requires forall i, k | 0 <= i < k < |keys| :: keys[i] != keys[k]
    ensures stack' == stack + ValuesOf(members, keys)
    ensures members'.Keys == members.Keys
    ensures forall k | k in members :: members'[k] == if k in keys then Null else members[k]
  {
    members', stack' := members, stack;
    for i := 0 to |keys|
      invariant members'.Keys == members.Keys
      invariant forall k | k in members :: members'[k] == if k in keys[..i] then Null else members[k]
      invariant stack' == stack + ValuesOf(members, keys)[..i]
    {
      assert keys[i] !in keys[..i];
      assert keys[..i + 1] == keys[..i] + [keys[i]];
      stack' := stack' + [members'[keys[i]]];
      members' := members'[keys[i] := Null];
    }
    assert keys[..|keys|] == keys;
  }

  /** A container after its children have been moved to the stack. */
  predicate MovedFrom(j: Json, shell: Json) {
    match j
    case Arr(a) => shell.Arr? && |shell.elems| == |a| && AllMoved(shell.elems)
    case Obj(m) => shell.Obj? && MembersMoved(shell.members, m.Keys)
    case _ => shell == j
  }

  /** The moves of both loops: the children go to the stack in order, and null shells remain. */
  method MoveChildren(j: Json, stack: seq<Json>) returns (shell: Json, stack': seq<Json>)
    ensures stack' == stack + Children(j) && MovedFrom(j, shell)
  {
    shell, stack' := j, stack;
    match j {
      case Arr(a) =>
        var elems;
        elems, stack' := MoveElems(a, stack);
        shell := Arr(elems);
      case Obj(m) =>
        var keys := SortedKeys(m.Keys);
        SortedDistinct(keys, m.Keys);
        var members;
        members, stack' := MoveMembers(m, keys, stack);
        shell := Obj(members);
      case _ =>
    }
  }

  // ------------------------------------------------- the loop

  /** What happens to a popped item: `moved` is what it holds when it is cleared, `left` what goes out of
      scope - of the same type, and without children. */
  predicate LeavesEmpty(item: Json, moved: Json, left: Json) {
    && MovedFrom(item, moved)
    && TypeOf(left) == TypeOf(item) && (left.Arr? ==> left.elems == []) && (left.Obj? ==> left.members == map[])
  }

  /** What one round takes off the stack and puts back. */
  lemma PopStep(stack: seq<Json>, children: seq<Json>)
    requires stack != [] && children == Children(stack[|stack| - 1])
    ensures Forest(stack) == multiset{stack[|stack| - 1]} + Forest(stack[..|stack| - 1] + children)
  {
    ChildrenForest(stack[|stack| - 1]);
    ForestConcat(stack[..|stack| - 1], children);
  }

  /** One round of `destroy`: the last item is moved off the stack, its children are moved onto it, the
      null shells in its container are cleared, and it goes out of scope. */
  method PopItem(stack: seq<Json>) returns (item: Json, moved: Json, left: Json, rest: seq<Json>)
    requires stack != []
    ensures item == stack[|stack| - 1] && LeavesEmpty(item, moved, left)
    ensures Forest(stack) == multiset{item} + Forest(rest)
  {
    item := stack[|stack| - 1];
    rest := stack[|stack| - 1 := Null];
    rest := rest[..|rest| - 1];
    PopStep(stack, Children(item));
    moved, rest := MoveChildren(item, rest);
    left := moved;
    if left.Arr? {
      left := Arr([]);
    } else if left.Obj? {
      left := Obj(map[]);
    }
  }

  /** The record of one round. */
  datatype Round = Round(item: Json, moved: Json, left: Json)

  ghost predicate AllLeaveEmpty(rounds: seq<Round>) {
    forall i | 0 <= i < |rounds| :: LeavesEmpty(rounds[i].item, rounds[i].moved, rounds[i].left)
  }

  function Items(rounds: seq<Round>): multiset<Json> {
    if rounds == [] then multiset{} else Items(rounds[..|rounds| - 1]) + multiset{rounds[|rounds| - 1].item}
  }

  lemma OneMoreRound(rounds: seq<Round>, r: Round)
    requires AllLeaveEmpty(rounds) && LeavesEmpty(r.item, r.moved, r.left)
    ensures AllLeaveEmpty(rounds + [r]) && Items(rounds + [r]) == Items(rounds) + multiset{r.item}
  {
    assert (rounds + [r])[..|rounds|] == rounds;
  }

  /** A round moves one value from the stack to those popped. */
  lemma NextRound(rounds: seq<Round>, r: Round, stack: seq<Json>, rest: seq<Json>)
    requires AllLeaveEmpty(rounds) && LeavesEmpty(r.item, r.moved, r.left)
    requires Forest(stack) == multiset{r.item} + Forest(rest)
    ensures AllLeaveEmpty(rounds + [r]) && Items(rounds + [r]) + Forest(rest) == Items(rounds) + Forest(stack)
    ensures |Forest(rest)| < |Forest(stack)|
  {
    OneMoreRound(rounds, r);
  }

  lemma {:induction false} ItemCount(rounds: seq<Round>)
    ensures |Items(rounds)| == |rounds|
  {
    if rounds != [] { ItemCount(rounds[..|rounds| - 1]); }
  }

  /** `destroy` of a container: `root` is what is left of it when it is deallocated. Every proper
      descendant is popped exactly once, and nothing that is cleared, that goes out of scope or that is
      left in the root has a child of its own. */
  method Destroy(j: Json) returns (rounds: seq<Round>, root: Json)
    ensures Items(rounds) == Descendants(j) && |rounds| == |Descendants(j)|
    ensures AllLeaveEmpty(rounds) && MovedFrom(j, root)
  {
    var stack;
    root, stack := MoveChildren(j, []);
    assert stack == Children(j);
    ChildrenForest(j);
    rounds := [];
    while stack != []
      invariant Items(rounds) + Forest(stack) == Descendants(j)
      invariant AllLeaveEmpty(rounds)
      decreases |Forest(stack)|
    {
      var item, moved, left, rest := PopItem(stack);
      NextRound(rounds, Round(item, moved, left), stack, rest);
      stack := rest;
      rounds := rounds + [Round(item, moved, left)];
    }
    ItemCount(rounds);
  }

  predicate Holds(j: Json, x: Json) { x == j || x in Descendants(j) }

  lemma {:induction false} ForestMember(s: seq<Json>, x: Json)
    ensures x in Forest(s) <==> exists i :: 0 <= i < |s| && Holds(s[i], x)
    decreases |s|
  {
    if s != [] {
      var init, last := s[..|s| - 1], s[|s| - 1];
      ForestMember(init, x);
      assert x in Forest(s) <==> x in Forest(init) || Holds(last, x);
      assert forall i | 0 <= i < |init| :: init[i] == s[i];
      if i :| 0 <= i < |s| && Holds(s[i], x) { assert i < |init| ==> Holds(init[i], x); }
    }
  }

  lemma ChildIsListed(j: Json, t: string)
    requires Child(j, t).Ok?
    ensures Child(j, t).value in Children(j)
  {
    if j.Obj? {
      var keys := SortedKeys(j.members.Keys);
      var i :| 0 <= i < |keys| && keys[i] == t;
      assert Children(j)[i] == j.members[t];
    }
  }

  lemma ListedIsChild(j: Json, i: nat) returns (t: string)
    requires Fits(j) && i < |Children(j)|
    ensures Child(j, t) == Ok(Children(j)[i]) && Children(j)[i] < j && Fits(Children(j)[i])
  {
    match j
    case Arr(_) =>
      t := Decimal(i);
      ArrayIndexDecimal(i);
      DecimalCanonical(i);
    case Obj(m) => t := SortedKeys(m.Keys)[i];
  }

  lemma {:induction false} ResolvedIsDescendant(j: Json, q: Tokens)
    requires q != [] && GetChecked(j, q).Ok?
    ensures GetChecked(j, q).value in Descendants(j)
    decreases |q|
  {
    var c := Child(j, q[0]).value;
    ChildIsListed(j, q[0]);
    ChildrenForest(j);
    var i :| 0 <= i < |Children(j)| && Children(j)[i] == c;
    if |q| > 1 { ResolvedIsDescendant(c, q[1..]); }
    assert Holds(Children(j)[i], GetChecked(j, q).value);
    ForestMember(Children(j), GetChecked(j, q).value);
  }

  lemma ChildOnTheWay(j: Json, x: Json) returns (t: string)
    requires Fits(j) && x in Descendants(j)
    ensures Child(j, t).Ok? && Child(j, t).value < j && Fits(Child(j, t).value) && Holds(Child(j, t).value, x)
  {
    ChildrenForest(j);
    ForestMember(Children(j), x);
    var i :| 0 <= i < |Children(j)| && Holds(Children(j)[i], x);
    t := ListedIsChild(j, i);
  }

  lemma {:induction false} DescendantIsResolved(j: Json, x: Json) returns (q: Tokens)
    requires Fits(j) && x in Descendants(j)
    ensures q != [] && GetChecked(j, q) == Ok(x)
    decreases j
  {
    var t := ChildOnTheWay(j, x);
    var c := Child(j, t).value;
    q := [t];
    if x == c {
      assert q[1..] == [];
    } else {
      var rest := DescendantIsResolved(c, x);
      q := [t] + rest;
      assert q[1..] == rest;
    }
  }

  /** The values that `destroy` pops are exactly those a non-empty pointer resolves to. */
  lemma DescendantsAreResolved(j: Json, x: Json)
    requires Fits(j)
    ensures x in Descendants(j) <==> exists q: Tokens :: q != [] && GetChecked(j, q) == Ok(x)
  {
    if x in Descendants(j) {
      var q := DescendantIsResolved(j, x);
    }
    forall q: Tokens | q != [] && GetChecked(j, q) == Ok(x) ensures x in Descendants(j) {
      ResolvedIsDescendant(j, q);
    }
  }
}
