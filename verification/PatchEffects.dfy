/** What each operation of a JSON Patch does to the document, said of the pointers that resolve before and
    after it, and how the members of a patch element name an operation. */
module PatchEffects {
  import opened Wrappers
  import opened Text
  import opened JsonPointer
  import opened JsonValue
  import opened JsonAccess
  import opened JsonPatch

  // ------------------------------------------------- before and after

  /** Every pointer that leaves the path to `p` resolves as before. */
  ghost predicate SameBeside(doc: Json, after: Json, p: Tokens) {
    forall q: Tokens | !(p <= q) && !(q <= p) :: GetChecked(after, q) == GetChecked(doc, q)
  }

  /** Every other member is as before. */
  ghost predicate SameButFor(m: map<string, Json>, n: map<string, Json>, key: string) {
    forall k | k != key :: (k in n <==> k in m) && (k in m ==> n[k] == m[k])
  }

  /** The value is at position `i`, and what was there and behind it has moved up by one. */
  predicate InsertedAt(a: seq<Json>, b: seq<Json>, i: nat, v: Json) {
    && |b| == |a| + 1 && i <= |a| && b[i] == v
    && (forall k | 0 <= k < i :: b[k] == a[k])
    && (forall k | i <= k < |a| :: b[k + 1] == a[k])
  }

  ghost predicate Inserted(parent: Json, after: Json, last: string, v: Json) {
    match parent
    case Null => after == Obj(map[last := v])
    case Obj(m) => after.Obj? && last in after.members && after.members[last] == v && SameButFor(m, after.members, last)
    case Arr(a) =>
      && after.Arr?
      && (if last == "-" then InsertedAt(a, after.elems, |a|, v)
          else ArrayIndex(last).Ok? && InsertedAt(a, after.elems, ArrayIndex(last).value, v))
    case _ => !ASSERTIONS && after == parent
  }

  ghost predicate Deleted(parent: Json, after: Json, last: string) {
    match parent
    case Obj(m) => last in m && after.Obj? && last !in after.members && SameButFor(m, after.members, last)
    case Arr(a) =>
      && after.Arr? && ArrayIndex(last).Ok? && ArrayIndex(last).value < |a|
      && InsertedAt(after.elems, a, ArrayIndex(last).value, a[ArrayIndex(last).value])
    case _ => after == parent
  }

  ghost predicate IsAdded(doc: Json, ptr: Tokens, v: Json, after: Json) {
    if ptr == [] then after == v
    else
      var init := ptr[..|ptr| - 1];
      && GetChecked(doc, init).Ok? && GetChecked(after, init).Ok? && SameBeside(doc, after, init)
      && Inserted(GetChecked(doc, init).value, GetChecked(after, init).value, ptr[|ptr| - 1], v)
  }

  ghost predicate IsRemoved(doc: Json, ptr: Tokens, after: Json) {
    && ptr != []
    && var init := ptr[..|ptr| - 1];
       && GetChecked(doc, init).Ok? && GetChecked(after, init).Ok? && SameBeside(doc, after, init)
       && Deleted(GetChecked(doc, init).value, GetChecked(after, init).value, ptr[|ptr| - 1])
  }

  ghost predicate IsReplaced(doc: Json, ptr: Tokens, v: Json, after: Json) {
    GetChecked(doc, ptr).Ok? && GetChecked(after, ptr) == Ok(v) && SameBeside(doc, after, ptr)
  }

  lemma SetAtBeside(doc: Json, p: Tokens, v: Json)
    requires GetChecked(doc, p).Ok?
    ensures GetChecked(SetAt(doc, p, v), p) == Ok(v) && SameBeside(doc, SetAt(doc, p, v), p)
  {
    SetAtLaws(doc, p, v, v);
    forall q: Tokens | !(p <= q) && !(q <= p) ensures GetChecked(SetAt(doc, p, v), q) == GetChecked(doc, q) {
      GraftElsewhere(doc, p, v, q);
    }
  }

  lemma AddChildInserts(parent: Json, last: string, v: Json)
    requires AddChild(parent, last, v).Ok?
    ensures Inserted(parent, AddChild(parent, last, v).value, last, v)
  {}

  lemma RemoveChildDeletes(parent: Json, last: string)
    requires RemoveChild(parent, last).Ok?
    ensures Deleted(parent, RemoveChild(parent, last).value, last)
  {}

  lemma AddIsAdded(doc: Json, ptr: Tokens, v: Json)
    requires OperationAdd(doc, ptr, v).Ok?
    ensures IsAdded(doc, ptr, v, OperationAdd(doc, ptr, v).value)
  {
    if ptr != [] {
      var init, last := ptr[..|ptr| - 1], ptr[|ptr| - 1];
      TopLookupRedundant(doc, ptr, v);
      var parent := GetChecked(doc, init).value;
      AddChildInserts(parent, last, v);
      SetAtBeside(doc, init, AddChild(parent, last, v).value);
    }
  }

  lemma RemoveIsRemoved(doc: Json, ptr: Tokens)
    requires OperationRemove(doc, ptr).Ok?
    ensures IsRemoved(doc, ptr, OperationRemove(doc, ptr).value)
  {
    var init, last := ptr[..|ptr| - 1], ptr[|ptr| - 1];
    var parent := GetChecked(doc, init).value;
    RemoveChildDeletes(parent, last);
    SetAtBeside(doc, init, RemoveChild(parent, last).value);
  }

  // ------------------------------------------------- the effect of an operation

  ghost predicate Moved(doc: Json, from: Tokens, ptr: Tokens, after: Json) {
    && GetChecked(doc, from).Ok?
    && exists mid :: IsRemoved(doc, from, mid) && IsAdded(mid, ptr, GetChecked(doc, from).value, after)
  }

  ghost predicate HasEffect(doc: Json, op: Op, after: Json) {
    match op
    case Add(p, v) => IsAdded(doc, p, v, after)
    case Remove(p) => IsRemoved(doc, p, after)
    case Replace(p, v) => IsReplaced(doc, p, v, after)
    case Move(from, p) => Moved(doc, from, p, after)
    case Copy(from, p) => GetChecked(doc, from).Ok? && IsAdded(doc, p, GetChecked(doc, from).value, after)
    case Test(p, expected) =>
      && after == doc && GetChecked(doc, p).Ok? && expected.Some? && Equal(GetChecked(doc, p).value, expected.value)
  }

  /** Every operation that succeeds has its effect and no other. */
  lemma AppliedHasEffect(doc: Json, op: Op)
    requires Apply(doc, op).error.None?
    ensures HasEffect(doc, op, Apply(doc, op).doc)
  {
    match op
    case Add(p, v) => AddIsAdded(doc, p, v);
    case Remove(p) => RemoveIsRemoved(doc, p);
    case Replace(p, v) => SetAtBeside(doc, p, v);
    case Move(from, p) =>
      RemoveIsRemoved(doc, from);
      AddIsAdded(OperationRemove(doc, from).value, p, GetChecked(doc, from).value);
    case Copy(from, p) => AddIsAdded(doc, p, GetChecked(doc, from).value);
    case Test(_, _) =>
  }

  /** The pointer to a value that was added: the end of an array has a number now. */
  function Landing(doc: Json, ptr: Tokens): Tokens {
    if ptr != [] && ptr[|ptr| - 1] == "-" && GetChecked(doc, ptr[..|ptr| - 1]).Ok?
       && GetChecked(doc, ptr[..|ptr| - 1]).value.Arr?
    then ptr[..|ptr| - 1] + [Decimal(|GetChecked(doc, ptr[..|ptr| - 1]).value.elems|)]
    else ptr
  }

  /** Does adding there do anything? */
  predicate Receives(doc: Json, ptr: Tokens) {
    ptr != [] && GetChecked(doc, ptr[..|ptr| - 1]).Ok? ==>
      var parent := GetChecked(doc, ptr[..|ptr| - 1]).value;
      parent.Null? || parent.Obj? || (parent.Arr? && |parent.elems| < SIZE_MAX)
  }

  lemma InsertedIsFound(parent: Json, after: Json, last: string, v: Json)
    requires Inserted(parent, after, last, v) && (parent.Null? || parent.Obj? || parent.Arr?)
    requires parent.Arr? ==> |parent.elems| < SIZE_MAX
    ensures Child(after, if parent.Arr? && last == "-" then Decimal(|parent.elems|) else last) == Ok(v)
  {
    if parent.Arr? {
      ArrayIndexDecimal(|parent.elems|);
      ArrayIndexExact("-");
    }
  }

  /** An added value is found where it was added. */
  lemma AddedIsFound(doc: Json, ptr: Tokens, v: Json, after: Json)
    requires IsAdded(doc, ptr, v, after) && Receives(doc, ptr)
    ensures GetChecked(after, Landing(doc, ptr)) == Ok(v)
  {
    if ptr != [] {
      var init, last := ptr[..|ptr| - 1], ptr[|ptr| - 1];
      var land := Landing(doc, ptr);
      InsertedIsFound(GetChecked(doc, init).value, GetChecked(after, init).value, last, v);
      assert land[..|land| - 1] == init;
      LastToken(after, land);
    }
  }

  /** In particular a copied value is found at the target, and a moved one as well. */
  lemma CopiedIsFound(doc: Json, from: Tokens, ptr: Tokens)
    requires Apply(doc, Copy(from, ptr)).error.None? && Receives(doc, ptr)
    ensures GetChecked(doc, from).Ok?
    ensures GetChecked(Apply(doc, Copy(from, ptr)).doc, Landing(doc, ptr)) == GetChecked(doc, from)
  {
    AppliedHasEffect(doc, Copy(from, ptr));
    AddedIsFound(doc, ptr, GetChecked(doc, from).value, Apply(doc, Copy(from, ptr)).doc);
  }

  lemma MovedIsFound(doc: Json, from: Tokens, ptr: Tokens) returns (mid: Json)
    requires Apply(doc, Move(from, ptr)).error.None?
    ensures IsRemoved(doc, from, mid)
    ensures Receives(mid, ptr) ==>
              GetChecked(Apply(doc, Move(from, ptr)).doc, Landing(mid, ptr)) == GetChecked(doc, from)
  {
    var after := Apply(doc, Move(from, ptr)).doc;
    AppliedHasEffect(doc, Move(from, ptr));
    mid :| IsRemoved(doc, from, mid) && IsAdded(mid, ptr, GetChecked(doc, from).value, after);
    if Receives(mid, ptr) { AddedIsFound(mid, ptr, GetChecked(doc, from).value, after); }
  }

  // ------------------------------------------------- when an operation succeeds

  /** Exactly when a value can be added: at the root, or where the parent resolves to null, an object or an
      array that has the position or has it as its end; without assertions also below other values. */
  lemma AddExact(doc: Json, ptr: Tokens, v: Json)
    ensures OperationAdd(doc, ptr, v).Ok? <==>
            || ptr == []
            || (&& GetChecked(doc, ptr[..|ptr| - 1]).Ok?
                && var last := ptr[|ptr| - 1];
                   match GetChecked(doc, ptr[..|ptr| - 1]).value
                   case Null => true
                   case Obj(_) => true
                   case Arr(a) =>
                     last == "-" || (IsCanonical(last) && DecimalValue(last) < SIZE_MAX && DecimalValue(last) <= |a|)
                   case _ => !ASSERTIONS)
  {
    if ptr != [] {
      TopLookupRedundant(doc, ptr, v);
      ArrayIndexExact(ptr[|ptr| - 1]);
      IndexIsValue(ptr[|ptr| - 1]);
    }
  }

  lemma IndexIsValue(t: string)
    ensures ArrayIndex(t).Ok? ==> IsCanonical(t) && ArrayIndex(t).value == DecimalValue(t)
  {
    ArrayIndexExact(t);
    if ArrayIndex(t).Ok? { DecimalCanonical(ArrayIndex(t).value); }
  }

  /** `test` succeeds if and only if its target resolves to a value equal to the expected one; it never
      changes the document, and where the value differs or is missing it throws 501. */
  lemma TestExact(doc: Json, path: Tokens, w: Json)
    ensures var o := Apply(doc, Test(path, Some(w)));
            && o.doc == doc
            && (o.error.None? <==> GetChecked(doc, path).Ok? && Equal(GetChecked(doc, path).value, w))
            && (GetChecked(doc, path).Ok? && o.error.Some? ==> o.error == Some(OtherError(501)))
            && (GetChecked(doc, path).Err? && GetChecked(doc, path).error.OutOfRange? ==>
                  o.error == Some(OtherError(501)))
  {}

  /** A patch that begins with a test runs its rest if and only if the test holds, and else does nothing. */
  lemma TestGuards(doc: Json, e: Json, path: Tokens, w: Json, rest: seq<Json>)
    requires ParseOp(e) == Ok(Test(path, Some(w)))
    ensures var holds := GetChecked(doc, path).Ok? && Equal(GetChecked(doc, path).value, w);
            && (holds ==> Patch(doc, Arr([e] + rest)) == Patch(doc, Arr(rest)))
            && (!holds ==> Patch(doc, Arr([e] + rest)).doc == doc && Patch(doc, Arr([e] + rest)).error.Some?)
  {
    TestExact(doc, path, w);
    assert ([e] + rest)[0] == e && ([e] + rest)[1..] == rest;
  }

  // ------------------------------------------------- why resolving fails

  /** The exception of `at` for a value and the token that it meets. */
  predicate Refuses(v: Json, t: string, e: Error) {
    match v
    case Obj(m) => t !in m && e == OutOfRange(403)
    case Arr(a) =>
      if t == "-" then e == OutOfRange(402)
      else if ArrayIndex(t).Err? then e == ArrayIndex(t).error
      else ArrayIndex(t).value >= |a| && e == OutOfRange(401)
    case _ => e == OutOfRange(404)
  }

  /** Where a pointer does not resolve, some prefix does and its value refuses the next token. */
  lemma {:induction false} GetFails(j: Json, p: Tokens) returns (k: nat)
    requires GetChecked(j, p).Err?
    ensures k < |p| && GetChecked(j, p[..k]).Ok? && Refuses(GetChecked(j, p[..k]).value, p[k], GetChecked(j, p).error)
    decreases |p|
  {
    if Child(j, p[0]).Err? {
      k := 0;
    } else {
      var n := GetFails(Child(j, p[0]).value, p[1..]);
      k := n + 1;
      assert p[..k][1..] == p[1..][..n];
    }
  }

  // ------------------------------------------------- why an operation fails

  /** A token that is no position of the array, nor, for an insertion, its end. */
  predicate NoPosition(a: seq<Json>, t: string, insert: bool, e: Error) {
    if ArrayIndex(t).Err? then e == ArrayIndex(t).error
    else ArrayIndex(t).value >= |a| + (if insert then 1 else 0) && e == OutOfRange(401)
  }

  ghost predicate AddRefused(doc: Json, ptr: Tokens, e: Error) {
    && ptr != []
    && var last := ptr[|ptr| - 1];
       match GetChecked(doc, ptr[..|ptr| - 1])
       case Err(error) => e == error
       case Ok(Null) => false
       case Ok(Obj(_)) => false
       case Ok(Arr(a)) => last != "-" && NoPosition(a, last, true, e)
       case Ok(_) => ASSERTIONS && e == AssertionFailure
  }

  ghost predicate RemoveRefused(doc: Json, ptr: Tokens, e: Error) {
    if ptr == [] then e == OutOfRange(405)
    else
      var last := ptr[|ptr| - 1];
      match GetChecked(doc, ptr[..|ptr| - 1])
      case Err(error) => e == error
      case Ok(Obj(m)) => last !in m && e == OutOfRange(403)
      case Ok(Arr(a)) => NoPosition(a, last, false, e)
      case Ok(_) => false
  }

  lemma AddFails(doc: Json, ptr: Tokens, v: Json, e: Error)
    ensures OperationAdd(doc, ptr, v) == Err(e) <==> AddRefused(doc, ptr, e)
  {
    if ptr != [] { TopLookupRedundant(doc, ptr, v); }
  }

  lemma RemoveFails(doc: Json, ptr: Tokens, e: Error)
    ensures OperationRemove(doc, ptr) == Err(e) <==> RemoveRefused(doc, ptr, e)
  {}

  /** The exceptions of the six operations. */
  ghost predicate Refused(doc: Json, op: Op, e: Error) {
    match op
    case Add(p, _) => AddRefused(doc, p, e)
    case Remove(p) => RemoveRefused(doc, p, e)
    case Replace(p, _) => GetChecked(doc, p) == Err(e)
    case Move(from, p) =>
      || GetChecked(doc, from) == Err(e)
      || (GetChecked(doc, from).Ok? && RemoveRefused(doc, from, e))
      || (GetChecked(doc, from).Ok? && exists mid :: IsRemoved(doc, from, mid) && AddRefused(mid, p, e))
    case Copy(from, p) => GetChecked(doc, from) == Err(e) || (GetChecked(doc, from).Ok? && AddRefused(doc, p, e))
    case Test(p, expected) =>
      match GetChecked(doc, p)
      case Err(error) => e == if error.OutOfRange? then OtherError(501) else error
      case Ok(v) =>
        if expected.None? then e == ParseError(105) else !Equal(v, expected.value) && e == OtherError(501)
  }

  lemma FailsForReason(doc: Json, op: Op, e: Error)
    requires Apply(doc, op).error == Some(e)
    ensures Refused(doc, op, e)
  {
    match op
    case Add(p, v) => AddFails(doc, p, v, e);
    case Remove(p) => RemoveFails(doc, p, e);
    case Replace(_, _) =>
    case Move(from, p) =>
      if GetChecked(doc, from).Ok? {
        RemoveFails(doc, from, e);
        if OperationRemove(doc, from).Ok? {
          RemoveIsRemoved(doc, from);
          AddFails(OperationRemove(doc, from).value, p, GetChecked(doc, from).value, e);
        }
      }
    case Copy(from, p) => if GetChecked(doc, from).Ok? { AddFails(doc, p, GetChecked(doc, from).value, e); }
    case Test(_, _) =>
  }

  // ------------------------------------------------- the members of an element

  lemma NamesDiffer()
    ensures "op" != "path" && "op" != "from" && "op" != "value"
    ensures "path" != "from" && "path" != "value" && "from" != "value"
  {
    assert |"op"| == 2 && |"path"| == 4 && |"from"| == 4 && |"value"| == 5;
    assert "from"[0] == 'f' && "path"[0] == 'p';
  }

  function ValueElement(op: string, path: string, v: Json): map<string, Json> {
    map["op" := Str(op), "path" := Str(path), "value" := v]
  }

  lemma ValueKind(op: string, path: string, v: Json)
    requires Split(path).Ok?
    ensures ParseOp(Obj(ValueElement(op, path, v))) ==
            match GetOp(op)
            case KAdd => Ok(Add(Split(path).value, v))
            case KRemove => Ok(Remove(Split(path).value))
            case KReplace => Ok(Replace(Split(path).value, v))
            case KTest => Ok(Test(Split(path).value, Some(v)))
            case _ => Err(ParseError(105))
  {
    NamesDiffer();
  }

  /** The operations with a value, and the one without. */
  lemma ValueElements(path: string, v: Json)
    requires Split(path).Ok?
    ensures ParseOp(Obj(ValueElement("add", path, v))) == Ok(Add(Split(path).value, v))
    ensures ParseOp(Obj(ValueElement("replace", path, v))) == Ok(Replace(Split(path).value, v))
    ensures ParseOp(Obj(ValueElement("test", path, v))) == Ok(Test(Split(path).value, Some(v)))
    ensures ParseOp(Obj(map["op" := Str("remove"), "path" := Str(path)])) == Ok(Remove(Split(path).value))
  {
    ValueKind("add", path, v);
    ValueKind("replace", path, v);
    ValueKind("test", path, v);
    NamesDiffer();
  }

  function SourceElement(op: string, path: string, from: string): map<string, Json> {
    map["op" := Str(op), "path" := Str(path), "from" := Str(from)]
  }

  lemma SourceMembers(op: string, path: string, from: string)
    ensures var m := SourceElement(op, path, from);
            && StringMember(m, "op") == Ok(op) && StringMember(m, "path") == Ok(path)
            && StringMember(m, "from") == Ok(from)
  {
    NamesDiffer();
  }

  /** The operations with a source. */
  lemma SourceElements(path: string, from: string)
    requires Split(path).Ok? && Split(from).Ok?
    ensures ParseOp(Obj(SourceElement("move", path, from))) == Ok(Move(Split(from).value, Split(path).value))
    ensures ParseOp(Obj(SourceElement("copy", path, from))) == Ok(Copy(Split(from).value, Split(path).value))
  {
    SourceMembers("move", path, from);
    SourceMembers("copy", path, from);
  }

  /** The operations that need a member, and the exceptions for elements that are no operation. */
  lemma ElementErrors(e: Json)
    ensures !e.Obj? ==> ParseOp(e) == Err(ParseError(104))
    ensures e.Obj? && StringMember(e.members, "op").Err? ==> ParseOp(e) == Err(ParseError(105))
    ensures e.Obj? && StringMember(e.members, "path").Err? ==> ParseOp(e) == Err(ParseError(105))
    ensures e.Obj? && ParseOp(e).Ok? ==>
              && StringMember(e.members, "op").Ok?
              && StringMember(e.members, "op").value in ["add", "remove", "replace", "move", "copy", "test"]
              && StringMember(e.members, "path").Ok?
              && Split(StringMember(e.members, "path").value) == Ok(ParseOp(e).value.path)
    ensures e.Obj? && ParseOp(e).Ok? && StringMember(e.members, "op").value in ["add", "replace"] ==>
              "value" in e.members
    ensures e.Obj? && ParseOp(e).Ok? && StringMember(e.members, "op").value in ["move", "copy"] ==>
              StringMember(e.members, "from").Ok? && Split(StringMember(e.members, "from").value).Ok?
    ensures e.Obj? && ParseOp(e).Err? ==>
              || ParseOp(e).error == ParseError(105)
              || (StringMember(e.members, "path").Ok?
                  && Split(StringMember(e.members, "path").value) == Err(ParseOp(e).error))
              || (StringMember(e.members, "from").Ok?
                  && Split(StringMember(e.members, "from").value) == Err(ParseOp(e).error))
  {
    if e.Obj? && StringMember(e.members, "op").Ok? { KnownNames(StringMember(e.members, "op").value); }
  }

  lemma KnownNames(op: string)
    ensures GetOp(op).KInvalid? <==> op !in ["add", "remove", "replace", "move", "copy", "test"]
    ensures op in ["add", "replace"] ==> GetOp(op).KAdd? || GetOp(op).KReplace?
    ensures op in ["move", "copy"] ==> GetOp(op).KMove? || GetOp(op).KCopy?
  {}

  /** A patch must be an array. */
  lemma PatchIsArray(doc: Json, patch: Json)
    requires !patch.Arr?
    ensures Patch(doc, patch) == Outcome(doc, Some(ParseError(104)))
  {}
}
