/** JSON Patch (RFC 6902) as `patch_inplace` of 3rdparty/nlohmann/json.hpp applies it, and its
    locality: a patch below a pointer acts on the subtree there and on nothing else. */
module JsonPatch {
  import opened Wrappers
  import opened JsonPointer
  import opened JsonValue
  import opened JsonAccess

  // ------------------------------------------------- reading operations

  datatype Op =
    | Add(path: Tokens, value: Json)
    | Remove(path: Tokens)
    | Replace(path: Tokens, value: Json)
    | Move(from: Tokens, path: Tokens)
    | Copy(from: Tokens, path: Tokens)
    | Test(path: Tokens, expected: Option<Json>) // a missing value is noticed only after `at(path)`

  /** `get_value` for an arbitrary member. */
  function Member(m: map<string, Json>, name: string): Result<Json> {
    if name in m then Ok(m[name]) else Err(ParseError(105))
  }

  /** `get_value` for a string member. */
  function StringMember(m: map<string, Json>, name: string): Result<string> {
    if name in m && m[name].Str? then Ok(m[name].s) else Err(ParseError(105))
  }

  datatype Kind = KAdd | KRemove | KReplace | KMove | KCopy | KTest | KInvalid

  /** `get_op`. */
  function GetOp(op: string): Kind {
    if op == "add" then KAdd
    else if op == "remove" then KRemove
    else if op == "replace" then KReplace
    else if op == "move" then KMove
    else if op == "copy" then KCopy
    else if op == "test" then KTest
    else KInvalid
  }

  /** The members that the individual operations need. */
  function ParseKind(m: map<string, Json>, kind: Kind, path: Tokens): Result<Op> {
    match kind
    case KAdd =>
      var value :- Member(m, "value");
      Ok(Add(path, value))
    case KRemove => Ok(Remove(path))
    case KReplace =>
      var value :- Member(m, "value");
      Ok(Replace(path, value))
    case KMove =>
      var from :- ParseFrom(m);
      Ok(Move(from, path))
    case KCopy =>
      var from :- ParseFrom(m);
      Ok(Copy(from, path))
    case KTest => Ok(Test(path, if "value" in m then Some(m["value"]) else None))
    case KInvalid => Err(ParseError(105))
  }

  function ParseFrom(m: map<string, Json>): Result<Tokens> {
    var text :- StringMember(m, "from");
    Split(text)
  }

  /** The checks that `patch_inplace` makes on one element of a patch before it uses the document. */
  function ParseOp(e: Json): Result<Op> {
    if !e.Obj? then Err(ParseError(104))
    else
      var kind :- StringMember(e.members, "op");
      var pathText :- StringMember(e.members, "path");
      var path :- Split(pathText);
      ParseKind(e.members, GetOp(kind), path)
  }

  // ------------------------------------------------- applying operations

  /** Whether JSON_ASSERT is compiled in (it is not with NDEBUG). Everything here holds for both builds. */
  const ASSERTIONS: bool

  /** `operation_add` at the parent of the new value. Below a primitive value only the assertion stops it. */
  function AddChild(parent: Json, last: string, v: Json): Result<Json> {
    match parent
    case Null => Ok(Obj(map[last := v]))
    case Obj(m) => Ok(Obj(m[last := v]))
    case Arr(a) =>
      if last == "-" then Ok(Arr(a + [v]))
      else
        var idx :- ArrayIndex(last);
        if idx > |a| then Err(OutOfRange(401)) else Ok(Arr(a[..idx] + [v] + a[idx..]))
    case _ => if ASSERTIONS then Err(AssertionFailure) else Ok(parent)
  }

  /** `operation_remove` at the parent of the removed value. A parent that is neither object nor
      array is left alone without an error. */
  function RemoveChild(parent: Json, last: string): Result<Json> {
    match parent
    case Obj(m) => if last in m then Ok(Obj(m - {last})) else Err(OutOfRange(403))
    case Arr(a) =>
      var idx :- ArrayIndex(last);
      if idx < |a| then Ok(Arr(a[..idx] + a[idx + 1..])) else Err(OutOfRange(401))
    case _ => Ok(parent)
  }

  function OperationAdd(doc: Json, ptr: Tokens, v: Json): Result<Json> {
    if ptr == [] then Ok(v)
    else
      var _ :- if |ptr| == 1 then Ok(doc) else GetChecked(doc, ptr[..1]);
      var parentPtr := ptr[..|ptr| - 1];
      var parent :- GetChecked(doc, parentPtr);
      var changed :- AddChild(parent, ptr[|ptr| - 1], v);
      Ok(SetAt(doc, parentPtr, changed))
  }

  function OperationRemove(doc: Json, ptr: Tokens): Result<Json> {
    if ptr == [] then Err(OutOfRange(405))
    else
      var parentPtr := ptr[..|ptr| - 1];
      var parent :- GetChecked(doc, parentPtr);
      var changed :- RemoveChild(parent, ptr[|ptr| - 1]);
      Ok(SetAt(doc, parentPtr, changed))
  }

  /** The document as it is left, and the exception thrown, if any. */
  datatype Outcome = Outcome(doc: Json, error: Option<Error>)

  function Settle(doc: Json, r: Result<Json>): Outcome {
    match r case Ok(d) => Outcome(d, None) case Err(e) => Outcome(doc, Some(e))
  }

  function Apply(doc: Json, op: Op): Outcome {
    match op
    case Add(path, v) => Settle(doc, OperationAdd(doc, path, v))
    case Remove(path) => Settle(doc, OperationRemove(doc, path))
    case Replace(path, v) =>
      (match GetChecked(doc, path)
       case Ok(_) => Outcome(SetAt(doc, path, v), None)
       case Err(e) => Outcome(doc, Some(e)))
    case Move(from, path) =>
      (match GetChecked(doc, from)
       case Err(e) => Outcome(doc, Some(e))
       case Ok(v) =>
         match OperationRemove(doc, from)
         case Err(e) => Outcome(doc, Some(e))
         case Ok(d) => Settle(d, OperationAdd(d, path, v)))
    case Copy(from, path) =>
      (match GetChecked(doc, from)
       case Err(e) => Outcome(doc, Some(e))
       case Ok(v) => Settle(doc, OperationAdd(doc, path, v)))
    case Test(path, expected) =>
      (match GetChecked(doc, path)
       case Err(e) => Outcome(doc, Some(if e.OutOfRange? then OtherError(501) else e))
       case Ok(v) =>
         if expected.None? then Outcome(doc, Some(ParseError(105)))
         else Outcome(doc, if Equal(v, expected.value) then None else Some(OtherError(501))))
  }

  /** Operations one after another, up to the first exception. */
  function RunOps(doc: Json, ops: seq<Op>): Outcome
    decreases |ops|
  {
    if ops == [] then Outcome(doc, None)
    else
      var o := Apply(doc, ops[0]);
      if o.error.Some? then o else RunOps(o.doc, ops[1..])
  }

  function ApplyElem(doc: Json, e: Json): Outcome {
    match ParseOp(e) case Err(err) => Outcome(doc, Some(err)) case Ok(op) => Apply(doc, op)
  }

  function RunElems(doc: Json, es: seq<Json>): Outcome
    decreases |es|
  {
    if es == [] then Outcome(doc, None)
    else
      var o := ApplyElem(doc, es[0]);
      if o.error.Some? then o else RunElems(o.doc, es[1..])
  }

  /** `patch_inplace`. */
  function Patch(doc: Json, patch: Json): Outcome {
    if patch.Arr? then RunElems(doc, patch.elems) else Outcome(doc, Some(ParseError(104)))
  }

  // ------------------------------------------------- the document object

  /** A `basic_json` that is modified in place. */
  class Document {
    var value: Json

    constructor (j: Json)
      ensures value == j
    {
      value := j;
    }

    /** The lambda `operation_add`. */
    method AddAt(ptr: Tokens, v: Json) returns (error: Option<Error>)
      modifies this
      ensures Outcome(value, error) == Settle(old(value), OperationAdd(old(value), ptr, v))
    {
      if ptr == [] {
        value := v;
        return None;
      }
      if |ptr| != 1 {
        var top := GetCheckedLoop(value, ptr[..1]);
        if top.Err? { return Some(top.error); }
      }
      var last := ptr[|ptr| - 1];
      var parentPtr := ptr[..|ptr| - 1];
      var parent := GetCheckedLoop(value, parentPtr);
      if parent.Err? { return Some(parent.error); }
      var changed := AddChild(parent.value, last, v);
      if changed.Err? { return Some(changed.error); }
      value := SetAt(value, parentPtr, changed.value);
      return None;
    }

    /** The lambda `operation_remove`. */
    method RemoveAt(ptr: Tokens) returns (error: Option<Error>)
      modifies this
      ensures Outcome(value, error) == Settle(old(value), OperationRemove(old(value), ptr))
    {
      if ptr == [] { return Some(OutOfRange(405)); }
      var last := ptr[|ptr| - 1];
      var parentPtr := ptr[..|ptr| - 1];
      var parent := GetCheckedLoop(value, parentPtr);
      if parent.Err? { return Some(parent.error); }
      var changed := RemoveChild(parent.value, last);
      if changed.Err? { return Some(changed.error); }
      value := SetAt(value, parentPtr, changed.value);
      return None;
    }

    /** The body of the loop of `patch_inplace`. */
    method ApplyInPlace(op: Op) returns (error: Option<Error>)
      modifies this
      ensures Outcome(value, error) == Apply(old(value), op)
    {
      error := None;
      match op
      case Add(path, v) => error := AddAt(path, v);
      case Remove(path) => error := RemoveAt(path);
      case Replace(path, v) =>
        var place := GetCheckedLoop(value, path);
        if place.Err? { return Some(place.error); }
        value := SetAt(value, path, v);
      case Move(from, path) =>
        var moved := GetCheckedLoop(value, from);
        if moved.Err? { return Some(moved.error); }
        error := RemoveAt(from);
        if error.None? {
          error := AddAt(path, moved.value);
        }
      case Copy(from, path) =>
        var copied := GetCheckedLoop(value, from);
        if copied.Err? { return Some(copied.error); }
        error := AddAt(path, copied.value);
      case Test(path, expected) =>
        var found := GetCheckedLoop(value, path);
        if found.Err? { return Some(if found.error.OutOfRange? then OtherError(501) else found.error); }
        if expected.None? { return Some(ParseError(105)); }
        if !Equal(found.value, expected.value) { return Some(OtherError(501)); }
    }

    /** `patch_inplace`: on an exception the document keeps what the earlier operations did. */
    method PatchInPlace(patch: Json) returns (error: Option<Error>)
      modifies this
      ensures Outcome(value, error) == Patch(old(value), patch)
    {
      if !patch.Arr? { return Some(ParseError(104)); }
      var es := patch.elems;
      assert es[0..] == es;
      for i := 0 to |es|
        invariant RunElems(old(value), es) == RunElems(value, es[i..])
      {
        assert es[i..][1..] == es[i + 1..];
        var op := ParseOp(es[i]);
        if op.Err? { return Some(op.error); }
        error := ApplyInPlace(op.value);
        if error.Some? { return; }
      }
      return None;
    }

    /** `patch`: the same on a copy. */
    method PatchedCopy(patch: Json) returns (r: Result<Json>)
      ensures match r
              case Ok(d) => Patch(value, patch) == Outcome(d, None)
              case Err(e) => Patch(value, patch).error == Some(e)
    {
      var result := new Document(value);
      var error := result.PatchInPlace(patch);
      return match error case None => Ok(result.value) case Some(e) => Err(e);
    }
  }

  // ------------------------------------------------- runs

  lemma {:induction false} RunAppend(doc: Json, a: seq<Op>, b: seq<Op>)
    ensures RunOps(doc, a + b) ==
            var o := RunOps(doc, a);
            if o.error.Some? then o else RunOps(o.doc, b)
    decreases |a|
  {
    if a == [] {
      assert a + b == b;
    } else {
      assert (a + b)[1..] == a[1..] + b;
      RunAppend(Apply(doc, a[0]).doc, a[1..], b);
    }
  }

  /** A child that resolves can be removed, and the container is not the same without it. */
  lemma RemoveChildChanges(parent: Json, last: string)
    requires Child(parent, last).Ok?
    ensures RemoveChild(parent, last).Ok? && RemoveChild(parent, last).value != parent
  {
    match parent
    case Obj(m) => assert last !in m - {last};
    case Arr(a) =>
      var idx := ArrayIndex(last).value;
      assert |a[..idx] + a[idx + 1..]| == |a| - 1;
  }

  /** Removing what resolves succeeds and changes the document. */
  lemma RemoveChanges(doc: Json, ptr: Tokens)
    requires ptr != [] && GetChecked(doc, ptr).Ok?
    ensures OperationRemove(doc, ptr).Ok? && OperationRemove(doc, ptr).value != doc
  {
    var init, last := ptr[..|ptr| - 1], ptr[|ptr| - 1];
    LastToken(doc, ptr);
    var parent := GetChecked(doc, init).value;
    RemoveChildChanges(parent, last);
    SetAtLaws(doc, init, RemoveChild(parent, last).value, parent);
  }

  /** A pointer resolves by its last token in what the tokens before it resolve to. */
  lemma LastToken(doc: Json, ptr: Tokens)
    requires ptr != []
    ensures var init, last := ptr[..|ptr| - 1], ptr[|ptr| - 1];
            GetChecked(doc, ptr) ==
            match GetChecked(doc, init) case Ok(parent) => Child(parent, last) case Err(e) => Err(e)
  {
    var init, last := ptr[..|ptr| - 1], ptr[|ptr| - 1];
    assert ptr == init + [last];
    GetAppend(doc, init, [last]);
    assert [last][1..] == [];
    assert forall j: Json ::
        GetChecked(j, [last]) == match Child(j, last) case Ok(c) => GetChecked(c, []) case Err(e) => Err(e);
  }

  /** `remove` succeeds exactly where its target exists - as section 4.2 of RFC 6902 asks - or where the
      parent is primitive, in which case it should have failed and does nothing. */
  lemma RemoveExact(doc: Json, ptr: Tokens)
    requires ptr != []
    ensures var init := ptr[..|ptr| - 1];
            && (OperationRemove(doc, ptr).Ok? <==>
                  || GetChecked(doc, ptr).Ok?
                  || (GetChecked(doc, init).Ok? && IsPrimitive(GetChecked(doc, init).value)))
            && (OperationRemove(doc, ptr) == Ok(doc) <==>
                  GetChecked(doc, init).Ok? && IsPrimitive(GetChecked(doc, init).value))
  {
    var init, last := ptr[..|ptr| - 1], ptr[|ptr| - 1];
    LastToken(doc, ptr);
    if GetChecked(doc, ptr).Ok? { RemoveChanges(doc, ptr); }
    if GetChecked(doc, init).Ok? {
      var parent := GetChecked(doc, init).value;
      SetAtLaws(doc, init, parent, parent);
      if parent.Arr? { ArrayIndexExact(last); }
    }
  }

  /** The smallest removal of something that is not there: "/a/b" from {"a": true}. */
  lemma RemoveNothing()
    ensures var doc := Obj(map["a" := Bool(true)]);
            GetChecked(doc, ["a", "b"]).Err? && OperationRemove(doc, ["a", "b"]) == Ok(doc)
  {
    var doc := Obj(map["a" := Bool(true)]);
    assert ["a", "b"][..1] == ["a"] && ["a", "b"][1..] == ["b"] && ["a"][1..] == [];
    assert GetChecked(doc, ["a"]) == Ok(Bool(true));
    RemoveExact(doc, ["a", "b"]);
    LastToken(doc, ["a", "b"]);
  }

  /** A failing operation changes the document if and only if it is a `move` whose source resolves below
      the root: the source has then been removed before the target could not be added. */
  lemma FailedOperation(doc: Json, op: Op)
    requires Apply(doc, op).error.Some?
    ensures Apply(doc, op).doc != doc <==> op.Move? && op.from != [] && GetChecked(doc, op.from).Ok?
    ensures Apply(doc, op).doc != doc ==> Ok(Apply(doc, op).doc) == OperationRemove(doc, op.from)
  {
    if op.Move? && op.from != [] && GetChecked(doc, op.from).Ok? { RemoveChanges(doc, op.from); }
  }

  /** The smallest loss: moving "/a" to "/b/c" in {"a": null}. */
  lemma LostSource()
    ensures var doc := Obj(map["a" := Null]);
            Apply(doc, Move(["a"], ["b", "c"])) == Outcome(Obj(map[]), Some(OutOfRange(403)))
  {
    var doc := Obj(map["a" := Null]);
    assert ["a"][..0] == [] && ["a"][1..] == [] && ["b", "c"][..1] == ["b"] && ["b"][1..] == [];
    assert GetChecked(doc, ["a"]) == Ok(Null);
    assert map["a" := Null] - {"a"} == map[];
    assert OperationRemove(doc, ["a"]) == Ok(Obj(map[]));
    assert GetChecked(Obj(map[]), ["b"]) == Err(OutOfRange(403));
  }

  /** A failing patch has applied exactly its operations before the failing one, and then what that one
      does when it fails. */
  lemma {:induction false} FailedRun(doc: Json, ops: seq<Op>) returns (k: nat)
    requires RunOps(doc, ops).error.Some?
    ensures k < |ops| && RunOps(doc, ops[..k]).error.None?
    ensures RunOps(doc, ops) == Apply(RunOps(doc, ops[..k]).doc, ops[k])
    decreases |ops|
  {
    var o := Apply(doc, ops[0]);
    if o.error.Some? {
      k := 0;
    } else {
      var n := FailedRun(o.doc, ops[1..]);
      k := n + 1;
      assert ops[..k][1..] == ops[1..][..n];
    }
  }

  /** Where an added value is a new child, or nothing at all. */
  predicate AddIsReversible(parent: Json, last: string) {
    match parent
    case Obj(m) => last !in m
    case Arr(_) => last != "-"
    case Null => false
    case _ => true
  }

  lemma RemoveChildUndoesAddChild(parent: Json, last: string, v: Json)
    requires AddChild(parent, last, v).Ok?
    ensures RemoveChild(AddChild(parent, last, v).value, last) == Ok(parent) <==> AddIsReversible(parent, last)
  {
    match parent
    case Obj(m) =>
      if last !in m { assert m[last := v] - {last} == m; } else { assert last !in m[last := v] - {last}; }
    case Arr(a) =>
      if last != "-" {
        var idx := ArrayIndex(last).value;
        var b := a[..idx] + [v] + a[idx..];
        assert b[..idx] + b[idx + 1..] == a;
      } else {
        assert ArrayIndex("-").Err?;
      }
    case _ =>
  }

  /** After a successful `add`, `remove` restores the document if and only if the path named neither an
      existing member nor the end of an array nor a member of a null, which would stay an object. (Below
      another primitive value, where assertions are off, both do nothing.) */
  lemma RemoveUndoesAdd(doc: Json, ptr: Tokens, v: Json)
    requires ptr != [] && OperationAdd(doc, ptr, v).Ok?
    ensures GetChecked(doc, ptr[..|ptr| - 1]).Ok?
    ensures OperationRemove(OperationAdd(doc, ptr, v).value, ptr) == Ok(doc) <==>
            AddIsReversible(GetChecked(doc, ptr[..|ptr| - 1]).value, ptr[|ptr| - 1])
  {
    var p, last := ptr[..|ptr| - 1], ptr[|ptr| - 1];
    TopLookupRedundant(doc, ptr, v);
    var parent := GetChecked(doc, p).value;
    var changed := AddChild(parent, last, v).value;
    RemoveChildUndoesAddChild(parent, last, v);
    SetAtLaws(doc, p, changed, parent);
    if RemoveChild(changed, last).Ok? {
      SetAtLaws(doc, p, changed, RemoveChild(changed, last).value);
      SetAtLaws(doc, p, RemoveChild(changed, last).value, parent);
    }
  }

  // ------------------------------------------------- writing operations

  function KindOf(op: Op): Kind {
    match op
    case Add(_, _) => KAdd
    case Remove(_) => KRemove
    case Replace(_, _) => KReplace
    case Move(_, _) => KMove
    case Copy(_, _) => KCopy
    case Test(_, _) => KTest
  }

  function KindName(kind: Kind): string {
    match kind
    case KAdd => "add"
    case KRemove => "remove"
    case KReplace => "replace"
    case KMove => "move"
    case KCopy => "copy"
    case KTest => "test"
    case KInvalid => ""
  }

  lemma GetOpKindName(kind: Kind)
    ensures GetOp(KindName(kind)) == kind
  {}

  /** An operation as an element of a patch document; its pointers are printed behind `path`. */
  function Encode(path: string, op: Op): Json {
    var base := map["op" := Str(KindName(KindOf(op))), "path" := Str(path + ToString(op.path))];
    match op
    case Add(_, v) => Obj(base["value" := v])
    case Remove(_) => Obj(base)
    case Replace(_, v) => Obj(base["value" := v])
    case Move(from, _) => Obj(base["from" := Str(path + ToString(from))])
    case Copy(from, _) => Obj(base["from" := Str(path + ToString(from))])
    case Test(_, Some(v)) => Obj(base["value" := v])
    case Test(_, None) => Obj(base)
  }

  function EncodeAll(path: string, ops: seq<Op>): seq<Json> {
    if ops == [] then [] else [Encode(path, ops[0])] + EncodeAll(path, ops[1..])
  }

  // ------------------------------------------------- locality

  /** The operation with its pointers moved below `p`. */
  function Lift(p: Tokens, op: Op): Op {
    match op
    case Add(path, v) => Add(p + path, v)
    case Remove(path) => Remove(p + path)
    case Replace(path, v) => Replace(p + path, v)
    case Move(from, path) => Move(p + from, p + path)
    case Copy(from, path) => Copy(p + from, p + path)
    case Test(path, expected) => Test(p + path, expected)
  }

  function LiftResult(p: Tokens, r: Result<Op>): Result<Op> {
    match r case Ok(op) => Ok(Lift(p, op)) case Err(e) => Err(e)
  }

  function LiftAll(p: Tokens, ops: seq<Op>): seq<Op> {
    if ops == [] then [] else [Lift(p, ops[0])] + LiftAll(p, ops[1..])
  }

  /** Adding and removing are meant strictly below the subtree's root; replacing, testing and reading
      may also name the root. */
  predicate StaysBelow(op: Op) {
    match op
    case Add(path, _) => path != []
    case Remove(path) => path != []
    case Replace(_, _) => true
    case Move(from, path) => from != [] && path != []
    case Copy(_, path) => path != []
    case Test(_, _) => true
  }

  function Graft(doc: Json, p: Tokens, o: Outcome): Outcome
    requires GetChecked(doc, p).Ok?
  {
    Outcome(SetAt(doc, p, o.doc), o.error)
  }

  function GraftResult(doc: Json, p: Tokens, r: Result<Json>): Result<Json>
    requires GetChecked(doc, p).Ok?
  {
    match r case Ok(v) => Ok(SetAt(doc, p, v)) case Err(e) => Err(e)
  }

  /** `operation_add` without its look-up of the top element. */
  function AddAtParent(doc: Json, parentPtr: Tokens, last: string, v: Json): Result<Json> {
    var parent :- GetChecked(doc, parentPtr);
    var changed :- AddChild(parent, last, v);
    Ok(SetAt(doc, parentPtr, changed))
  }

  /** That look-up never changes the result: where it throws, resolving the parent throws the same. */
  lemma TopLookupRedundant(doc: Json, ptr: Tokens, v: Json)
    requires ptr != []
    ensures OperationAdd(doc, ptr, v) == AddAtParent(doc, ptr[..|ptr| - 1], ptr[|ptr| - 1], v)
  {
    if |ptr| > 1 {
      assert ptr[..|ptr| - 1] == ptr[..1] + ptr[1..|ptr| - 1];
      GetAppend(doc, ptr[..1], ptr[1..|ptr| - 1]);
    }
  }

  lemma AddAtParentLocal(doc: Json, p: Tokens, parentPtr: Tokens, last: string, v: Json)
    requires GetChecked(doc, p).Ok?
    ensures AddAtParent(doc, p + parentPtr, last, v) ==
            GraftResult(doc, p, AddAtParent(GetChecked(doc, p).value, parentPtr, last, v))
  {
    GetAppend(doc, p, parentPtr);
    var parent := GetChecked(GetChecked(doc, p).value, parentPtr);
    if parent.Ok? && AddChild(parent.value, last, v).Ok? {
      SetAppend(doc, p, parentPtr, AddChild(parent.value, last, v).value);
    }
  }

  lemma AddViaParent(doc: Json, parentPtr: Tokens, last: string, v: Json)
    ensures OperationAdd(doc, parentPtr + [last], v) == AddAtParent(doc, parentPtr, last, v)
  {
    TopLookupRedundant(doc, parentPtr + [last], v);
    assert (parentPtr + [last])[..|parentPtr|] == parentPtr;
  }

  lemma AddLocal(doc: Json, p: Tokens, q: Tokens, v: Json)
    requires GetChecked(doc, p).Ok? && q != []
    ensures OperationAdd(doc, p + q, v) == GraftResult(doc, p, OperationAdd(GetChecked(doc, p).value, q, v))
  {
    var parentPtr, last := q[..|q| - 1], q[|q| - 1];
    assert q == parentPtr + [last];
    assert p + q == (p + parentPtr) + [last];
    AddViaParent(doc, p + parentPtr, last, v);
    AddViaParent(GetChecked(doc, p).value, parentPtr, last, v);
    AddAtParentLocal(doc, p, parentPtr, last, v);
  }

  lemma RemoveLocal(doc: Json, p: Tokens, q: Tokens)
    requires GetChecked(doc, p).Ok? && q != []
    ensures OperationRemove(doc, p + q) == GraftResult(doc, p, OperationRemove(GetChecked(doc, p).value, q))
  {
    var sub := GetChecked(doc, p).value;
    var parentPtr := q[..|q| - 1];
    assert (p + q)[..|p + q| - 1] == p + parentPtr;
    GetAppend(doc, p, parentPtr);
    if GetChecked(sub, parentPtr).Ok? {
      var changed := RemoveChild(GetChecked(sub, parentPtr).value, q[|q| - 1]);
      if changed.Ok? { SetAppend(doc, p, parentPtr, changed.value); }
    }
  }

  /** One operation below `p` does to the document what it does to the subtree at `p`, and throws
      the same. */
  lemma ApplyLocal(doc: Json, p: Tokens, op: Op)
    requires GetChecked(doc, p).Ok? && StaysBelow(op)
    ensures Apply(doc, Lift(p, op)) == Graft(doc, p, Apply(GetChecked(doc, p).value, op))
  {
    var sub := GetChecked(doc, p).value;
    SetAtLaws(doc, p, sub, sub);
    match op
    case Add(q, v) => AddLocal(doc, p, q, v);
    case Remove(q) => RemoveLocal(doc, p, q);
    case Replace(q, v) =>
      GetAppend(doc, p, q);
      if GetChecked(sub, q).Ok? { SetAppend(doc, p, q, v); }
    case Move(from, q) =>
      GetAppend(doc, p, from);
      RemoveLocal(doc, p, from);
      if GetChecked(sub, from).Ok? && OperationRemove(sub, from).Ok? {
        var v := GetChecked(sub, from).value;
        var sub' := OperationRemove(sub, from).value;
        var doc' := SetAt(doc, p, sub');
        SetAtLaws(doc, p, sub', sub');
        AddLocal(doc', p, q, v);
        if OperationAdd(sub', q, v).Ok? { SetAtLaws(doc, p, sub', OperationAdd(sub', q, v).value); }
      }
    case Copy(from, q) =>
      GetAppend(doc, p, from);
      if GetChecked(sub, from).Ok? { AddLocal(doc, p, q, GetChecked(sub, from).value); }
    case Test(q, _) => GetAppend(doc, p, q);
  }

  /** Patch locality for whole runs. */
  lemma {:induction false} RunLocal(doc: Json, p: Tokens, ops: seq<Op>)
    requires GetChecked(doc, p).Ok? && forall i | 0 <= i < |ops| :: StaysBelow(ops[i])
    ensures RunOps(doc, LiftAll(p, ops)) == Graft(doc, p, RunOps(GetChecked(doc, p).value, ops))
    decreases |ops|
  {
    var sub := GetChecked(doc, p).value;
    if ops == [] {
      SetAtLaws(doc, p, sub, sub);
    } else {
      ApplyLocal(doc, p, ops[0]);
      var o := Apply(sub, ops[0]);
      if o.error.None? {
        var doc' := SetAt(doc, p, o.doc);
        SetAtLaws(doc, p, o.doc, RunOps(o.doc, ops[1..]).doc);
        RunLocal(doc', p, ops[1..]);
      }
    }
  }

  // ------------------------------------------------- reading what was written

  lemma EncodedMembers(path: string, op: Op)
    ensures var m := Encode(path, op).members;
            && StringMember(m, "op") == Ok(KindName(KindOf(op)))
            && StringMember(m, "path") == Ok(path + ToString(op.path))
            && (op.Move? || op.Copy? ==> StringMember(m, "from") == Ok(path + ToString(op.from)))
            && (op.Add? || op.Replace? ==> Member(m, "value") == Ok(op.value))
            && (op.Test? ==> op.expected == if "value" in m then Some(m["value"]) else None)
  {
    assert |"op"| == 2 && |"path"| == 4 && |"from"| == 4 && |"value"| == 5;
    assert "from"[0] == 'f' && "path"[0] == 'p';
  }

  /** Reading a written operation back gives the operation, at any nesting depth and whatever the
      member names contain. */
  lemma ParseEncoded(p: Tokens, op: Op)
    ensures ParseOp(Encode(ToString(p), op)) == Ok(Lift(p, op))
  {
    EncodedMembers(ToString(p), op);
    GetOpKindName(KindOf(op));
    SplitBelow(p, op.path);
    if op.Move? || op.Copy? { SplitBelow(p, op.from); }
  }

  lemma SplitBelow(p: Tokens, q: Tokens)
    ensures Split(ToString(p) + ToString(q)) == Ok(p + q)
  {
    ToStringAppend(p, q);
    SplitToString(p + q);
  }

  /** A patch document written from a list of operations runs as that list. */
  lemma {:induction false} RunEncoded(doc: Json, ops: seq<Op>)
    ensures Patch(doc, Arr(EncodeAll("", ops))) == RunOps(doc, ops)
    decreases |ops|
  {
    if ops != [] {
      ParseEncoded([], ops[0]);
      LiftNothing(ops[0]);
      RunEncoded(Apply(doc, ops[0]).doc, ops[1..]);
    }
  }

  lemma LiftNothing(op: Op)
    ensures Lift([], op) == op
  {
    assert [] + op.path == op.path;
    if op.Move? || op.Copy? { assert [] + op.from == op.from; }
  }

  // ------------------------------------------------- locality of patch documents

  function PrefixMember(prefix: string, m: map<string, Json>, name: string): map<string, Json> {
    if name in m && m[name].Str? then m[name := Str(prefix + m[name].s)] else m
  }

  /** The patch element with `prefix` put before the text of its pointers. */
  function PrefixElem(prefix: string, e: Json): Json {
    if e.Obj? then Obj(PrefixMember(prefix, PrefixMember(prefix, e.members, "path"), "from")) else e
  }

  function PrefixAll(prefix: string, es: seq<Json>): seq<Json> {
    if es == [] then [] else [PrefixElem(prefix, es[0])] + PrefixAll(prefix, es[1..])
  }

  /** Pointer texts that are empty or begin with a slash; the others are rejected whatever follows,
      and putting a prefix before them would hide that. */
  predicate Rooted(e: Json) {
    e.Obj? ==>
      forall name <- ["path", "from"] ::
        name in e.members && e.members[name].Str? && e.members[name].s != "" ==> e.members[name].s[0] == '/'
  }

  lemma FromPrefixed(p: Tokens, m: map<string, Json>, m': map<string, Json>)
    requires m'.Keys == m.Keys
    requires "from" in m ==> m'["from"] == if m["from"].Str? then Str(ToString(p) + m["from"].s) else m["from"]
    requires "from" in m && m["from"].Str? && m["from"].s != "" ==> m["from"].s[0] == '/'
    ensures ParseFrom(m') == Prepend(p, ParseFrom(m))
  {
    var from := StringMember(m, "from");
    if from.Ok? { SplitAppend(p, from.value); }
  }

  lemma KindPrefixed(p: Tokens, m: map<string, Json>, m': map<string, Json>, kind: Kind, path: Tokens)
    requires m'.Keys == m.Keys
    requires "value" in m ==> m'["value"] == m["value"]
    requires "from" in m ==> m'["from"] == if m["from"].Str? then Str(ToString(p) + m["from"].s) else m["from"]
    requires "from" in m && m["from"].Str? && m["from"].s != "" ==> m["from"].s[0] == '/'
    ensures ParseKind(m', kind, p + path) == LiftResult(p, ParseKind(m, kind, path))
  {
    FromPrefixed(p, m, m');
    match kind
    case KMove =>
    case KCopy =>
    case _ =>
  }

  lemma PrefixedMembers(prefix: string, m: map<string, Json>)
    ensures var m' := PrefixElem(prefix, Obj(m)).members;
            && m'.Keys == m.Keys && StringMember(m', "op") == StringMember(m, "op")
            && ("value" in m ==> m'["value"] == m["value"])
            && ("path" in m ==> m'["path"] == if m["path"].Str? then Str(prefix + m["path"].s) else m["path"])
            && ("from" in m ==> m'["from"] == if m["from"].Str? then Str(prefix + m["from"].s) else m["from"])
  {
    assert |"op"| == 2 && |"path"| == 4 && |"from"| == 4 && |"value"| == 5;
    assert "from"[0] == 'f' && "path"[0] == 'p';
  }

  lemma PathPrefixed(p: Tokens, m: map<string, Json>, m': map<string, Json>)
    requires StringMember(m, "path").Ok? && m'.Keys == m.Keys && m'["path"] == Str(ToString(p) + m["path"].s)
    requires m["path"].s != "" ==> m["path"].s[0] == '/'
    ensures StringMember(m', "path").Ok?
    ensures Split(StringMember(m', "path").value) == Prepend(p, Split(StringMember(m, "path").value))
  {
    SplitAppend(p, m["path"].s);
  }

  lemma ParsePrefixed(p: Tokens, e: Json)
    requires Rooted(e)
    ensures ParseOp(PrefixElem(ToString(p), e)) == LiftResult(p, ParseOp(e))
  {
    if e.Obj? {
      var m, m' := e.members, PrefixElem(ToString(p), e).members;
      assert ["path", "from"][0] == "path" && ["path", "from"][1] == "from";
      PrefixedMembers(ToString(p), m);
      var kind, path := StringMember(m, "op"), StringMember(m, "path");
      if kind.Ok? && path.Ok? {
        PathPrefixed(p, m, m');
        if Split(path.value).Ok? { KindPrefixed(p, m, m', GetOp(kind.value), Split(path.value).value); }
      }
    }
  }

  /** Patch locality: where `p` resolves, a patch whose pointers are moved below `p` changes the
      document only in the subtree at `p`, changes that exactly as the patch itself would, and throws
      the same exception in the same cases. */
  lemma {:induction false} PatchLocal(doc: Json, p: Tokens, es: seq<Json>)
    requires GetChecked(doc, p).Ok?
    requires forall i | 0 <= i < |es| :: Rooted(es[i]) && (ParseOp(es[i]).Ok? ==> StaysBelow(ParseOp(es[i]).value))
    ensures Patch(doc, Arr(PrefixAll(ToString(p), es))) ==
            Graft(doc, p, Patch(GetChecked(doc, p).value, Arr(es)))
    decreases |es|
  {
    var sub := GetChecked(doc, p).value;
    SetAtLaws(doc, p, sub, sub);
    if es != [] {
      ParsePrefixed(p, es[0]);
      if ParseOp(es[0]).Ok? { ApplyLocal(doc, p, ParseOp(es[0]).value); }
      var o := ApplyElem(sub, es[0]);
      if o.error.None? {
        SetAtLaws(doc, p, o.doc, RunElems(o.doc, es[1..]).doc);
        PatchLocal(SetAt(doc, p, o.doc), p, es[1..]);
      }
    }
  }

  lemma SetChildElsewhere(j: Json, t: string, u: string, v: Json)
    requires Child(j, t).Ok? && t != u
    ensures Child(SetChild(j, t, v), u) == Child(j, u)
  {
    ArrayIndexExact(t);
    ArrayIndexExact(u);
  }

  /** The same seen from outside: every pointer that leaves the chain to `p` resolves as before. */
  lemma {:induction false} GraftElsewhere(doc: Json, p: Tokens, v: Json, q: Tokens)
    requires GetChecked(doc, p).Ok?
    requires !(p <= q) && !(q <= p)
    ensures GetChecked(SetAt(doc, p, v), q) == GetChecked(doc, q)
  {
    var c := Child(doc, p[0]).value;
    if p[0] == q[0] {
      assert p == [p[0]] + p[1..] && q == [q[0]] + q[1..];
      SetChildLaws(doc, p[0], SetAt(c, p[1..], v), v);
      GraftElsewhere(c, p[1..], v, q[1..]);
    } else {
      SetChildElsewhere(doc, p[0], q[0], SetAt(c, p[1..], v));
    }
  }
}
