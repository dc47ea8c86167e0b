/** JSON Merge Patch (RFC 7396): `merge_patch` of 3rdparty/nlohmann/json.hpp. */
module JsonMergePatch {
  import opened Wrappers
  import opened Text
  import opened JsonPointer
  import opened JsonValue
  import opened JsonAccess
  import opened JsonPatch

  function MembersOf(j: Json): map<string, Json> {
    if j.Obj? then j.members else map[]
  }

  /** The value that a name has before it is merged; a missing one counts as null. */
  function Old(m: map<string, Json>, name: string): Json {
    if name in m then m[name] else Null
  }

  /** The MergePatch function of RFC 7396 section 2, stated member by member: names with a null in the
      patch disappear, other names in the patch are merged, and all others stay. */
  function Merged(target: Json, patch: Json): Json
    decreases patch
  {
    match patch
    case Obj(p) =>
      var t := MembersOf(target);
      Obj(map k | k in t.Keys + p.Keys && !(k in p && p[k].Null?) ::
            if k in p then Merged(Old(t, k), p[k]) else t[k])
    case _ => patch
  }

  /** One round of the loop in RFC 7396 section 2. */
  function MergeMember(t: map<string, Json>, name: string, v: Json): map<string, Json> {
    if v.Null? then t - {name} else t[name := Merged(Old(t, name), v)]
  }

  /** The loop over some of the patch's names, in any order. */
  function MergeMembers(t: map<string, Json>, p: map<string, Json>, names: seq<string>): map<string, Json>
    requires forall i | 0 <= i < |names| :: names[i] in p
    decreases |names|
  {
    if names == [] then t else MergeMembers(MergeMember(t, names[0], p[names[0]]), p, names[1..])
  }

  predicate Distinct(names: seq<string>) {
    forall i, j | 0 <= i < j < |names| :: names[i] != names[j]
  }

  lemma {:induction false} MergeMembersEffect(t: map<string, Json>, p: map<string, Json>, names: seq<string>)
    requires Distinct(names) && forall i | 0 <= i < |names| :: names[i] in p
    ensures var r := MergeMembers(t, p, names);
            && (forall k | k in names :: k in r <==> !p[k].Null?)
            && (forall k | k !in names :: k in r <==> k in t)
            && (forall k | k in r :: r[k] == if k in names then Merged(Old(t, k), p[k]) else t[k])
    decreases |names|
  {
    if names != [] {
      var name := names[0];
      assert name !in names[1..];
      assert forall k :: k in names <==> k == name || k in names[1..];
      MergeMembersEffect(MergeMember(t, name, p[name]), p, names[1..]);
    }
  }

  /** RFC 7396 does not fix the order in which the patch's names are visited: every order gives the
      member-by-member result. */
  lemma AnyOrderMerges(target: Json, p: map<string, Json>, names: seq<string>)
    requires Distinct(names) && forall k :: k in names <==> k in p
    ensures Obj(MergeMembers(MembersOf(target), p, names)) == Merged(target, Obj(p))
  {
    assert forall i | 0 <= i < |names| :: names[i] in names;
    MergeMembersEffect(MembersOf(target), p, names);
    var r, m := MergeMembers(MembersOf(target), p, names), Merged(target, Obj(p)).members;
    assert r.Keys == m.Keys;
    assert r == m;
  }

  /** `merge_patch`, which updates the document in place, member by member. */
  method MergePatch(doc: Document, patch: Json)
    modifies doc
    ensures doc.value == Merged(old(doc.value), patch)
    decreases patch, 1
  {
    if !patch.Obj? {
      doc.value := patch;
      return;
    }
    if !doc.value.Obj? {
      doc.value := Obj(map[]);
    }
    var p := patch.members;
    var names := SortedKeys(p.Keys);
    MergeNames(doc, patch, names);
    SortedDistinct(names, p.Keys);
    AnyOrderMerges(old(doc.value), p, names);
  }

  /** The loop over the members of the patch. */
  method MergeNames(doc: Document, patch: Json, names: seq<string>)
    requires doc.value.Obj? && patch.Obj? && forall k | 0 <= k < |names| :: names[k] in patch.members
    modifies doc
    ensures doc.value == Obj(MergeMembers(old(doc.value).members, patch.members, names))
    decreases patch, 0
  {
    ghost var t := doc.value.members;
    var p := patch.members;
    assert names[0..] == names;
    for i := 0 to |names|
      invariant doc.value.Obj?
      invariant MergeMembers(t, p, names) == MergeMembers(doc.value.members, p, names[i..])
    {
      MergeMembersAt(doc.value.members, p, names, i);
      MergeName(doc, names[i], p[names[i]]);
    }
  }

  /** The body of the loop: one name of the patch. */
  method MergeName(doc: Document, name: string, v: Json)
    requires doc.value.Obj?
    modifies doc
    ensures doc.value == Obj(MergeMember(old(doc.value).members, name, v))
    decreases v, 2
  {
    var m := doc.value.members;
    if v.Null? {
      doc.value := Obj(m - {name});
    } else {
      var child := new Document(Old(m, name));
      MergePatch(child, v);
      doc.value := Obj(m[name := child.value]);
    }
  }

  lemma MergeMembersAt(t: map<string, Json>, p: map<string, Json>, names: seq<string>, i: nat)
    requires i < |names| && forall k | 0 <= k < |names| :: names[k] in p
    ensures MergeMembers(t, p, names[i..]) == MergeMembers(MergeMember(t, names[i], p[names[i]]), p, names[i + 1..])
  {
    assert names[i..][1..] == names[i + 1..];
  }

  // ------------------------------------------------- what merging means

  /** Applying a merge patch twice is the same as applying it once. */
  lemma {:induction false} MergeIdempotent(target: Json, patch: Json)
    ensures Merged(Merged(target, patch), patch) == Merged(target, patch)
    decreases patch
  {
    match patch
    case Obj(p) =>
      var once := Merged(target, patch).members;
      var twice := Merged(Merged(target, patch), patch).members;
      assert twice.Keys == once.Keys;
      forall k | k in once ensures twice[k] == once[k] {
        if k in p { MergeIdempotent(Old(MembersOf(target), k), p[k]); }
      }
    case _ =>
  }

  /** Does the patch say nothing about the value at the path `q` of the target? */
  predicate Unnamed(target: Json, patch: Json, q: Tokens) {
    && q != [] && target.Obj? && patch.Obj?
    && (|| q[0] !in patch.members
        || (q[0] in target.members && Unnamed(target.members[q[0]], patch.members[q[0]], q[1..])))
  }

  /** Members that the patch does not name are unchanged, at every depth. */
  lemma {:induction false} MergeKeepsUnnamed(target: Json, patch: Json, q: Tokens)
    requires Unnamed(target, patch, q)
    ensures GetChecked(Merged(target, patch), q) == GetChecked(target, q)
  {
    var t, p := target.members, patch.members;
    if q[0] in p {
      MergeKeepsUnnamed(t[q[0]], p[q[0]], q[1..]);
    }
  }

  /** The path `q` goes through objects of the patch and ends at a value of the patch. */
  predicate Names(patch: Json, q: Tokens) {
    q != [] ==> patch.Obj? && q[0] in patch.members && Names(patch.members[q[0]], q[1..])
  }

  /** What the patch does name is decided at every depth: a null means absence, anything else that
      is no object is the new value. */
  lemma {:induction false} MergeSetsNamed(target: Json, patch: Json, q: Tokens)
    requires q != [] && Names(patch, q)
    ensures GetChecked(patch, q).Ok?
    ensures var v := GetChecked(patch, q).value;
            && (v.Null? ==> GetChecked(Merged(target, patch), q) == Err(OutOfRange(403)))
            && (!v.Null? && !v.Obj? ==> GetChecked(Merged(target, patch), q) == Ok(v))
            && (v.Obj? ==> GetChecked(Merged(target, patch), q).Ok? && GetChecked(Merged(target, patch), q).value.Obj?)
    decreases patch
  {
    var c := patch.members[q[0]];
    if |q| == 1 {
      assert q[1..] == [];
    } else {
      MergeSetsNamed(Old(MembersOf(target), q[0]), c, q[1..]);
    }
  }

  /** At the root: a patch that is no object replaces the target, null included, and an object makes an empty
      object of a target that is none. */
  lemma MergeRoot(target: Json, patch: Json)
    ensures !patch.Obj? ==> Merged(target, patch) == patch
    ensures patch.Obj? && !target.Obj? ==> Merged(target, patch) == Merged(Obj(map[]), patch)
    ensures Merged(target, Obj(map[])) == if target.Obj? then target else Obj(map[])
  {
    assert MembersOf(target) == MembersOf(Obj(map[])) || target.Obj?;
    var m := Merged(target, Obj(map[])).members;
    assert m.Keys == MembersOf(target).Keys && m == MembersOf(target);
  }

  /** What the target has at a path through objects; null stands for nothing. */
  function Former(target: Json, q: Tokens): Json {
    if Names(target, q) && GetChecked(target, q).Ok? then GetChecked(target, q).value else Null
  }

  lemma FormerStep(target: Json, q: Tokens)
    requires q != []
    ensures Former(target, q) == Former(Old(MembersOf(target), q[0]), q[1..])
  {}

  /** Below the root: what the patch has at a path, unless it is null, is merged into what the target has. */
  lemma {:induction false} MergeBelow(target: Json, patch: Json, q: Tokens)
    requires Names(patch, q) && GetChecked(patch, q).Ok? && !GetChecked(patch, q).value.Null?
    ensures GetChecked(Merged(target, patch), q) == Ok(Merged(Former(target, q), GetChecked(patch, q).value))
    decreases |q|
  {
    if q != [] {
      FormerStep(target, q);
      MergeBelow(Old(MembersOf(target), q[0]), patch.members[q[0]], q[1..]);
    }
  }
}
