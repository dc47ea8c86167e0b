/** Resolving a pointer inside a document: `get_checked` (behind `at`) and `contains`
    (3rdparty/nlohmann/detail/json_pointer.hpp), and replacing the value found. */
module JsonAccess {
  import opened Wrappers
  import opened Text
  import opened JsonPointer
  import opened JsonValue

  /** One token of `get_checked`: object `at`, array `at`, or the error of a primitive value. */
  function Child(j: Json, t: string): Result<Json> {
    match j
    case Obj(m) => if t in m then Ok(m[t]) else Err(OutOfRange(403))
    case Arr(a) =>
      if t == "-" then Err(OutOfRange(402))
      else
        var idx :- ArrayIndex(t);
        if idx < |a| then Ok(a[idx]) else Err(OutOfRange(401))
    case _ => Err(OutOfRange(404))
  }

  function GetChecked(j: Json, ts: Tokens): Result<Json> {
    if ts == [] then Ok(j)
    else
      var c :- Child(j, ts[0]);
      GetChecked(c, ts[1..])
  }

  /** The loop of `get_checked`, moving a cursor down the document. */
  method GetCheckedLoop(j: Json, ts: Tokens) returns (r: Result<Json>)
    ensures r == GetChecked(j, ts)
  {
    var cursor := j;
    assert ts[0..] == ts;
    for i := 0 to |ts|
      invariant GetChecked(j, ts) == GetChecked(cursor, ts[i..])
    {
      assert ts[i..][1..] == ts[i + 1..];
      match cursor {
        case Obj(m) =>
          if ts[i] !in m { return Err(OutOfRange(403)); }
          cursor := m[ts[i]];
        case Arr(a) =>
          if ts[i] == "-" { return Err(OutOfRange(402)); }
          var idx :- ArrayIndex(ts[i]);
          if idx >= |a| { return Err(OutOfRange(401)); }
          cursor := a[idx];
        case _ =>
          return Err(OutOfRange(404));
      }
    }
    return Ok(cursor);
  }

  // ------------------------------------------------- contains

  /** The syntax checks of `contains` on a token that meets an array. The empty token passes. */
  predicate LooksLikeIndex(t: string) {
    && t != "-"
    && (|t| == 1 ==> '0' <= t[0] <= '9')
    && (|t| > 1 ==> '1' <= t[0] <= '9' && forall i | 1 <= i < |t| :: '0' <= t[i] <= '9')
  }

  function Contains(j: Json, ts: Tokens): Result<bool> {
    if ts == [] then Ok(true)
    else match j
      case Obj(m) => if ts[0] in m then Contains(m[ts[0]], ts[1..]) else Ok(false)
      case Arr(a) =>
        if !LooksLikeIndex(ts[0]) then Ok(false)
        else
          var idx :- ArrayIndex(ts[0]);
          if idx < |a| then Contains(a[idx], ts[1..]) else Ok(false)
      case _ => Ok(false)
  }

  /** The loop of `contains`. */
  method ContainsLoop(j: Json, ts: Tokens) returns (r: Result<bool>)
    ensures r == Contains(j, ts)
  {
    var cursor := j;
    assert ts[0..] == ts;
    for i := 0 to |ts|
      invariant Contains(j, ts) == Contains(cursor, ts[i..])
    {
      var t := ts[i];
      assert ts[i..][1..] == ts[i + 1..];
      match cursor {
        case Obj(m) =>
          if t !in m { return Ok(false); }
          cursor := m[t];
        case Arr(a) =>
          if t == "-" { return Ok(false); }
          if |t| == 1 && !('0' <= t[0] <= '9') { return Ok(false); }
          if |t| > 1 {
            if !('1' <= t[0] <= '9') { return Ok(false); }
            for k := 1 to |t|
              invariant forall i | 1 <= i < k :: '0' <= t[i] <= '9'
            {
              if !('0' <= t[k] <= '9') { return Ok(false); }
            }
          }
          var idx :- ArrayIndex(t);
          if idx >= |a| { return Ok(false); }
          cursor := a[idx];
        case _ =>
          return Ok(false);
      }
    }
    return Ok(true);
  }

  lemma LooksLikeIndexExact(t: string)
    ensures LooksLikeIndex(t) <==> t == "" || IsCanonical(t)
  {
    assert IsCanonical(t) <==> t != "" && (forall i | 0 <= i < |t| :: IsDigit(t[i])) && (|t| > 1 ==> t[0] != '0');
  }

  /** A token on which `contains` throws when it meets an array: empty, or a numeral that is too large for
      `size_type`. */
  predicate BadIndex(t: string) { t == "" || (IsCanonical(t) && DecimalValue(t) >= SIZE_MAX) }

  /** Some prefix of the pointer resolves to an array, and the next token is bad for it. */
  ghost predicate MeetsBadIndex(j: Json, ts: Tokens) {
    exists k :: 0 <= k < |ts| && ArrayAt(j, ts[..k]) && BadIndex(ts[k])
  }

  predicate ArrayAt(j: Json, ts: Tokens) { GetChecked(j, ts).Ok? && GetChecked(j, ts).value.Arr? }

  lemma MeetsBadIndexStep(j: Json, ts: Tokens)
    requires ts != []
    ensures MeetsBadIndex(j, ts) <==>
            || (j.Arr? && BadIndex(ts[0]))
            || (Child(j, ts[0]).Ok? && MeetsBadIndex(Child(j, ts[0]).value, ts[1..]))
  {
    if k :| 0 <= k < |ts| && ArrayAt(j, ts[..k]) && BadIndex(ts[k]) {
      if k > 0 {
        assert ts[..k][1..] == ts[1..][..k - 1];
        assert ArrayAt(Child(j, ts[0]).value, ts[1..][..k - 1]) && BadIndex(ts[1..][k - 1]);
      }
    }
    if j.Arr? && BadIndex(ts[0]) {
      assert ArrayAt(j, ts[..0]);
    }
    if Child(j, ts[0]).Ok? && MeetsBadIndex(Child(j, ts[0]).value, ts[1..]) {
      var k :| 0 <= k < |ts[1..]| && ArrayAt(Child(j, ts[0]).value, ts[1..][..k]) && BadIndex(ts[1..][k]);
      assert ts[..k + 1][1..] == ts[1..][..k];
      assert ArrayAt(j, ts[..k + 1]) && BadIndex(ts[k + 1]);
    }
  }

  /** `contains` answers true exactly when `get_checked` succeeds; it throws exactly where it meets an
      array with a bad token, and there `get_checked` throws the same. */
  lemma {:induction false} ContainsExact(j: Json, ts: Tokens)
    ensures Contains(j, ts) == Ok(true) <==> GetChecked(j, ts).Ok?
    ensures Contains(j, ts).Err? <==> MeetsBadIndex(j, ts)
    ensures Contains(j, ts).Err? ==> GetChecked(j, ts) == Err(Contains(j, ts).error)
  {
    if ts != [] {
      var t := ts[0];
      MeetsBadIndexStep(j, ts);
      match j
      case Obj(m) => if t in m { ContainsExact(m[t], ts[1..]); }
      case Arr(a) =>
        LooksLikeIndexExact(t);
        ArrayIndexExact(t);
        if ArrayIndex(t).Ok? && ArrayIndex(t).value < |a| {
          ContainsExact(a[ArrayIndex(t).value], ts[1..]);
        }
      case _ =>
    }
  }

  /** The smallest question that `contains` answers with an exception: "/" of an empty array. */
  lemma EmptyIndexThrows()
    ensures Contains(Arr([]), [""]) == Err(OutOfRange(404)) && MeetsBadIndex(Arr([]), [""])
  {
    assert DigitPrefix("") == 0;
    ContainsExact(Arr([]), [""]);
  }

  // ------------------------------------------------- replacing a value

  /** The document with the child `t` exchanged for `v`. */
  function SetChild(j: Json, t: string, v: Json): Json
    requires Child(j, t).Ok?
  {
    match j
    case Obj(m) => Obj(m[t := v])
    case Arr(a) => Arr(a[ArrayIndex(t).value := v])
  }

  /** The document after an assignment through the reference that `at(ts)` returns. */
  function SetAt(j: Json, ts: Tokens, v: Json): Json
    requires GetChecked(j, ts).Ok?
  {
    if ts == [] then v
    else SetChild(j, ts[0], SetAt(Child(j, ts[0]).value, ts[1..], v))
  }

  lemma SetChildLaws(j: Json, t: string, v: Json, w: Json)
    requires Child(j, t).Ok?
    ensures Child(SetChild(j, t, v), t) == Ok(v)
    ensures SetChild(SetChild(j, t, v), t, w) == SetChild(j, t, w)
    ensures SetChild(j, t, Child(j, t).value) == j
  {}

  lemma {:induction false} SetAtLaws(j: Json, ts: Tokens, v: Json, w: Json)
    requires GetChecked(j, ts).Ok?
    ensures GetChecked(SetAt(j, ts, v), ts) == Ok(v)
    ensures SetAt(SetAt(j, ts, v), ts, w) == SetAt(j, ts, w)
    ensures SetAt(j, ts, GetChecked(j, ts).value) == j
  {
    if ts != [] {
      var c := Child(j, ts[0]).value;
      SetAtLaws(c, ts[1..], v, w);
      SetChildLaws(j, ts[0], SetAt(c, ts[1..], v), SetAt(c, ts[1..], w));
    }
  }

  lemma {:induction false} GetAppend(j: Json, p: Tokens, q: Tokens)
    ensures GetChecked(j, p + q) ==
            match GetChecked(j, p) case Ok(s) => GetChecked(s, q) case Err(e) => Err(e)
  {
    if p == [] {
      assert p + q == q;
    } else {
      assert (p + q)[1..] == p[1..] + q;
      if Child(j, p[0]).Ok? { GetAppend(Child(j, p[0]).value, p[1..], q); }
    }
  }

  lemma {:induction false} SetAppend(j: Json, p: Tokens, q: Tokens, v: Json)
    requires GetChecked(j, p).Ok? && GetChecked(GetChecked(j, p).value, q).Ok?
    ensures GetChecked(j, p + q).Ok?
    ensures SetAt(j, p + q, v) == SetAt(j, p, SetAt(GetChecked(j, p).value, q, v))
  {
    GetAppend(j, p, q);
    if p == [] {
      assert p + q == q;
    } else {
      assert (p + q)[1..] == p[1..] + q;
      SetAppend(Child(j, p[0]).value, p[1..], q, v);
    }
  }
}
