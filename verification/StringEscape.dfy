/** 3rdparty/nlohmann/detail/string_escape.hpp: the escaping of reference tokens. */
module StringEscape {
  import opened Wrappers

  // ------------------------------------------------- find and replace

  predicate OccursAt(s: string, f: string, i: nat) {
    i + |f| <= |s| && s[i..i + |f|] == f
  }

  /** `std::string::find(f, from)`: the first occurrence that starts at `from` or later. */
  function Find(s: string, f: string, from: nat): (r: Option<nat>)
    ensures r.Some? ==> from <= r.value && OccursAt(s, f, r.value)
    ensures forall i | from <= i && (r.Some? ==> i < r.value) :: !OccursAt(s, f, i)
    decreases |s| - from
  {
    if from + |f| > |s| then None
    else if OccursAt(s, f, from) then Some(from)
    else Find(s, f, from + 1)
  }

  /** `s` with the occurrences of `f`, taken from left to right without overlaps, replaced by `t`. */
  function ReplaceAll(s: string, f: string, t: string): string
    requires f != []
  {
    if s == [] then []
    else if OccursAt(s, f, 0) then t + ReplaceAll(s[|f|..], f, t)
    else [s[0]] + ReplaceAll(s[1..], f, t)
  }

  lemma {:induction false} ReplaceSkip(s: string, f: string, t: string, k: nat)
    requires f != [] && k <= |s|
    requires forall i | 0 <= i < k :: !OccursAt(s, f, i)
    ensures ReplaceAll(s, f, t) == s[..k] + ReplaceAll(s[k..], f, t)
  {
    if k == 0 {
      assert s[0..] == s;
    } else {
      assert !OccursAt(s, f, 0);
      forall i | 0 <= i < k - 1 ensures !OccursAt(s[1..], f, i) {
        assert !OccursAt(s, f, i + 1);
        assert i + 1 + |f| <= |s| ==> s[1..][i..i + |f|] == s[i + 1..i + 1 + |f|];
      }
      ReplaceSkip(s[1..], f, t, k - 1);
      assert s[1..][k - 1..] == s[k..];
      assert s[..k] == [s[0]] + s[1..][..k - 1];
    }
  }

  lemma OccursInSuffix(s: string, f: string, from: nat, i: nat)
    requires from <= |s|
    ensures OccursAt(s[from..], f, i) <==> OccursAt(s, f, from + i)
  {
    if from + i + |f| <= |s| {
      assert s[from..][i..i + |f|] == s[from + i..from + i + |f|];
    }
  }

  /** Where the search fails, nothing is left to replace. */
  lemma ReplaceNone(s: string, f: string, t: string, from: nat)
    requires f != [] && from <= |s| && Find(s, f, from).None?
    ensures ReplaceAll(s[from..], f, t) == s[from..]
  {
    var w := s[from..];
    forall i | 0 <= i < |w| ensures !OccursAt(w, f, i) { OccursInSuffix(s, f, from, i); }
    ReplaceSkip(w, f, t, |w|);
    assert w[|w|..] == [] && w[..|w|] == w;
  }

  function ReplacedAt(s: string, f: string, t: string, p: nat): string
    requires OccursAt(s, f, p)
  {
    s[..p] + t + s[p + |f|..]
  }

  lemma ReplaceHere(s: string, f: string, t: string, p: nat)
    requires f != [] && OccursAt(s, f, p)
    ensures ReplaceAll(s[p..], f, t) == t + ReplaceAll(s[p + |f|..], f, t)
  {
    OccursInSuffix(s, f, p, 0);
    assert s[p..][|f|..] == s[p + |f|..];
  }

  lemma ReplaceUpTo(s: string, f: string, t: string, from: nat, p: nat)
    requires f != [] && from <= p <= |s|
    requires forall i | from <= i < p :: !OccursAt(s, f, i)
    ensures ReplaceAll(s[from..], f, t) == s[from..p] + ReplaceAll(s[p..], f, t)
  {
    var w, k := s[from..], p - from;
    forall i | 0 <= i < k ensures !OccursAt(w, f, i) {
      OccursInSuffix(s, f, from, i);
    }
    ReplaceSkip(w, f, t, k);
    assert w[k..] == s[p..] && w[..k] == s[from..p];
  }

  lemma Rearrange(s: string, t: string, from: nat, p: nat, q: nat, rest: string)
    requires from <= p <= q <= |s|
    ensures var next := s[..p] + t + s[q..];
            next[p + |t|..] == s[q..] && next[..p + |t|] + rest == s[..from] + (s[from..p] + (t + rest))
  {
    var next := s[..p] + t + s[q..];
    assert next[..p + |t|] == s[..p] + t;
    assert s[..from] + s[from..p] == s[..p];
  }

  /** Where the search succeeds, replacing the occurrence and moving past it loses nothing. */
  lemma ReplaceSome(s: string, f: string, t: string, from: nat, p: nat)
    requires f != [] && from <= |s| && Find(s, f, from) == Some(p)
    ensures var next := ReplacedAt(s, f, t, p);
            next[..p + |t|] + ReplaceAll(next[p + |t|..], f, t) == s[..from] + ReplaceAll(s[from..], f, t)
  {
    ReplaceUpTo(s, f, t, from, p);
    ReplaceHere(s, f, t, p);
    Rearrange(s, t, from, p, p + |f|, ReplaceAll(s[p + |f|..], f, t));
  }

  /** What has been replaced so far, up to `from`, and what the rest of the work would add to it. */
  ghost predicate Replacing(input: string, f: string, t: string, s: string, from: nat)
    requires f != []
  {
    from <= |s| && s[..from] + ReplaceAll(s[from..], f, t) == ReplaceAll(input, f, t)
  }

  lemma ReplaceBegun(input: string, f: string, t: string)
    requires f != []
    ensures Replacing(input, f, t, input, 0)
  {
    assert input[0..] == input;
  }

  lemma ReplaceRound(input: string, f: string, t: string, s: string, from: nat, p: nat)
    requires f != [] && Replacing(input, f, t, s, from) && Find(s, f, from) == Some(p)
    ensures from <= p && Replacing(input, f, t, ReplacedAt(s, f, t, p), p + |t|)
  {
    ReplaceSome(s, f, t, from, p);
  }

  lemma ReplaceDone(input: string, f: string, t: string, s: string, from: nat)
    requires f != [] && Replacing(input, f, t, s, from) && Find(s, f, from).None?
    ensures s == ReplaceAll(input, f, t)
  {
    ReplaceNone(s, f, t, from);
    assert s[..from] + s[from..] == s;
  }

  /** The find/replace loop, which edits the string in place. */
  method ReplaceSubstring(input: string, f: string, t: string) returns (s: string)
    requires f != []
    ensures s == ReplaceAll(input, f, t)
  {
    s := input;
    ghost var from: nat := 0;
    var pos := Find(s, f, 0);
    ReplaceBegun(input, f, t);
    while pos.Some?
      invariant Replacing(input, f, t, s, from)
      invariant pos == Find(s, f, from)
      decreases |s| - from, pos.Some?
    {
      var p := pos.value;
      ReplaceRound(input, f, t, s, from, p);
      var edited := s[..p] + t + s[p + |f|..];
      var next := p + |t|;
      s, pos, from := edited, Find(edited, f, next), next;
    }
    ReplaceDone(input, f, t, s, from);
  }

  // ------------------------------------------------- escape and unescape

  function Escape(s: string): string {
    ReplaceAll(ReplaceAll(s, "~", "~0"), "/", "~1")
  }

  function Unescape(s: string): string {
    ReplaceAll(ReplaceAll(s, "~1", "/"), "~0", "~")
  }

  method EscapeInPlace(s: string) returns (r: string)
    ensures r == Escape(s)
  {
    r := ReplaceSubstring(s, "~", "~0");
    r := ReplaceSubstring(r, "/", "~1");
  }

  method UnescapeInPlace(s: string) returns (r: string)
    ensures r == Unescape(s)
  {
    r := ReplaceSubstring(s, "~1", "/");
    r := ReplaceSubstring(r, "~0", "~");
  }

  /** Every `~` is followed by `0` or `1` (RFC 6901 section 3). */
  predicate ValidEscapes(s: string) {
    forall i | 0 <= i < |s| && s[i] == '~' :: i + 1 < |s| && (s[i + 1] == '0' || s[i + 1] == '1')
  }

  /** One character of an unescaped token, as RFC 6901 section 3 writes it. */
  function EscapeChar(c: char): string {
    if c == '~' then "~0" else if c == '/' then "~1" else [c]
  }

  /** Escaping as a single pass. */
  function EscapeEach(s: string): string {
    if s == [] then [] else EscapeChar(s[0]) + EscapeEach(s[1..])
  }

  /** Decoding as a single pass from left to right. */
  function Decode(s: string): string
    requires ValidEscapes(s)
  {
    if s == [] then []
    else if s[0] == '~' then
      assert s[1] == '0' || s[1] == '1';
      [if s[1] == '0' then '~' else '/'] + Decode(s[2..])
    else [s[0]] + Decode(s[1..])
  }

  lemma ReplaceOne(c: char, s: string, f: char, t: string)
    ensures ReplaceAll([c] + s, [f], t) == (if c == f then t else [c]) + ReplaceAll(s, [f], t)
  {
    assert ([c] + s)[0..1] == [c];
    assert ([c] + s)[1..] == s;
  }

  /** The two replacements of `escape` amount to a single pass over the characters. */
  lemma {:induction false} EscapeIsEscapeEach(s: string)
    ensures Escape(s) == EscapeEach(s)
  {
    if s != [] {
      var c, rest := s[0], s[1..];
      var e := ReplaceAll(rest, "~", "~0");
      assert s == [c] + rest;
      ReplaceOne(c, rest, '~', "~0");
      EscapeIsEscapeEach(rest);
      if c == '~' {
        assert "~0" + e == ['~'] + (['0'] + e);
        ReplaceOne('~', ['0'] + e, '/', "~1");
        ReplaceOne('0', e, '/', "~1");
        assert Escape(s) == ['~'] + (['0'] + Escape(rest));
        assert Escape(s) == "~0" + Escape(rest);
      } else {
        ReplaceOne(c, e, '/', "~1");
      }
    }
  }

  lemma ReplaceTwo(a: char, b: char, s: string, t: string)
    ensures ReplaceAll([a, b] + s, [a, b], t) == t + ReplaceAll(s, [a, b], t)
  {
    var w := [a, b] + s;
    assert w[0..2] == [a, b];
    assert w[2..] == s;
  }

  lemma ReplaceTwoOther(c: char, s: string, f: string, t: string)
    requires |f| == 2
    requires c != f[0] || s == [] || s[0] != f[1]
    ensures ReplaceAll([c] + s, f, t) == [c] + ReplaceAll(s, f, t)
  {
    var w := [c] + s;
    assert w[1..] == s;
    assert |w| >= 2 ==> w[0..2] == [c, s[0]];
  }

  /** On well-formed tokens the two replacements of `unescape` are the single-pass decoder: the
      order of the replacements never turns one escape into another. */
  lemma {:induction false} UnescapeIsDecode(s: string)
    requires ValidEscapes(s)
    ensures Unescape(s) == Decode(s)
  {
    if s == [] {
    } else if s[0] == '~' {
      var rest := s[2..];
      var u := ReplaceAll(rest, "~1", "/");
      UnescapeIsDecode(rest);
      assert s == [s[0], s[1]] + rest;
      if s[1] == '1' {
        ReplaceTwo('~', '1', rest, "/");
        ReplaceTwoOther('/', u, "~0", "~");
      } else {
        assert s == ['~'] + (['0'] + rest);
        ReplaceTwoOther('~', ['0'] + rest, "~1", "/");
        ReplaceTwoOther('0', rest, "~1", "/");
        assert ['~'] + (['0'] + u) == ['~', '0'] + u;
        ReplaceTwo('~', '0', u, "~");
      }
    } else {
      var rest := s[1..];
      UnescapeIsDecode(rest);
      assert s == [s[0]] + rest;
      ReplaceTwoOther(s[0], rest, "~1", "/");
      ReplaceTwoOther(s[0], ReplaceAll(rest, "~1", "/"), "~0", "~");
    }
  }

  lemma {:induction false} EscapeEachValid(s: string)
    ensures ValidEscapes(EscapeEach(s)) && '/' !in EscapeEach(s)
    ensures Decode(EscapeEach(s)) == s
  {
    if s != [] {
      EscapeEachValid(s[1..]);
      var e := EscapeEach(s[1..]);
      var w := EscapeChar(s[0]) + e;
      assert s == [s[0]] + s[1..];
      if |EscapeChar(s[0])| == 2 {
        assert w[2..] == e;
        assert forall i | 2 <= i < |w| :: w[i] == e[i - 2];
      } else {
        assert w[1..] == e;
        assert forall i | 1 <= i < |w| :: w[i] == e[i - 1];
      }
    }
  }

  lemma {:induction false} EscapeEachDecode(t: string)
    requires ValidEscapes(t) && '/' !in t
    ensures EscapeEach(Decode(t)) == t
  {
    if t != [] {
      if t[0] == '~' {
        EscapeEachDecode(t[2..]);
        assert t == [t[0], t[1]] + t[2..];
        assert Decode(t)[1..] == Decode(t[2..]);
      } else {
        EscapeEachDecode(t[1..]);
        assert t == [t[0]] + t[1..];
        assert Decode(t)[1..] == Decode(t[1..]);
      }
    }
  }

  /** `unescape` undoes `escape` on every string, and an escaped token holds no slash. */
  lemma UnescapeEscape(s: string)
    ensures Unescape(Escape(s)) == s
    ensures ValidEscapes(Escape(s)) && '/' !in Escape(s)
  {
    EscapeIsEscapeEach(s);
    EscapeEachValid(s);
    UnescapeIsDecode(Escape(s));
  }

  /** `escape` undoes `unescape` on exactly the tokens that RFC 6901 section 3 allows. */
  lemma EscapeUnescape(t: string)
    ensures Escape(Unescape(t)) == t <==> ValidEscapes(t) && '/' !in t
  {
    if ValidEscapes(t) && '/' !in t {
      UnescapeIsDecode(t);
      EscapeIsEscapeEach(Unescape(t));
      EscapeEachDecode(t);
    }
    UnescapeEscape(Unescape(t));
  }

  lemma {:induction false} EscapePlain(s: string)
    requires '/' !in s && '~' !in s
    ensures Escape(s) == s
  {
    EscapeIsEscapeEach(s);
    if s != [] {
      EscapePlain(s[1..]);
      EscapeIsEscapeEach(s[1..]);
      assert s == [s[0]] + s[1..];
    }
  }

  lemma {:induction false} EscapeEachAppend(a: string, b: string)
    ensures EscapeEach(a + b) == EscapeEach(a) + EscapeEach(b)
  {
    if a == [] {
      assert a + b == b;
    } else {
      assert (a + b)[1..] == a[1..] + b;
      EscapeEachAppend(a[1..], b);
    }
  }

  /** Section 3 of RFC 6901: a tilde is written ~0 and a slash ~1, every other character stands for itself, and
      characters are escaped independently of each other. */
  lemma EscapeExact(a: string, b: string, c: char)
    ensures Escape("") == "" && Escape(a + b) == Escape(a) + Escape(b)
    ensures Escape("~") == "~0" && Escape("/") == "~1"
    ensures c != '~' && c != '/' ==> Escape([c]) == [c]
  {
    EscapeIsEscapeEach(a);
    EscapeIsEscapeEach(b);
    EscapeIsEscapeEach(a + b);
    EscapeEachAppend(a, b);
    EscapeIsEscapeEach("~");
    EscapeIsEscapeEach("/");
    if c != '~' && c != '/' { EscapePlain([c]); }
  }
}
