/** 3rdparty/nlohmann/detail/json_pointer.hpp: the string syntax of JSON pointers (RFC 6901).
    A pointer is its list of unescaped reference tokens. */
module JsonPointer {
  import opened Wrappers
  import opened Text
  import opened StringEscape

  type Tokens = seq<string>

  // ------------------------------------------------- printing

  /** `to_string`: a left fold over the reference tokens. */
  function ToString(ts: Tokens): string {
    if ts == [] then ""
    else ToString(ts[..|ts| - 1]) + "/" + Escape(ts[|ts| - 1])
  }

  lemma {:induction false} ToStringAppend(a: Tokens, b: Tokens)
    ensures ToString(a + b) == ToString(a) + ToString(b)
  {
    if b == [] {
      assert a + b == a;
    } else {
      var init, last := b[..|b| - 1], b[|b| - 1];
      assert (a + b)[..|a + b| - 1] == a + init;
      ToStringAppend(a, init);
    }
  }

  lemma ToStringCons(t: string, ts: Tokens)
    ensures ToString([t] + ts) == "/" + Escape(t) + ToString(ts)
  {
    ToStringAppend([t], ts);
    assert ToString([t]) == ToString([]) + "/" + Escape(t) by { assert [t][..0] == []; }
  }

  lemma ToStringStart(ts: Tokens)
    ensures ToString(ts) == "" <==> ts == []
    ensures ts != [] ==> ToString(ts)[0] == '/'
  {
    if ts != [] {
      ToStringCons(ts[0], ts[1..]);
      assert ts == [ts[0]] + ts[1..];
    }
  }

  // ------------------------------------------------- parsing

  /** `find_first_of(c, from)`. */
  function FirstOf(s: string, c: char, from: nat): (r: Option<nat>)
    ensures r.Some? ==> from <= r.value < |s| && s[r.value] == c
    ensures forall i | from <= i < |s| && (r.Some? ==> i < r.value) :: s[i] != c
    decreases |s| - from
  {
    if from >= |s| then None
    else if s[from] == c then Some(from)
    else FirstOf(s, c, from + 1)
  }

  lemma FirstOfUnique(s: string, c: char, from: nat, e: nat)
    requires from <= e <= |s| && (e < |s| ==> s[e] == c)
    requires forall i | from <= i < e :: s[i] != c
    ensures FirstOf(s, c, from) == if e < |s| then Some(e) else None
  {}

  function TokenEnd(s: string): (e: nat)
    requires s != []
    ensures 1 <= e <= |s|
  {
    match FirstOf(s, '/', 1) case None => |s| case Some(p) => p
  }

  function Prepend(ts: Tokens, r: Result<Tokens>): Result<Tokens> {
    match r case Ok(us) => Ok(ts + us) case Err(e) => Err(e)
  }

  lemma PrependPrepend(a: Tokens, b: Tokens, r: Result<Tokens>)
    ensures Prepend(a, Prepend(b, r)) == Prepend(a + b, r)
    ensures Prepend([], r) == r
  {
    if r.Ok? {
      assert a + (b + r.value) == (a + b) + r.value;
      assert [] + r.value == r.value;
    }
  }

  /** `split`, token by token. */
  function Split(s: string): Result<Tokens> {
    if s == "" then Ok([])
    else if s[0] != '/' then Err(ParseError(107))
    else
      var e := TokenEnd(s);
      if !ValidEscapes(s[1..e]) then Err(ParseError(108))
      else Prepend([Unescape(s[1..e])], Split(s[e..]))
  }

  /** The inner loop of `split`: is each `~` of the token followed by 0 or 1? */
  method CheckEscapes(token: string) returns (ok: bool)
    ensures ok <==> ValidEscapes(token)
  {
    ghost var checked: nat := 0;
    var pos := FirstOf(token, '~', 0);
    while pos.Some?
      invariant checked <= |token| && pos == FirstOf(token, '~', checked)
      invariant forall i | 0 <= i < checked && token[i] == '~' ::
                  i + 1 < |token| && (token[i + 1] == '0' || token[i + 1] == '1')
      decreases |token| - checked
    {
      var p := pos.value;
      if p == |token| - 1 || (token[p + 1] != '0' && token[p + 1] != '1') {
        return false;
      }
      pos := FirstOf(token, '~', p + 1);
      checked := p + 1;
    }
    return true;
  }

  function SlashOrEnd(s: string, slash: Option<nat>): nat {
    match slash case None => |s| case Some(p) => p
  }

  /** What one iteration of the loop contributes. */
  lemma SplitStep(s: string, start: nat)
    requires 0 < start <= |s| && s[start - 1] == '/'
    ensures var end := SlashOrEnd(s, FirstOf(s, '/', start));
            && start <= end <= |s| && (end < |s| ==> s[end] == '/')
            && Split(s[start - 1..]) ==
               if !ValidEscapes(s[start..end]) then Err(ParseError(108))
               else Prepend([Unescape(s[start..end])], Split(s[end..]))
  {
    var w := s[start - 1..];
    var end := SlashOrEnd(s, FirstOf(s, '/', start));
    var e := end - start + 1;
    assert forall i | 1 <= i < e :: w[i] == s[i + start - 1];
    FirstOfUnique(w, '/', 1, e);
    assert w[1..e] == s[start..end] && w[e..] == s[end..];
  }

  /** The loop has collected `tokens` and goes on after the slash before `start`, or is done. */
  ghost predicate Collected(s: string, start: nat, tokens: Tokens) {
    && start <= |s|
    && if start == 0 then Split(s) == Ok(tokens)
       else s[start - 1] == '/' && Split(s) == Prepend(tokens, Split(s[start - 1..]))
  }

  /** One more token was found, and a slash after it ... */
  lemma CollectMore(s: string, start: nat, end: nat, token: string, tokens: Tokens)
    requires Collected(s, start, tokens) && 0 < start <= end < |s| && s[end] == '/'
    requires Split(s[start - 1..]) == Prepend([token], Split(s[end..]))
    ensures Collected(s, end + 1, tokens + [token])
  {
    PrependPrepend(tokens, [token], Split(s[end..]));
  }

  /** ... or it was the last one. */
  lemma CollectLast(s: string, start: nat, token: string, tokens: Tokens)
    requires Collected(s, start, tokens) && 0 < start <= |s|
    requires Split(s[start - 1..]) == Prepend([token], Ok([]))
    ensures Collected(s, 0, tokens + [token])
  {
    PrependPrepend(tokens, [token], Ok([]));
    assert tokens + [token] + [] == tokens + [token];
  }

  lemma SlashIsEnd(s: string, start: nat)
    requires start <= |s|
    ensures var slash := FirstOf(s, '/', start);
            SlashOrEnd(s, slash) <= |s| && (slash.None? <==> SlashOrEnd(s, slash) == |s|)
  {}

  lemma CollectFirst(s: string)
    requires s != "" && s[0] == '/'
    ensures Collected(s, 1, [])
  {
    assert s[0..] == s;
    PrependPrepend([], [], Split(s));
  }

  /** The loop of `split` over the positions `start` and `slash`; `start == 0` ends it. */
  method SplitLoop(s: string) returns (r: Result<Tokens>)
    ensures r == Split(s)
  {
    if s == "" {
      return Ok([]);
    }
    if s[0] != '/' {
      return Err(ParseError(107));
    }
    var tokens := [];
    var slash := FirstOf(s, '/', 1);
    var start := 1;
    CollectFirst(s);
    while start != 0
      invariant Collected(s, start, tokens)
      invariant start != 0 ==> slash == FirstOf(s, '/', start)
      decreases if start == 0 then 0 else |s| + 1 - start
    {
      SplitStep(s, start);
      SlashIsEnd(s, start);
      var end := SlashOrEnd(s, slash);
      var token := s[start..end];
      var ok := CheckEscapes(token);
      if !ok {
        return Err(ParseError(108));
      }
      var unescaped := UnescapeInPlace(token);
      if end < |s| { CollectMore(s, start, end, unescaped, tokens); } else { CollectLast(s, start, unescaped, tokens); }
      tokens := tokens + [unescaped];
      start := if slash.None? then 0 else end + 1;
      slash := FirstOf(s, '/', start);
    }
    return Ok(tokens);
  }

  // ------------------------------------------------- printing and parsing are inverse

  /** Parsing a string that begins with one token. */
  lemma SplitCons(token: string, tail: string)
    requires '/' !in token && (tail == "" || tail[0] == '/')
    ensures Split("/" + token + tail) ==
            if !ValidEscapes(token) then Err(ParseError(108))
            else Prepend([Unescape(token)], Split(tail))
  {
    var s := "/" + token + tail;
    var e := 1 + |token|;
    assert s[1..e] == token && s[e..] == tail;
    FirstOfUnique(s, '/', 1, e);
  }

  /** A printed pointer followed by more pointer text parses to its own tokens followed by what
      the rest parses to, and fails when and as the rest fails. */
  lemma {:induction false} SplitAppend(ts: Tokens, q: string)
    requires q == "" || q[0] == '/'
    ensures Split(ToString(ts) + q) == Prepend(ts, Split(q))
  {
    if ts == [] {
      assert ToString(ts) + q == q;
      PrependPrepend([], [], Split(q));
    } else {
      var t, rest := ts[0], ts[1..];
      assert ts == [t] + rest;
      SplitAppend(rest, q);
      ToStringCons(t, rest);
      ToStringStart(rest);
      UnescapeEscape(t);
      var tail := ToString(rest) + q;
      assert ToString(ts) + q == "/" + Escape(t) + tail;
      SplitCons(Escape(t), tail);
      PrependPrepend([t], rest, Split(q));
    }
  }

  /** `split` undoes `to_string` on every list of tokens, empty tokens included. */
  lemma SplitToString(ts: Tokens)
    ensures Split(ToString(ts)) == Ok(ts)
  {
    SplitAppend(ts, "");
    assert ToString(ts) + "" == ToString(ts);
    assert ts + [] == ts;
  }

  lemma ToStringInjective(a: Tokens, b: Tokens)
    requires ToString(a) == ToString(b)
    ensures a == b
  {
    SplitToString(a);
    SplitToString(b);
  }

  /** `to_string` undoes `split` on every accepted string. */
  lemma {:induction false} ToStringSplit(s: string)
    requires Split(s).Ok?
    ensures ToString(Split(s).value) == s
    decreases |s|
  {
    if s != "" {
      var e := TokenEnd(s);
      SplitHead(s);
      ToStringSplit(s[e..]);
      ToStringCons(Unescape(s[1..e]), Split(s[e..]).value);
    }
  }

  /** The first token of an accepted string and the rest of it. */
  lemma SplitHead(s: string)
    requires s != "" && Split(s).Ok?
    ensures var e := TokenEnd(s);
            && Split(s[e..]).Ok? && Split(s).value == [Unescape(s[1..e])] + Split(s[e..]).value
            && "/" + Escape(Unescape(s[1..e])) + s[e..] == s
  {
    NoSlashInToken(s);
    EscapeUnescape(s[1..TokenEnd(s)]);
    Reassemble(s, TokenEnd(s));
  }

  lemma Reassemble(s: string, e: nat)
    requires 1 <= e <= |s| && s[0] == '/'
    ensures "/" + s[1..e] + s[e..] == s
  {}

  lemma NoSlashInToken(s: string)
    requires s != ""
    ensures '/' !in s[1..TokenEnd(s)]
    ensures TokenEnd(s) < |s| ==> s[TokenEnd(s)] == '/'
  {}

  // ------------------------------------------------- the accepted syntax

  /** reference-token = *( unescaped / escaped ), RFC 6901 section 3. */
  predicate IsReferenceToken(t: string) {
    || t == ""
    || (t[0] != '/' && t[0] != '~' && IsReferenceToken(t[1..]))
    || (|t| >= 2 && t[0] == '~' && (t[1] == '0' || t[1] == '1') && IsReferenceToken(t[2..]))
  }

  /** json-pointer = *( "/" reference-token ), RFC 6901 section 3. */
  ghost predicate IsJsonPointer(s: string)
    decreases |s|
  {
    s == "" || exists n :: 1 <= n <= |s| && s[0] == '/' && IsReferenceToken(s[1..n]) && IsJsonPointer(s[n..])
  }

  lemma {:induction false} ReferenceTokenSyntax(t: string)
    ensures IsReferenceToken(t) <==> ValidEscapes(t) && '/' !in t
  {
    if t != "" {
      assert t == [t[0]] + t[1..];
      if t[0] != '~' {
        ReferenceTokenSyntax(t[1..]);
        assert ValidEscapes(t) <==> ValidEscapes(t[1..]) by {
          assert forall i | 1 <= i < |t| :: t[i] == t[1..][i - 1];
          if ValidEscapes(t[1..]) {
            forall i | 0 <= i < |t| && t[i] == '~' ensures i + 1 < |t| && (t[i + 1] == '0' || t[i + 1] == '1') {
              assert t[1..][i - 1] == '~';
            }
          }
        }
      } else if |t| >= 2 {
        ReferenceTokenSyntax(t[2..]);
        assert t == [t[0], t[1]] + t[2..];
        if t[1] == '0' || t[1] == '1' {
          assert ValidEscapes(t) <==> ValidEscapes(t[2..]) by {
            assert forall i | 2 <= i < |t| :: t[i] == t[2..][i - 2];
            if ValidEscapes(t[2..]) {
              forall i | 0 <= i < |t| && t[i] == '~' ensures i + 1 < |t| && (t[i + 1] == '0' || t[i + 1] == '1') {
                if i > 0 { assert t[2..][i - 2] == '~'; }
              }
            }
          }
        }
      }
    }
  }

  lemma {:induction false} AcceptedIsGrammar(s: string)
    requires Split(s).Ok?
    ensures IsJsonPointer(s)
    decreases |s|
  {
    if s != "" {
      var e := TokenEnd(s);
      NoSlashInToken(s);
      ReferenceTokenSyntax(s[1..e]);
      AcceptedIsGrammar(s[e..]);
    }
  }

  lemma TokenIsAccepted(s: string, n: nat)
    requires 1 <= n <= |s| && s[0] == '/' && IsReferenceToken(s[1..n]) && (n < |s| ==> s[n] == '/') && Split(s[n..]).Ok?
    ensures Split(s).Ok?
  {
    ReferenceTokenSyntax(s[1..n]);
    assert s == "/" + s[1..n] + s[n..];
    SplitCons(s[1..n], s[n..]);
  }

  lemma {:induction false} GrammarIsAccepted(s: string)
    requires IsJsonPointer(s)
    ensures Split(s).Ok?
    decreases |s|
  {
    if s != "" {
      var n :| 1 <= n <= |s| && s[0] == '/' && IsReferenceToken(s[1..n]) && IsJsonPointer(s[n..]);
      GrammarIsAccepted(s[n..]);
      TokenIsAccepted(s, n);
    }
  }

  /** `split` accepts exactly the strings of the grammar of RFC 6901 section 3, and the error tells
      a missing leading slash from a bad escape. */
  lemma {:induction false} SplitAcceptsGrammar(s: string)
    ensures Split(s).Ok? <==> IsJsonPointer(s)
    ensures Split(s).Err? ==> Split(s).error == ParseError(if s[0] != '/' then 107 else 108)
    decreases |s|
  {
    if Split(s).Ok? {
      AcceptedIsGrammar(s);
    } else {
      if IsJsonPointer(s) { GrammarIsAccepted(s); }
      if s[0] == '/' {
        NoSlashInToken(s);
        SplitAcceptsGrammar(s[TokenEnd(s)..]);
      }
    }
  }

  // ------------------------------------------------- array indices

  const SIZE_MAX: nat := 0xFFFF_FFFF_FFFF_FFFF

  /** How far `std::strtoull(s, &end, 10)` reads. A sign or white space could only be skipped at the
      front, where `array_index` has excluded it unless it is the whole token. */
  function DigitPrefix(s: string): (n: nat)
    ensures n <= |s| && forall c <- s[..n] :: IsDigit(c)
    ensures n < |s| ==> !IsDigit(s[n])
  {
    if s == [] || !IsDigit(s[0]) then 0
    else
      var n := 1 + DigitPrefix(s[1..]);
      assert s[..n] == [s[0]] + s[1..][..n - 1];
      n
  }

  /** `array_index`. */
  function ArrayIndex(s: string): Result<nat> {
    if |s| > 1 && s[0] == '0' then Err(ParseError(106))
    else if |s| > 1 && !('1' <= s[0] <= '9') then Err(ParseError(109))
    else
      var end := DigitPrefix(s);
      var value := DecimalValue(s[..end]);
      if end == 0 || value > SIZE_MAX || end != |s| then Err(OutOfRange(404))
      else if value >= SIZE_MAX then Err(OutOfRange(410))
      else Ok(value)
  }

  /** `array_index` accepts exactly the canonical decimals below the maximum of `size_type`
      (RFC 6901 section 4) and yields the number they denote. */
  lemma ArrayIndexExact(s: string)
    ensures ArrayIndex(s).Ok? <==> IsCanonical(s) && DecimalValue(s) < SIZE_MAX
    ensures ArrayIndex(s).Ok? ==> s == Decimal(ArrayIndex(s).value)
  {
    var end := DigitPrefix(s);
    if end == |s| {
      assert s[..end] == s;
      if IsCanonical(s) { DecimalOfValue(s); }
    } else {
      assert s[end] in s;
    }
  }

  /** The exception for every other token. */
  lemma IndexErrors(s: string)
    requires ArrayIndex(s).Err?
    ensures ArrayIndex(s).error ==
            if |s| > 1 && s[0] == '0' then ParseError(106)
            else if |s| > 1 && !IsDigit(s[0]) then ParseError(109)
            else if IsCanonical(s) && DecimalValue(s) == SIZE_MAX then OutOfRange(410)
            else OutOfRange(404)
  {
    if |s| <= 1 || '1' <= s[0] <= '9' { NumeralErrors(s); }
  }

  /** A token without the two faults at its front. */
  lemma NumeralErrors(s: string)
    requires |s| <= 1 || '1' <= s[0] <= '9'
    ensures !IsCanonical(s) ==> ArrayIndex(s) == Err(OutOfRange(404))
    ensures IsCanonical(s) ==>
              ArrayIndex(s) == if DecimalValue(s) > SIZE_MAX then Err(OutOfRange(404))
                               else if DecimalValue(s) == SIZE_MAX then Err(OutOfRange(410))
                               else Ok(DecimalValue(s))
  {
    AllDigits(s);
  }

  lemma AllDigits(s: string)
    ensures DigitPrefix(s) == |s| <==> forall c <- s :: IsDigit(c)
    ensures DigitPrefix(s) == |s| ==> s[..DigitPrefix(s)] == s
  {
    if DigitPrefix(s) == |s| { assert s[..|s|] == s; } else { assert s[DigitPrefix(s)] in s; }
  }

  lemma ArrayIndexDecimal(n: nat)
    ensures n < SIZE_MAX ==> ArrayIndex(Decimal(n)) == Ok(n)
    ensures n >= SIZE_MAX ==> ArrayIndex(Decimal(n)).Err?
  {
    DecimalCanonical(n);
    ArrayIndexExact(Decimal(n));
    if n < SIZE_MAX {
      DecimalInjective(n, ArrayIndex(Decimal(n)).value);
    }
  }

  lemma {:induction false} DecimalPlain(n: nat)
    ensures Escape(Decimal(n)) == Decimal(n)
  {
    DecimalCanonical(n);
    EscapePlain(Decimal(n));
  }
}
