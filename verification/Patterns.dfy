/** Patterns in parameter expansion: `Match` is `fnmatch(pattern, text, 0)`; the four matchers of
    `${v#p}`, `${v##p}`, `${v%p}` and `${v%%p}`, the replacement loops of `${v/p/r}` and
    `${v//p/r}` with their fast path for literal patterns, and the quoting of literal text. */
module Patterns {

  // ----- fnmatch ------------------------------------------------------------------------------

  /** Behind the members of a bracket expression, at the `]` that closes it, or -1. */
  function BracketClose(p: string, i: nat, first: bool): (e: int)
    requires i <= |p|
    ensures e == -1 || i <= e < |p|
    decreases |p| - i
  {
    if i == |p| then -1
    else if p[i] == ']' && !first then i
    else if p[i] == '\\' && i + 1 < |p| then BracketClose(p, i + 2, false)
    else BracketClose(p, i + 1, false)
  }

  /** `c` is among the members from `i` to `e`: single bytes, escaped bytes and ranges. */
  predicate Among(p: string, i: nat, e: nat, c: char)
    requires i <= e <= |p|
    decreases e - i
  {
    if i == e then false else
    var lo := if p[i] == '\\' && i + 1 < e then i + 1 else i;
    if lo + 2 < e && p[lo + 1] == '-' then
      var hi := if p[lo + 2] == '\\' && lo + 3 < e then lo + 3 else lo + 2;
      p[lo] <= c <= p[hi] || Among(p, hi + 1, e, c)
    else p[lo] == c || Among(p, lo + 1, e, c)
  }

  predicate Negated(p: string) { |p| > 1 && (p[1] == '!' || p[1] == '^') }

  /** Section 2.13 of XCU, without character classes, equivalence classes and collating symbols; a
      bracket that is never closed is itself. */
  predicate Match(p: string, t: string)
    decreases |p| + |t|
  {
    if p == [] then t == []
    else if p[0] == '*' then Match(p[1..], t) || (t != [] && Match(p, t[1..]))
    else if t == [] then false
    else if p[0] == '?' then Match(p[1..], t[1..])
    else if p[0] == '\\' then |p| > 1 && p[1] == t[0] && Match(p[2..], t[1..])
    else if p[0] == '[' then
      var m := if Negated(p) then 2 else 1;
      var e := if m <= |p| then BracketClose(p, m, true) else -1;
      if e == -1 then t[0] == '[' && Match(p[1..], t[1..])
      else Among(p, m, e, t[0]) != Negated(p) && Match(p[e + 1..], t[1..])
    else p[0] == t[0] && Match(p[1..], t[1..])
  }

  // ----- Literal patterns ---------------------------------------------------------------------

  predicate Meta(c: char) { c == '*' || c == '?' || c == '[' || c == '\\' }

  predicate Literal(p: string) { forall i :: 0 <= i < |p| ==> !Meta(p[i]) }

  /** `pattern_literal_len`. */
  method PatternLiteralLen(p: string) returns (n: int)
    ensures n == if Literal(p) then |p| else -1
  {
    n := 0;
    while n < |p|
      invariant 0 <= n <= |p| && Literal(p[..n])
    {
      if Meta(p[n]) { return -1; }
      n := n + 1;
    }
    assert p[..n] == p;
  }

  /** A literal pattern matches itself and nothing else. */
  lemma {:induction false} LiteralMatches(p: string, t: string)
    requires Literal(p)
    ensures Match(p, t) <==> p == t
  {
    if p != [] && t != [] {
      LiteralMatches(p[1..], t[1..]);
      assert p == [p[0]] + p[1..] && t == [t[0]] + t[1..];
    }
  }

  // ----- Quoted text as a pattern -------------------------------------------------------------

  predicate Escaped(c: char) {
    c == '\\' || c == '*' || c == '?' || c == '[' || c == ']' || c == '-' || c == '!' || c == '^' || c == ':'
  }

  /** `pat_emit_literal` over a string. */
  function Emit(s: string): string {
    if s == [] then [] else (if Escaped(s[0]) then ['\\', s[0]] else [s[0]]) + Emit(s[1..])
  }

  method EmitLiteral(s: string) returns (out: string)
    ensures out == Emit(s)
  {
    out := "";
    for i := 0 to |s|
      invariant out + Emit(s[i..]) == Emit(s)
    {
      assert s[i..][1..] == s[i + 1..];
      if Escaped(s[i]) { out := out + ['\\']; }
      out := out + [s[i]];
    }
  }

  /** The pattern made of quoted text matches that text and nothing else. */
  lemma {:induction false} EmitIsExact(s: string, t: string)
    ensures Match(Emit(s), t) <==> s == t
  {
    if s != [] {
      var p := Emit(s);
      if Escaped(s[0]) { assert p[2..] == Emit(s[1..]); } else { assert p[1..] == Emit(s[1..]); }
      if t != [] {
        EmitIsExact(s[1..], t[1..]);
        assert s == [s[0]] + s[1..] && t == [t[0]] + t[1..];
      }
    }
  }

  /** The two character sets are in step: quoted text takes the literal fast path only if quoting
      changed nothing in it. */
  lemma {:induction false} FastPathOnlyUnescaped(s: string)
    ensures Literal(Emit(s)) <==> Emit(s) == s
  {
    if s != [] {
      FastPathOnlyUnescaped(s[1..]);
      EmitLength(s[1..]);
      var p, q := Emit(s), Emit(s[1..]);
      if Escaped(s[0]) {
        assert Meta(p[0]) && |p| > |s|;
      } else {
        assert p[1..] == q && s[1..] == s[1..] && p == [s[0]] + q;
        assert Literal(p) <==> Literal(q) by {
          assert forall i :: 0 <= i < |q| ==> q[i] == p[i + 1];
          assert forall i :: 1 <= i < |p| ==> p[i] == q[i - 1];
        }
        assert p == s <==> q == s[1..] by { assert s == [s[0]] + s[1..]; }
      }
    }
  }

  lemma {:induction false} EmitLength(s: string)
    ensures |Emit(s)| >= |s|
  { if s != [] { EmitLength(s[1..]); } }

  // ----- The matchers -------------------------------------------------------------------------

  /** `n` is the longest prefix of `s` that matches, or -1 when none does. */
  predicate LongestPrefix(s: string, pat: string, n: int) {
    && -1 <= n <= |s|
    && (n >= 0 ==> Match(pat, s[..n]))
    && forall k :: n < k <= |s| && 0 <= k ==> !Match(pat, s[..k])
  }

  predicate ShortestPrefix(s: string, pat: string, n: int) {
    && -1 <= n <= |s|
    && (n >= 0 ==> Match(pat, s[..n]))
    && forall k :: 0 <= k <= |s| && (n == -1 || k < n) ==> !Match(pat, s[..k])
  }

  /** `n` is where the longest suffix of `s` that matches starts, or -1. */
  predicate LongestSuffix(s: string, pat: string, n: int) {
    && -1 <= n <= |s|
    && (n >= 0 ==> Match(pat, s[n..]))
    && forall k :: 0 <= k <= |s| && (n == -1 || k < n) ==> !Match(pat, s[k..])
  }

  predicate ShortestSuffix(s: string, pat: string, n: int) {
    && -1 <= n <= |s|
    && (n >= 0 ==> Match(pat, s[n..]))
    && forall k :: n < k <= |s| && 0 <= k ==> !Match(pat, s[k..])
  }

  /** A literal pattern matches at most one prefix and at most one suffix. */
  lemma LiteralPrefix(s: string, pat: string)
    requires Literal(pat)
    ensures forall k :: 0 <= k <= |s| ==> (Match(pat, s[..k]) <==> k == |pat| && pat <= s)
  {
    forall k | 0 <= k <= |s| ensures Match(pat, s[..k]) <==> k == |pat| && pat <= s { LiteralMatches(pat, s[..k]); }
  }

  lemma LiteralSuffix(s: string, pat: string)
    requires Literal(pat)
    ensures forall k :: 0 <= k <= |s| ==> (Match(pat, s[k..]) <==> k == |s| - |pat| && s[k..] == pat)
  {
    forall k | 0 <= k <= |s| ensures Match(pat, s[k..]) <==> k == |s| - |pat| && s[k..] == pat {
      LiteralMatches(pat, s[k..]);
    }
  }

  method MatchPrefix(s: string, pat: string) returns (n: int)
    ensures LongestPrefix(s, pat, n)
  {
    var lit := PatternLiteralLen(pat);
    if lit >= 0 {
      LiteralPrefix(s, pat);
      return if |s| >= lit && s[..lit] == pat then lit else -1;
    }
    n := |s|;
    while n >= 0 && !Match(pat, s[..n])
      invariant -1 <= n <= |s| && forall k :: n < k <= |s| && 0 <= k ==> !Match(pat, s[..k])
    {
      n := n - 1;
    }
  }

  method MatchPrefixShortest(s: string, pat: string) returns (n: int)
    ensures ShortestPrefix(s, pat, n)
  {
    var lit := PatternLiteralLen(pat);
    if lit >= 0 {
      LiteralPrefix(s, pat);
      n := MatchPrefix(s, pat);
      return;
    }
    n := 0;
    while n <= |s| && !Match(pat, s[..n])
      invariant 0 <= n <= |s| + 1 && forall k :: 0 <= k < n ==> !Match(pat, s[..k])
    {
      n := n + 1;
    }
    if n > |s| { n := -1; }
  }

  method MatchSuffix(s: string, pat: string) returns (n: int)
    ensures LongestSuffix(s, pat, n)
  {
    var lit := PatternLiteralLen(pat);
    if lit >= 0 {
      LiteralSuffix(s, pat);
      return if |s| >= lit && s[|s| - lit..] == pat then |s| - lit else -1;
    }
    n := 0;
    while n <= |s| && !Match(pat, s[n..])
      invariant 0 <= n <= |s| + 1 && forall k :: 0 <= k < n ==> !Match(pat, s[k..])
    {
      n := n + 1;
    }
    if n > |s| { n := -1; }
  }

  method MatchSuffixShortest(s: string, pat: string) returns (n: int)
    ensures ShortestSuffix(s, pat, n)
  {
    var lit := PatternLiteralLen(pat);
    if lit >= 0 {
      LiteralSuffix(s, pat);
      n := MatchSuffix(s, pat);
      return;
    }
    n := |s|;
    while n >= 0 && !Match(pat, s[n..])
      invariant -1 <= n <= |s| && forall k :: n < k <= |s| && 0 <= k ==> !Match(pat, s[k..])
    {
      n := n - 1;
    }
  }

  /** `${v#pat}` and `${v##pat}`; `n` is the length taken off, or -1. */
  method TrimPrefix(v: string, pat: string, greedy: bool) returns (r: string, n: int)
    ensures if greedy then LongestPrefix(v, pat, n) else ShortestPrefix(v, pat, n)
    ensures r == if n < 0 then v else v[n..]
  {
    if greedy { n := MatchPrefix(v, pat); } else { n := MatchPrefixShortest(v, pat); }
    r := if n < 0 then v else v[n..];
  }

  /** `${v%pat}` and `${v%%pat}`; `n` is what is left, or -1. */
  method TrimSuffix(v: string, pat: string, greedy: bool) returns (r: string, n: int)
    ensures if greedy then LongestSuffix(v, pat, n) else ShortestSuffix(v, pat, n)
    ensures r == if n < 0 then v else v[..n]
  {
    if greedy { n := MatchSuffix(v, pat); } else { n := MatchSuffixShortest(v, pat); }
    r := if n < 0 then v else v[..n];
  }

  /** Trimming quoted text, greedy or not, takes off exactly that text when it is there and leaves
      the value alone when it is not. */
  method TrimQuotedPrefix(v: string, s: string, greedy: bool) returns (r: string)
    ensures r == if s <= v then v[|s|..] else v
  {
    var pat := EmitLiteral(s);
    var n;
    r, n := TrimPrefix(v, pat, greedy);
    forall k | 0 <= k <= |v| ensures Match(pat, v[..k]) <==> k == |s| && s <= v { EmitIsExact(s, v[..k]); }
    hide Match;
    if s <= v { assert Match(pat, v[..|s|]); }
  }

  method TrimQuotedSuffix(v: string, s: string, greedy: bool) returns (r: string)
    ensures r == if |s| <= |v| && v[|v| - |s|..] == s then v[..|v| - |s|] else v
  {
    var pat := EmitLiteral(s);
    var n;
    r, n := TrimSuffix(v, pat, greedy);
    forall k | 0 <= k <= |v| ensures Match(pat, v[k..]) <==> k == |v| - |s| && v[k..] == s { EmitIsExact(s, v[k..]); }
    hide Match;
    if |s| <= |v| && v[|v| - |s|..] == s { assert Match(pat, v[|v| - |s|..]); }
  }

  // ----- Replacement --------------------------------------------------------------------------

  predicate MatchAt(pat: string, s: string, i: nat, n: nat)
    requires i + n <= |s|
  { Match(pat, s[i..i + n]) }

  /** The length of the longest match of `pat` at `i`, or -1; an empty match counts only in an empty
      subject. */
  function LongestAt(s: string, i: nat, pat: string): (n: int)
    requires i <= |s|
    ensures -1 <= n <= |s| - i && (n == 0 ==> s == [])
  { LongestWithin(s, i, pat, |s| - i) }

  function LongestWithin(s: string, i: nat, pat: string, n: nat): (r: int)
    requires i + n <= |s|
    ensures -1 <= r <= n && (r == 0 ==> s == [])
    ensures r >= 0 ==> MatchAt(pat, s, i, r)
    ensures forall k :: r < k <= n && (0 < k || (k == 0 && s == [])) ==> !MatchAt(pat, s, i, k)
  {
    if n == 0 && s != [] then -1
    else if MatchAt(pat, s, i, n) then n
    else if n == 0 then -1
    else LongestWithin(s, i, pat, n - 1)
  }

  /** The result from position `i` on: the leftmost longest match is replaced, and with `global`
      every one behind it. */
  function Replace(s: string, i: nat, pat: string, repl: string, global: bool): string
    requires i <= |s|
    decreases |s| - i
  {
    var n := LongestAt(s, i, pat);
    if n < 0 then (if i == |s| then [] else [s[i]] + Replace(s, i + 1, pat, repl, global))
    else repl + if !global then s[i + n..] else if n == 0 then [] else Replace(s, i + n, pat, repl, global)
  }

  lemma LiteralAt(s: string, i: nat, pat: string)
    requires i <= |s| && Literal(pat) && pat != []
    ensures LongestAt(s, i, pat) == if i + |pat| <= |s| && s[i..i + |pat|] == pat then |pat| else -1
  {
    forall k | 0 <= k <= |s| - i ensures MatchAt(pat, s, i, k) <==> k == |pat| && s[i..i + k] == pat {
      LiteralMatches(pat, s[i..i + k]);
    }
    hide MatchAt;
    if i + |pat| <= |s| { assert MatchAt(pat, s, i, |pat|) <==> s[i..i + |pat|] == pat; }
  }

  lemma MissStep(s: string, i: nat, pat: string, repl: string, global: bool, out: string)
    requires i <= |s| && LongestAt(s, i, pat) < 0
    ensures out + Replace(s, i, pat, repl, global) ==
      if i < |s| then out + [s[i]] + Replace(s, i + 1, pat, repl, global) else out
  { hide LongestAt; }

  lemma HitStep(s: string, i: nat, pat: string, repl: string, global: bool, out: string)
    requires i <= |s| && LongestAt(s, i, pat) >= 0
    ensures var n := LongestAt(s, i, pat);
      out + Replace(s, i, pat, repl, global) ==
        if s == [] then out + repl else if !global then out + repl + s[i + n..]
        else out + repl + Replace(s, i + n, pat, repl, global)
  {
    hide LongestAt;
    if s == [] { assert s[i + LongestAt(s, i, pat)..] == []; }
  }

  /** The `memcmp` at position `i`. */
  predicate Stands(s: string, i: nat, pat: string)
    requires i <= |s|
  { |s| - i >= |pat| && s[i..i + |pat|] == pat }

  lemma LiteralStep(s: string, i: nat, pat: string, repl: string, global: bool, out: string)
    requires i <= |s| && Literal(pat) && pat != []
    ensures Stands(s, i, pat) ==> i + |pat| <= |s|
    ensures out + Replace(s, i, pat, repl, global) ==
      if Stands(s, i, pat) then
        (if global then out + repl + Replace(s, i + |pat|, pat, repl, global) else out + repl + s[i + |pat|..])
      else if i < |s| then out + [s[i]] + Replace(s, i + 1, pat, repl, global) else out
  {
    hide LongestAt, Replace, Literal;
    LiteralAt(s, i, pat);
    if LongestAt(s, i, pat) >= 0 {
      HitStep(s, i, pat, repl, global, out);
    } else {
      MissStep(s, i, pat, repl, global, out);
    }
  }

  /** One round of the `memcmp` loop: `next` is where the next begins, beyond the end if there is none. */
  method LiteralRound(s: string, i: nat, pat: string, repl: string, global: bool, out0: string)
    returns (out: string, next: nat)
    requires i <= |s| && Literal(pat) && |pat| > 0
    ensures i < next <= |s| + 1
    ensures out0 + Replace(s, i, pat, repl, global) ==
      if next <= |s| then out + Replace(s, next, pat, repl, global) else out
  {
    hide *;
    LiteralStep(s, i, pat, repl, global, out0);
    if Stands(s, i, pat) {
      out := out0 + repl;
      next := i + |pat|;
      if !global {
        out := out + s[next..];
        next := |s| + 1;
      }
    } else {
      out := if i < |s| then out0 + [s[i]] else out0;
      next := i + 1;
    }
  }

  /** The `memcmp` loop. */
  method ReplaceLiteral(s: string, pat: string, repl: string, global: bool) returns (out: string)
    requires Literal(pat) && pat != []
    ensures out == Replace(s, 0, pat, repl, global)
  {
    hide *;
    out := "";
    var i: nat := 0;
    while i <= |s|
      invariant i <= |s| + 1
      invariant Replace(s, 0, pat, repl, global) == if i <= |s| then out + Replace(s, i, pat, repl, global) else out
    {
      out, i := LiteralRound(s, i, pat, repl, global, out);
    }
  }

  /** The inner loop of the general case: every length from the longest down. */
  method LongestMatch(s: string, i: nat, pat: string) returns (n: int)
    requires i <= |s|
    ensures n == LongestAt(s, i, pat)
  {
    n := |s| - i;
    while true
      invariant 0 <= n <= |s| - i && LongestWithin(s, i, pat, n) == LongestAt(s, i, pat)
      decreases n
    {
      if n == 0 && s != [] { return -1; }
      if MatchAt(pat, s, i, n) { return; }
      if n == 0 { return -1; }
      n := n - 1;
    }
  }

  /** The general loop. */
  method ReplaceGeneral(s: string, pat: string, repl: string, global: bool) returns (out: string)
    ensures out == Replace(s, 0, pat, repl, global)
  {
    hide LongestAt, Replace;
    out := "";
    var i: nat := 0;
    while i <= |s|
      invariant i <= |s| + 1
      invariant Replace(s, 0, pat, repl, global) == if i <= |s| then out + Replace(s, i, pat, repl, global) else out
    {
      var n := LongestMatch(s, i, pat);
      if n >= 0 {
        HitStep(s, i, pat, repl, global, out);
        out := out + repl;
        if s == [] { return; }
        i := i + n;
        if !global { return out + s[i..]; }
      } else {
        MissStep(s, i, pat, repl, global, out);
        if i < |s| { out := out + [s[i]]; }
        i := i + 1;
      }
    }
  }

  /** `${v/pat/repl}` and `${v//pat/repl}`: the fast path gives what the general loop gives. */
  method Substitute(s: string, pat: string, repl: string, global: bool) returns (out: string)
    ensures out == if pat == [] then s else Replace(s, 0, pat, repl, global)
  {
    if pat == [] { return s; }
    var lit := PatternLiteralLen(pat);
    if lit > 0 { out := ReplaceLiteral(s, pat, repl, global); } else { out := ReplaceGeneral(s, pat, repl, global); }
  }

  /** Replacing a literal by itself changes nothing, and nor does a pattern that matches nowhere. */
  lemma {:induction false} ReplaceByItself(s: string, i: nat, pat: string, global: bool)
    requires i <= |s| && Literal(pat) && pat != []
    ensures Replace(s, i, pat, pat, global) == s[i..]
    decreases |s| - i
  {
    hide LongestAt, Literal, Replace;
    LiteralAt(s, i, pat);
    var n := LongestAt(s, i, pat);
    if n >= 0 {
      HitStep(s, i, pat, pat, global, "");
      Tail(s, i, n);
      if global { ReplaceByItself(s, i + n, pat, global); }
      assert "" + Replace(s, i, pat, pat, global) == Replace(s, i, pat, pat, global) && "" + pat == pat;
    } else {
      MissStep(s, i, pat, pat, global, "");
      assert "" + Replace(s, i, pat, pat, global) == Replace(s, i, pat, pat, global);
      if i < |s| {
        ReplaceByItself(s, i + 1, pat, global);
        Tail(s, i, 1);
      }
    }
  }

  lemma Tail(s: string, i: nat, n: nat)
    requires i + n <= |s|
    ensures s[i..] == s[i..i + n] + s[i + n..] && (n == 1 ==> s[i..i + n] == [s[i]])
  {}

  lemma {:induction false} ReplaceNothing(s: string, i: nat, pat: string, repl: string, global: bool)
    requires i <= |s| && forall j :: i <= j <= |s| ==> LongestAt(s, j, pat) < 0
    ensures Replace(s, i, pat, repl, global) == s[i..]
    decreases |s| - i
  {
    if i < |s| {
      ReplaceNothing(s, i + 1, pat, repl, global);
      assert s[i..] == [s[i]] + s[i + 1..];
    }
  }

  /** After a global replacement of a single byte by text without it, the byte is gone. */
  lemma {:induction false} NoneLeft(s: string, i: nat, pat: string, repl: string)
    requires i <= |s| && Literal(pat) && |pat| == 1 && pat[0] !in repl
    ensures pat[0] !in Replace(s, i, pat, repl, true)
    decreases |s| - i
  {
    LiteralAt(s, i, pat);
    if LongestAt(s, i, pat) > 0 {
      NoneLeft(s, i + 1, pat, repl);
    } else if i < |s| {
      assert s[i..i + 1] == [s[i]] && pat == [pat[0]];
      NoneLeft(s, i + 1, pat, repl);
    }
  }
}
