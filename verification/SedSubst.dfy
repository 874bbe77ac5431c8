/** The `s` command of sed.

    The regular expression is an oracle that finds a match at or behind a position.  `Accepted` is the
    list of matches that count, `Splice` the text with some matches replaced; the substitution loop is
    proved to splice the matches that its flags select. */
module SedSubsts {
  import opened CStrings
  import opened Options

  /** Offsets into the subject; `groups` are those of `\1` to `\9`. */
  datatype Match = Match(so: nat, eo: nat, groups: seq<Option<(nat, nat)>>)

  /** `sed_regexec_range` from a position on; behind position 0 the start of the subject is not a
      start of line. */
  type Finder = (string, nat) -> Option<Match>

  predicate Within(m: Match, s: string, pos: nat) {
    && pos <= m.so <= m.eo <= |s|
    && forall g :: 0 <= g < |m.groups| && m.groups[g].Some? ==> m.groups[g].value.0 <= m.groups[g].value.1 <= |s|
  }

  /** All that is asked of the oracle. */
  ghost predicate Sound(find: Finder) {
    forall s, pos: nat :: pos <= |s| && find(s, pos).Some? ==> Within(find(s, pos).value, s, pos)
  }

  // ----- The replacement ----------------------------------------------------------------------

  datatype CaseOp = UpperAll | LowerAll | UpperOne | LowerOne | EndCase

  datatype Token = RLit(text: string) | RMatch | RGroup(n: nat) | RCase(op: CaseOp)

  datatype Mode = Keep | ToUpper | ToLower

  function Cased(c: char, m: Mode): char {
    if m == ToUpper && 'a' <= c <= 'z' then c - 'a' + 'A'
    else if m == ToLower && 'A' <= c <= 'Z' then c - 'A' + 'a'
    else c
  }

  /** `append_cased`: the one-shot conversion goes before the lasting one, and is used up. */
  function CaseText(t: string, mode: Mode, one: Mode): string {
    if t == [] then [] else [Cased(t[0], if one != Keep then one else mode)] + CaseText(t[1..], mode, Keep)
  }

  function TokenText(k: Token, s: string, m: Match): string
    requires Within(m, s, 0)
  {
    match k
    case RLit(t) => t
    case RMatch => s[m.so..m.eo]
    case RGroup(n) =>
      if n == 0 || n > |m.groups| || m.groups[n - 1].None? then []
      else s[m.groups[n - 1].value.0..m.groups[n - 1].value.1]
    case RCase(_) => []
  }

  function NextModes(k: Token, t: string, mode: Mode, one: Mode): (Mode, Mode) {
    match k
    case RCase(op) =>
      (match op
       case EndCase => (Keep, Keep)
       case UpperAll => (ToUpper, one)
       case LowerAll => (ToLower, one)
       case UpperOne => (mode, ToUpper)
       case LowerOne => (mode, ToLower))
    case _ => (mode, if t == [] then one else Keep)
  }

  function Render(ks: seq<Token>, s: string, m: Match, mode: Mode, one: Mode): string
    requires Within(m, s, 0)
  {
    if ks == [] then [] else
    var t := TokenText(ks[0], s, m);
    var (mode1, one1) := NextModes(ks[0], t, mode, one);
    CaseText(t, mode, one) + Render(ks[1..], s, m, mode1, one1)
  }

  method AppendCased(out0: string, t: string, mode: Mode, one0: Mode) returns (out: string, one: Mode)
    ensures out == out0 + CaseText(t, mode, one0) && one == if t == [] then one0 else Keep
  {
    out, one := out0, one0;
    for i := 0 to |t|
      invariant one == if i == 0 then one0 else Keep
      invariant out + CaseText(t[i..], mode, one) == out0 + CaseText(t, mode, one0)
    {
      assert t[i..][1..] == t[i + 1..];
      out := out + [Cased(t[i], if one != Keep then one else mode)];
      one := Keep;
    }
  }

  method AppendReplacement(out0: string, ks: seq<Token>, s: string, m: Match) returns (out: string)
    requires Within(m, s, 0)
    ensures out == out0 + Render(ks, s, m, Keep, Keep)
  {
    hide CaseText, Render, TokenText;
    out := out0;
    var mode, one := Keep, Keep;
    assert ks[0..] == ks;
    for i := 0 to |ks|
      invariant out + Render(ks[i..], s, m, mode, one) == out0 + Render(ks, s, m, Keep, Keep)
    {
      RenderStep(ks[i..], s, m, mode, one, out);
      assert ks[i..][1..] == ks[i + 1..];
      var t := TokenText(ks[i], s, m);
      var one1;
      out, one1 := AppendCased(out, t, mode, one);
      mode, one := NextModes(ks[i], t, mode, one).0, NextModes(ks[i], t, mode, one).1;
    }
    RenderEnd(ks[|ks|..], s, m, mode, one);
  }

  lemma RenderStep(ks: seq<Token>, s: string, m: Match, mode: Mode, one: Mode, out: string)
    requires Within(m, s, 0) && ks != []
    ensures var t := TokenText(ks[0], s, m);
      var modes := NextModes(ks[0], t, mode, one);
      out + Render(ks, s, m, mode, one) == (out + CaseText(t, mode, one)) + Render(ks[1..], s, m, modes.0, modes.1)
  { hide CaseText, TokenText, NextModes; }

  lemma RenderEnd(ks: seq<Token>, s: string, m: Match, mode: Mode, one: Mode)
    requires Within(m, s, 0) && ks == []
    ensures Render(ks, s, m, mode, one) == []
  {}

  lemma {:induction false} KeptCase(t: string)
    ensures CaseText(t, Keep, Keep) == t
  { if t != [] { KeptCase(t[1..]); } }

  /** `&` alone stands for the match. */
  lemma MatchRendersItself(s: string, m: Match)
    requires Within(m, s, 0)
    ensures Render([RMatch], s, m, Keep, Keep) == s[m.so..m.eo]
  {
    KeptCase(s[m.so..m.eo]);
    assert [RMatch][1..] == [];
  }

  /** Letters are converted to the letter at the same place of the other alphabet, and nothing else is. */
  lemma CasedLetters(c: char, i: nat)
    requires i < 26
    ensures Cased(LOWERS[i], ToUpper) == UPPERS[i] && Cased(UPPERS[i], ToLower) == LOWERS[i]
    ensures c !in LOWERS ==> Cased(c, ToUpper) == c
    ensures c !in UPPERS ==> Cased(c, ToLower) == c
    ensures Cased(c, Keep) == c
  {
    LettersAre(i);
    if 'a' <= c <= 'z' { LettersAre(c as int - 'a' as int); }
    if 'A' <= c <= 'Z' { LettersAre(c as int - 'A' as int); }
    hide LOWERS, UPPERS;
  }

  /** A lasting conversion reaches every byte, a one-shot conversion only the first. */
  lemma {:induction false} CaseTextAt(t: string, mode: Mode, one: Mode, j: nat)
    requires j < |t|
    ensures |CaseText(t, mode, one)| == |t|
    ensures CaseText(t, mode, one)[j] == Cased(t[j], if j == 0 && one != Keep then one else mode)
  {
    CaseLength(t, mode, one);
    if j > 0 { CaseTextAt(t[1..], mode, Keep, j - 1); }
  }

  lemma {:induction false} CaseLength(t: string, mode: Mode, one: Mode)
    ensures |CaseText(t, mode, one)| == |t|
  { if t != [] { CaseLength(t[1..], mode, Keep); } }

  /** Without case conversion the parts of a replacement stand one after another: text as it is, and `\1` to `\9`
      for what their groups matched, if they did. */
  lemma {:induction false} RenderParts(ks: seq<Token>, more: seq<Token>, s: string, m: Match)
    requires Within(m, s, 0) && forall i :: 0 <= i < |ks| ==> !ks[i].RCase?
    ensures Render(ks + more, s, m, Keep, Keep) == Render(ks, s, m, Keep, Keep) + Render(more, s, m, Keep, Keep)
  {
    if ks == [] {
      assert ks + more == more;
    } else {
      assert (ks + more)[1..] == ks[1..] + more && (ks + more)[0] == ks[0];
      hide TokenText, CaseText;
      RenderParts(ks[1..], more, s, m);
    }
  }

  lemma PartRenders(s: string, m: Match, t: string, n: nat)
    requires Within(m, s, 0)
    ensures Render([RLit(t)], s, m, Keep, Keep) == t
    ensures Render([RGroup(n)], s, m, Keep, Keep) ==
      if 1 <= n <= |m.groups| && m.groups[n - 1].Some?
      then s[m.groups[n - 1].value.0..m.groups[n - 1].value.1] else ""
  {
    KeptCase(t);
    KeptCase(TokenText(RGroup(n), s, m));
    assert [RLit(t)][1..] == [] && [RGroup(n)][1..] == [];
  }

  lemma CaseEnds(s: string, m: Match, t: string, mode: Mode)
    requires Within(m, s, 0)
    ensures Render([RCase(EndCase), RLit(t)], s, m, mode, Keep) == t
  {
    var ks := [RCase(EndCase), RLit(t)];
    KeptCase(t);
    NoText(mode, Keep);
    hide CaseText, Render;
    assert ks[1..] == [RLit(t)] && [RLit(t)][1..] == [];
    RenderFirst(ks, s, m, mode, Keep);
    RenderFirst([RLit(t)], s, m, Keep, Keep);
    RenderEnd([], s, m, Keep, Keep);
  }

  /** `\U&\Et` and `\L&\Et`: the match in the other case and the text as it is. */
  lemma CaseOfMatch(s: string, m: Match, t: string, up: bool)
    requires Within(m, s, 0)
    ensures Render([RCase(if up then UpperAll else LowerAll), RMatch, RCase(EndCase), RLit(t)], s, m, Keep, Keep)
         == CaseText(s[m.so..m.eo], if up then ToUpper else ToLower, Keep) + t
  {
    var ks := [RCase(if up then UpperAll else LowerAll), RMatch, RCase(EndCase), RLit(t)];
    var mode := if up then ToUpper else ToLower;
    NoText(Keep, Keep);
    hide CaseText, Render;
    assert ks[1..] == [RMatch, RCase(EndCase), RLit(t)] && ks[1..][1..] == [RCase(EndCase), RLit(t)];
    RenderFirst(ks, s, m, Keep, Keep);
    RenderFirst(ks[1..], s, m, mode, Keep);
    CaseEnds(s, m, t, mode);
  }

  lemma RenderFirst(ks: seq<Token>, s: string, m: Match, mode: Mode, one: Mode)
    requires Within(m, s, 0) && ks != []
    ensures var t := TokenText(ks[0], s, m);
      var modes := NextModes(ks[0], t, mode, one);
      Render(ks, s, m, mode, one) == CaseText(t, mode, one) + Render(ks[1..], s, m, modes.0, modes.1)
  { hide CaseText, TokenText; }

  lemma NoText(mode: Mode, one: Mode)
    ensures CaseText([], mode, one) == []
  {}

  /** `\u\L&` and `\l\U&`: the first byte of the match in one case and the others in the other. */
  lemma CapitalOfMatch(s: string, m: Match, up: bool)
    requires Within(m, s, 0)
    ensures Render([RCase(if up then UpperOne else LowerOne), RCase(if up then LowerAll else UpperAll), RMatch],
                   s, m, Keep, Keep)
         == CaseText(s[m.so..m.eo], if up then ToLower else ToUpper, if up then ToUpper else ToLower)
  {
    var ks := [RCase(if up then UpperOne else LowerOne), RCase(if up then LowerAll else UpperAll), RMatch];
    var mode, one := if up then ToLower else ToUpper, if up then ToUpper else ToLower;
    hide CaseText, Render;
    var k1, k2 := ks[1..], ks[2..];
    assert k1[1..] == k2 && k2[1..] == [];
    NoText(Keep, Keep);
    NoText(Keep, one);
    RenderFirst(k2, s, m, mode, one);
    RenderEnd([], s, m, mode, if s[m.so..m.eo] == [] then one else Keep);
    RenderFirst(k1, s, m, Keep, one);
    RenderFirst(ks, s, m, Keep, Keep);
  }

  // ----- Which matches count ------------------------------------------------------------------

  /** The matches from `pos` on, left to right: each is searched from the end of the one before, one
      byte further if that was empty, and an empty match directly behind a match does not count.
      `prevEnd` is where the last one ended, or -1. */
  function Accepted(find: Finder, s: string, pos: nat, prevEnd: int): seq<Match>
    requires Sound(find) && pos <= |s| + 1
    decreases |s| + 1 - pos
  {
    if pos > |s| || find(s, pos).None? then [] else
    var m := find(s, pos).value;
    if m.so == m.eo == prevEnd then (if m.so == |s| then [] else Accepted(find, s, m.so + 1, prevEnd))
    else [m] + (if m.so < m.eo then Accepted(find, s, m.eo, m.eo)
                else if m.eo == |s| then [] else Accepted(find, s, m.eo + 1, m.eo))
  }

  function Following(find: Finder, s: string, m: Match): seq<Match>
    requires Sound(find) && m.so <= m.eo <= |s|
  {
    if m.so < m.eo then Accepted(find, s, m.eo, m.eo)
    else if m.eo == |s| then [] else Accepted(find, s, m.eo + 1, m.eo)
  }

  lemma AcceptedStep(find: Finder, s: string, pos: nat, prevEnd: int)
    requires Sound(find) && pos <= |s|
    ensures find(s, pos).None? ==> Accepted(find, s, pos, prevEnd) == []
    ensures find(s, pos).Some? ==>
      var m := find(s, pos).value;
      Within(m, s, pos) && Accepted(find, s, pos, prevEnd) ==
        if m.so == m.eo == prevEnd then (if m.so == |s| then [] else Accepted(find, s, m.so + 1, prevEnd))
        else [m] + Following(find, s, m)
  {}

  lemma AcceptedBeyond(find: Finder, s: string, pos: nat, prevEnd: int)
    requires Sound(find) && pos == |s| + 1
    ensures Accepted(find, s, pos, prevEnd) == []
  {}

  lemma WithinBounds(m: Match, s: string, pos: nat)
    requires Within(m, s, pos)
    ensures pos <= m.so <= m.eo <= |s| && Within(m, s, 0)
  {}

  lemma WithinSameLength(m: Match, s: string, t: string)
    requires Within(m, s, 0) && |s| == |t|
    ensures Within(m, t, 0)
  {}

  /** `m` lies behind a match that ended at `e`, and is not an empty match directly behind it. */
  predicate Behind(m: Match, e: int) {
    e <= m.so && !(m.so == m.eo == e)
  }

  lemma BehindIs(m: Match, e: int)
    ensures Behind(m, e) <==> e <= m.so && !(m.so == m.eo == e)
  {}

  /** Left to right, without overlap, and no empty match directly behind a match. */
  predicate InOrder(ms: seq<Match>, s: string, prevEnd: int) {
    && (forall i :: 0 <= i < |ms| ==> Within(ms[i], s, 0))
    && (forall i :: 0 <= i < |ms| ==> Behind(ms[i], prevEnd))
    && (forall i, j :: 0 <= i < j < |ms| ==> Behind(ms[j], ms[i].eo))
  }

  lemma InOrderPrepends(m: Match, ms: seq<Match>, s: string, prevEnd: int)
    requires Within(m, s, 0) && Behind(m, prevEnd) && InOrder(ms, s, m.eo)
    ensures InOrder([m] + ms, s, prevEnd)
  {
    hide Within;
    WithinBounds(m, s, 0);
  }

  lemma {:induction false} AcceptedInOrder(find: Finder, s: string, pos: nat, prevEnd: int)
    requires Sound(find) && pos <= |s| + 1 && prevEnd <= pos
    ensures InOrder(Accepted(find, s, pos, prevEnd), s, prevEnd)
    decreases |s| + 1 - pos
  {
    hide Accepted, Within;
    if pos > |s| { AcceptedBeyond(find, s, pos, prevEnd); return; }
    AcceptedStep(find, s, pos, prevEnd);
    if find(s, pos).Some? {
      var m := find(s, pos).value;
      WithinBounds(m, s, pos);
      if m.so == m.eo == prevEnd {
        if m.so < |s| { AcceptedInOrder(find, s, m.so + 1, prevEnd); }
      } else if m.so < m.eo {
        AcceptedInOrder(find, s, m.eo, m.eo);
        InOrderPrepends(m, Accepted(find, s, m.eo, m.eo), s, prevEnd);
      } else if m.eo < |s| {
        AcceptedInOrder(find, s, m.eo + 1, m.eo);
        InOrderPrepends(m, Accepted(find, s, m.eo + 1, m.eo), s, prevEnd);
      } else {
        InOrderPrepends(m, [], s, prevEnd);
      }
    }
  }

  // ----- Splicing -----------------------------------------------------------------------------

  predicate EndsBy(ms: seq<Match>, to: int) {
    ms != [] ==> ms[|ms| - 1].eo <= to
  }

  /** `s` up to `to`, each of the matches replaced and all other text kept. */
  function Splice(s: string, ms: seq<Match>, to: nat, ks: seq<Token>): string
    requires to <= |s| && InOrder(ms, s, -1) && EndsBy(ms, to)
    decreases |ms|
  {
    if ms == [] then s[..to] else
    var n := |ms| - 1;
    Splice(s, ms[..n], ms[n].so, ks) + Render(ks, s, ms[n], Keep, Keep) + s[ms[n].eo..to]
  }

  lemma SpliceExtends(s: string, ms: seq<Match>, to: nat, to1: nat, ks: seq<Token>)
    requires to <= to1 <= |s| && InOrder(ms, s, -1) && EndsBy(ms, to)
    ensures EndsBy(ms, to1) && Splice(s, ms, to1, ks) == Splice(s, ms, to, ks) + s[to..to1]
  {
    hide Render;
    if ms == [] {
      assert s[..to1] == s[..to] + s[to..to1];
    } else {
      var e := ms[|ms| - 1].eo;
      assert s[e..to1] == s[e..to] + s[to..to1];
    }
  }

  lemma SpliceAdds(s: string, ms: seq<Match>, m: Match, ks: seq<Token>)
    requires InOrder(ms + [m], s, -1) && Within(m, s, 0)
    ensures InOrder(ms, s, -1) && EndsBy(ms, m.so) && EndsBy(ms + [m], m.eo)
    ensures Splice(s, ms + [m], m.eo, ks) == Splice(s, ms, m.so, ks) + Render(ks, s, m, Keep, Keep)
  {
    hide Within, Render;
    var all := ms + [m];
    assert all[|ms|] == m && all[..|ms|] == ms;
    assert forall i :: 0 <= i < |ms| ==> all[i] == ms[i];
    WithinBounds(m, s, 0);
    assert s[m.eo..m.eo] == [];
  }

  /** Replacing matches by themselves changes nothing. */
  lemma {:induction false} SpliceOfItself(s: string, ms: seq<Match>, to: nat)
    requires to <= |s| && InOrder(ms, s, -1) && EndsBy(ms, to)
    ensures Splice(s, ms, to, [RMatch]) == s[..to]
    decreases |ms|
  {
    if ms != [] {
      hide Render, Within, InOrder;
      var n := |ms| - 1;
      SpliceTail(s, ms, to);
      SpliceOfItself(s, ms[..n], ms[n].so);
    }
  }

  lemma SpliceTail(s: string, ms: seq<Match>, to: nat)
    requires to <= |s| && InOrder(ms, s, -1) && EndsBy(ms, to) && ms != []
    ensures var n := |ms| - 1; ms[n].so <= to && InOrder(ms[..n], s, -1) && EndsBy(ms[..n], ms[n].so)
    ensures var n := |ms| - 1;
      Splice(s, ms[..n], ms[n].so, [RMatch]) == s[..ms[n].so] ==> Splice(s, ms, to, [RMatch]) == s[..to]
  {
    hide Render;
    var n := |ms| - 1;
    MatchRendersItself(s, ms[n]);
    assert s[..to] == s[..ms[n].so] + s[ms[n].so..ms[n].eo] + s[ms[n].eo..to];
  }

  // ----- The command --------------------------------------------------------------------------

  datatype Flags = Flags(global: bool, nth: nat)

  /** The matches that the flags select: the `nth`, or with `g` the `nth` and all behind it. */
  function Selected(ms: seq<Match>, f: Flags): seq<Match>
    requires f.nth > 0
  {
    if |ms| < f.nth then [] else if f.global then ms[f.nth - 1..] else [ms[f.nth - 1]]
  }

  lemma SelectedInOrder(ms: seq<Match>, s: string, f: Flags)
    requires InOrder(ms, s, -1) && f.nth > 0
    ensures InOrder(Selected(ms, f), s, -1)
    ensures Selected(ms, f) != [] ==>
      Selected(ms, f)[|Selected(ms, f)| - 1].eo <= if ms == [] then 0 else ms[|ms| - 1].eo
  {
    hide Within;
    if ms != [] { WithinBounds(ms[|ms| - 1], s, 0); }
  }

  /** With `-z` and the M flag, lines end at NUL: the oracle then sees NUL and newline exchanged. */
  function Swapped(s: string): (t: string)
    ensures |t| == |s|
  { seq(|s|, i requires 0 <= i < |s| => if s[i] == '\0' then '\n' else if s[i] == '\n' then '\0' else s[i]) }

  function Subject(s: string, swap: bool): (t: string)
    ensures |t| == |s|
  { if swap then Swapped(s) else s }

  /** The text that the command makes of `s`. */
  function Substituted(find: Finder, s: string, ks: seq<Token>, f: Flags, swap: bool): string
    requires Sound(find) && f.nth > 0
  {
    var ms := Accepted(find, Subject(s, swap), 0, -1);
    AcceptedInOrder(find, Subject(s, swap), 0, -1);
    SelectedInOrder(ms, s, f);
    Splice(s, Selected(ms, f), |s|, ks)
  }

  lemma SelectedGrows(ms: seq<Match>, m: Match, f: Flags)
    requires f.nth > 0
    ensures Selected(ms + [m], f) ==
      if |ms| + 1 < f.nth || (!f.global && |ms| + 1 > f.nth) then Selected(ms, f) else Selected(ms, f) + [m]
  {}

  /** Once the one match that `s///n` wants is there, later ones do not matter. */
  lemma SelectedSettles(ms: seq<Match>, rest: seq<Match>, f: Flags)
    requires f.nth > 0 && (rest == [] || (!f.global && |ms| >= f.nth))
    ensures Selected(ms + rest, f) == Selected(ms, f)
  {
    assert rest == [] ==> ms + rest == ms;
  }

  lemma InOrderExtends(ms: seq<Match>, m: Match, s: string, prevEnd: int)
    requires InOrder(ms, s, -1) && prevEnd == (if ms == [] then -1 else ms[|ms| - 1].eo)
    requires Within(m, s, 0) && Behind(m, prevEnd)
    ensures InOrder(ms + [m], s, -1)
  {
    hide Within;
    forall i | 0 <= i < |ms| ensures Behind(m, ms[i].eo) {
      WithinBounds(ms[|ms| - 1], s, 0);
    }
  }

  lemma NothingSelected(s: string, f: Flags, ks: seq<Token>)
    requires f.nth > 0
    ensures InOrder([], s, -1) && Selected([], f) == [] && EndsBy([], 0) && Splice(s, [], 0, ks) == ""
  {}

  /** One more match: spliced in if the flags take it, and else copied. */
  lemma MatchTaken(s: string, ms: seq<Match>, m: Match, f: Flags, pos: nat, ks: seq<Token>)
    requires f.nth > 0 && InOrder(ms, s, -1) && InOrder(Selected(ms, f), s, -1) && EndsBy(Selected(ms, f), pos)
    requires Within(m, s, 0) && pos <= m.so && Behind(m, if ms == [] then -1 else ms[|ms| - 1].eo)
    ensures InOrder(ms + [m], s, -1) && InOrder(Selected(ms + [m], f), s, -1) && EndsBy(Selected(ms + [m], f), m.eo)
    ensures m.so <= m.eo <= |s| && Splice(s, Selected(ms + [m], f), m.eo, ks) ==
      if (if f.global then |ms| + 1 >= f.nth else |ms| + 1 == f.nth)
      then Splice(s, Selected(ms, f), pos, ks) + s[pos..m.so] + Render(ks, s, m, Keep, Keep)
      else Splice(s, Selected(ms, f), pos, ks) + s[pos..m.eo]
  {
    hide Splice, Render, Selected, InOrder, Within, EndsBy;
    WithinBounds(m, s, 0);
    InOrderExtends(ms, m, s, if ms == [] then -1 else ms[|ms| - 1].eo);
    SelectedGrows(ms, m, f);
    SelectedInOrder(ms + [m], s, f);
    if if f.global then |ms| + 1 >= f.nth else |ms| + 1 == f.nth {
      SpliceExtends(s, Selected(ms, f), pos, m.so, ks);
      SpliceAdds(s, Selected(ms, f), m, ks);
    } else {
      SpliceExtends(s, Selected(ms, f), pos, m.eo, ks);
    }
  }

  lemma NoMatchSelected(s: string, ms: seq<Match>, f: Flags, ks: seq<Token>)
    requires f.nth > |ms|
    ensures Selected(ms, f) == [] && InOrder([], s, -1) && Splice(s, [], |s|, ks) == s
  {}

  /** `s/re/&/` with any flags leaves the text as it was. */
  lemma AmpersandChangesNothing(find: Finder, s: string, f: Flags, swap: bool)
    requires Sound(find) && f.nth > 0
    ensures Substituted(find, s, [RMatch], f, swap) == s
  {
    hide Accepted, Splice, Selected, Render;
    var ms := Accepted(find, Subject(s, swap), 0, -1);
    AcceptedInOrder(find, Subject(s, swap), 0, -1);
    SelectedInOrder(ms, s, f);
    SpliceOfItself(s, Selected(ms, f), |s|);
    assert s[..|s|] == s;
  }

  lemma Regroup(ms: seq<Match>, m: Match, rest: seq<Match>)
    ensures ms + ([m] + rest) == ms + [m] + rest
  {}

  lemma SubstitutedIs(find: Finder, s: string, ks: seq<Token>, f: Flags, swap: bool)
    requires Sound(find) && f.nth > 0
    ensures var sel := Selected(Accepted(find, Subject(s, swap), 0, -1), f);
      InOrder(sel, s, -1) && EndsBy(sel, |s|) && Substituted(find, s, ks, f, swap) == Splice(s, sel, |s|, ks)
  {
    hide Accepted, Splice, Selected;
    AcceptedInOrder(find, Subject(s, swap), 0, -1);
    SelectedInOrder(Accepted(find, Subject(s, swap), 0, -1), s, f);
  }

  lemma FollowingStep(find: Finder, s: string, m: Match)
    requires Sound(find) && m.so <= m.eo <= |s|
    ensures Following(find, s, m) ==
      if m.so < m.eo then Accepted(find, s, m.eo, m.eo)
      else if m.eo == |s| then [] else Accepted(find, s, m.eo + 1, m.eo)
  {}

  lemma ProgressStarts(find: Finder, s: string, ks: seq<Token>, f: Flags, swap: bool)
    requires Sound(find) && f.nth > 0
    ensures Progress(find, s, ks, f, swap, [], Accepted(find, Subject(s, swap), 0, -1), 0, -1, "")
  {
    hide Accepted, Splice, Selected, InOrder, EndsBy, Subject;
    NothingSelected(s, f, ks);
  }

  /** Where the loop stands: `ms` are the matches found, `rest` those to come, and `out` is the text up to
      `pos` with the selected ones replaced. */
  ghost predicate Progress(find: Finder, s: string, ks: seq<Token>, f: Flags, swap: bool,
                           ms: seq<Match>, rest: seq<Match>, pos: nat, prevEnd: int, out: string)
    requires Sound(find) && f.nth > 0
  {
    && pos <= |s| && InOrder(ms, s, -1) && InOrder(Selected(ms, f), s, -1) && EndsBy(Selected(ms, f), pos)
    && prevEnd == (if ms == [] then -1 else ms[|ms| - 1].eo) <= pos
    && Accepted(find, Subject(s, swap), 0, -1) == ms + rest
    && out == Splice(s, Selected(ms, f), pos, ks)
  }

  lemma ProgressSkips(find: Finder, s: string, ks: seq<Token>, f: Flags, swap: bool,
                      ms: seq<Match>, rest: seq<Match>, pos: nat, prevEnd: int, out: string, to: nat)
    requires Sound(find) && f.nth > 0 && Progress(find, s, ks, f, swap, ms, rest, pos, prevEnd, out) && pos <= to <= |s|
    ensures Progress(find, s, ks, f, swap, ms, rest, to, prevEnd, out + s[pos..to])
  {
    hide Accepted, Splice, Selected, InOrder, EndsBy;
    SpliceExtends(s, Selected(ms, f), pos, to, ks);
  }

  lemma ProgressTakes(find: Finder, s: string, ks: seq<Token>, f: Flags, swap: bool,
                      ms: seq<Match>, m: Match, rest: seq<Match>, pos: nat, prevEnd: int, out: string)
    requires Sound(find) && f.nth > 0 && Progress(find, s, ks, f, swap, ms, [m] + rest, pos, prevEnd, out)
    requires Within(m, s, 0) && pos <= m.so <= m.eo <= |s| && Behind(m, prevEnd)
    ensures var replace := if f.global then |ms| + 1 >= f.nth else |ms| + 1 == f.nth;
      Progress(find, s, ks, f, swap, ms + [m], rest, m.eo, m.eo,
               if replace then out + s[pos..m.so] + Render(ks, s, m, Keep, Keep) else out + s[pos..m.eo])
  {
    hide Accepted, Splice, Selected, InOrder, EndsBy, Render, Within;
    MatchTaken(s, ms, m, f, pos, ks);
    Regroup(ms, m, rest);
  }

  lemma ProgressEnds(find: Finder, s: string, ks: seq<Token>, f: Flags, swap: bool,
                     ms: seq<Match>, rest: seq<Match>, pos: nat, prevEnd: int, out: string)
    requires Sound(find) && f.nth > 0 && Progress(find, s, ks, f, swap, ms, rest, pos, prevEnd, out)
    requires rest == [] || (!f.global && |ms| >= f.nth)
    ensures pos <= |s| && out + s[pos..] == Substituted(find, s, ks, f, swap)
    ensures |ms| >= f.nth <==> |Accepted(find, Subject(s, swap), 0, -1)| >= f.nth
    ensures |ms| < f.nth ==> Substituted(find, s, ks, f, swap) == s
  {
    hide Accepted, Splice, Selected, InOrder, EndsBy, Render, Within, Substituted, Subject;
    SelectedSettles(ms, rest, f);
    SpliceExtends(s, Selected(ms, f), pos, |s|, ks);
    SubstitutedIs(find, s, ks, f, swap);
    if |ms| < f.nth { NoMatchSelected(s, ms, f, ks); }
  }

  /** `do_subst`: the new text, and whether anything was replaced. */
  method DoSubst(find: Finder, s: string, ks: seq<Token>, f: Flags, swap: bool) returns (text: string, made: bool)
    requires Sound(find) && f.nth > 0
    ensures text == Substituted(find, s, ks, f, swap)
    ensures made <==> |Accepted(find, Subject(s, swap), 0, -1)| >= f.nth
    ensures !made ==> text == s
  {
    hide Accepted, Render, Within, Substituted, Sound, Subject, Behind, Progress, Following;
    var subject := Subject(s, swap);
    var pos: nat, count: nat := 0, 0;
    var out, prevEnd: int := "", -1;
    made := false;
    ghost var ms, rest := [], Accepted(find, subject, 0, -1);
    ProgressStarts(find, s, ks, f, swap);
    while pos <= |s|
      invariant pos <= |s| && count == |ms| && Progress(find, s, ks, f, swap, ms, rest, pos, prevEnd, out)
      invariant rest == Accepted(find, subject, pos, prevEnd) && -1 <= prevEnd <= pos
      invariant made <==> count >= f.nth
      invariant f.global || count < f.nth
      decreases |s| + 1 - pos
    {
      AcceptedStep(find, subject, pos, prevEnd);
      var found := find(subject, pos);
      if found.None? { break; }
      var m := found.value;
      WithinBounds(m, subject, pos);
      WithinSameLength(m, subject, s);
      if m.eo == m.so && m.so == prevEnd {
        if m.so >= |s| { break; }
        ProgressSkips(find, s, ks, f, swap, ms, rest, pos, prevEnd, out, m.so + 1);
        assert s[pos..m.so + 1] == [s[m.so]];
        out := out + [s[m.so]];
        pos := m.so + 1;
        continue;
      }
      BehindIs(m, prevEnd);
      rest := Following(find, subject, m);
      ProgressTakes(find, s, ks, f, swap, ms, m, rest, pos, prevEnd, out);
      ms := ms + [m];
      count := count + 1;
      var replace := if f.global then count >= f.nth else count == f.nth;
      if replace {
        out := out + s[pos..m.so];
        out := AppendReplacement(out, ks, s, m);
        made := true;
      } else {
        out := out + s[pos..m.eo];
      }
      prevEnd := m.eo;
      FollowingStep(find, subject, m);
      if m.eo == m.so {
        if m.eo >= |s| { pos := m.eo; break; }
        ProgressSkips(find, s, ks, f, swap, ms, rest, m.eo, prevEnd, out, m.eo + 1);
        assert s[m.eo..m.eo + 1] == [s[m.eo]];
        out := out + [s[m.eo]];
        pos := m.eo + 1;
      } else {
        pos := m.eo;
      }
      if !f.global && count >= f.nth { break; }
    }
    ProgressEnds(find, s, ks, f, swap, ms, rest, pos, prevEnd, out);
    text := out + s[pos..];
    if !made { text := s; }
  }
}
