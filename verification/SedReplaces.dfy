/** What `s` makes of a text when its expression is one byte, or the empty match: the flags of the command. */
module SedReplaces {
  import opened Options
  import opened SedSubsts

  /** The first `c` from `pos` on, or the end. */
  function IndexOf(s: string, c: char, pos: nat): (i: nat)
    requires pos <= |s|
    ensures pos <= i <= |s| && (i < |s| ==> s[i] == c) && forall j :: pos <= j < i ==> s[j] != c
    decreases |s| - pos
  { if pos == |s| || s[pos] == c then pos else IndexOf(s, c, pos + 1) }

  function ByteMatch(i: nat): Match { Match(i, i + 1, []) }

  /** The expression is the one byte `c`. */
  ghost predicate FindsByte(find: Finder, c: char) {
    forall s: string, pos: nat :: pos <= |s| ==>
      find(s, pos) == if IndexOf(s, c, pos) < |s| then Some(ByteMatch(IndexOf(s, c, pos))) else None
  }

  /** The places of `c` from `k` up to `to`. */
  function Places(s: string, c: char, k: nat, end: nat): seq<Match>
    requires end <= |s|
    decreases end
  { if end <= k then [] else Places(s, c, k, end - 1) + if s[end - 1] == c then [ByteMatch(end - 1)] else [] }

  lemma {:induction false} NoPlaces(s: string, c: char, k: nat, pos: nat, end: nat)
    requires k <= pos <= end <= |s| && forall j :: pos <= j < end ==> s[j] != c
    ensures Places(s, c, k, end) == Places(s, c, k, pos)
    decreases end
  { if pos < end { NoPlaces(s, c, k, pos, end - 1); } }

  /** Every `c` is a match that counts. */
  lemma {:induction false} AllAccepted(find: Finder, s: string, c: char, pos: nat, prevEnd: int)
    requires Sound(find) && FindsByte(find, c) && pos <= |s| && prevEnd <= pos
    ensures Places(s, c, 0, pos) + Accepted(find, s, pos, prevEnd) == Places(s, c, 0, |s|)
    decreases |s| - pos
  {
    hide Accepted, Following;
    var i := IndexOf(s, c, pos);
    AcceptedStep(find, s, pos, prevEnd);
    NoPlaces(s, c, 0, pos, i);
    if i < |s| {
      FollowingStep(find, s, ByteMatch(i));
      AllAccepted(find, s, c, i + 1, i + 1);
      assert Places(s, c, 0, i + 1) == Places(s, c, 0, i) + [ByteMatch(i)];
      assert Places(s, c, 0, i) + ([ByteMatch(i)] + Accepted(find, s, i + 1, i + 1))
          == Places(s, c, 0, i) + [ByteMatch(i)] + Accepted(find, s, i + 1, i + 1);
    }
  }

  /** `t` with `x` for every `c` from place `k` on. */
  function Replaced(t: string, c: char, x: string, k: nat): string {
    if t == "" then "" else
    var n := |t| - 1;
    Replaced(t[..n], c, x, k) + if n >= k && t[n] == c then x else [t[n]]
  }

  lemma {:induction false} PlacesInOrder(s: string, c: char, k: nat, end: nat)
    requires end <= |s|
    ensures InOrder(Places(s, c, k, end), s, -1) && EndsBy(Places(s, c, k, end), end)
    decreases end
  { if k < end { PlacesInOrder(s, c, k, end - 1); } }

  lemma {:induction false} PlacesSpliced(s: string, c: char, x: string, k: nat, end: nat)
    requires end <= |s|
    ensures InOrder(Places(s, c, k, end), s, -1) && EndsBy(Places(s, c, k, end), end)
    ensures Splice(s, Places(s, c, k, end), end, [RLit(x)]) == Replaced(s[..end], c, x, k)
    decreases end
  {
    hide Splice, Render, InOrder;
    PlacesInOrder(s, c, k, end);
    if end == 0 {
      NothingSpliced(s, x);
    } else {
      var n := end - 1;
      PlacesSpliced(s, c, x, k, n);
      PlacesInOrder(s, c, k, n);
      assert s[..end][..n] == s[..n] && s[..end][n] == s[n];
      if n >= k && s[n] == c {
        WithinByte(s, n);
        SpliceAdds(s, Places(s, c, k, n), ByteMatch(n), [RLit(x)]);
        PartRenders(s, ByteMatch(n), x, 0);
      } else {
        assert Places(s, c, k, end) == Places(s, c, k, n);
        SpliceExtends(s, Places(s, c, k, n), n, end, [RLit(x)]);
        assert s[n..end] == [s[n]];
      }
    }
  }

  lemma NothingSpliced(s: string, x: string)
    ensures InOrder([], s, -1) && Splice(s, [], 0, [RLit(x)]) == ""
  {}

  lemma WithinByte(s: string, i: nat)
    requires i < |s|
    ensures Within(ByteMatch(i), s, 0)
  {}

  lemma {:induction false} PlacesSplit(s: string, c: char, k: nat, end: nat)
    requires k <= end <= |s|
    ensures Places(s, c, 0, end) == Places(s, c, 0, k) + Places(s, c, k, end)
    decreases end
  { if k < end { PlacesSplit(s, c, k, end - 1); } }

  lemma {:induction false} PlacesCount(s: string, c: char, end: nat)
    requires end <= |s|
    ensures |Places(s, c, 0, end)| == multiset(s[..end])[c]
    decreases end
  {
    if end > 0 {
      PlacesCount(s, c, end - 1);
      assert s[..end] == s[..end - 1] + [s[end - 1]];
    }
  }

  /** `s/c/x/g`, `s/c/x/n` and `s/c/x/ng`: every `c` is replaced, or the `n`-th, or the `n`-th and all behind it;
      without so many of them nothing is. */
  lemma ByteReplaced(find: Finder, s: string, c: char, x: string, f: Flags) returns (i: nat)
    requires Sound(find) && FindsByte(find, c) && f.nth > 0
    ensures var text := Substituted(find, s, [RLit(x)], f, false);
      if multiset(s)[c] < f.nth then text == s
      else
        i < |s| && s[i] == c && multiset(s[..i])[c] == f.nth - 1
        && text == if f.global then Replaced(s, c, x, i) else s[..i] + x + s[i + 1..]
  {
    hide Accepted, Splice, Render, InOrder, Substituted, Selected;
    var ms := Places(s, c, 0, |s|);
    assert Places(s, c, 0, 0) + Accepted(find, s, 0, -1) == Accepted(find, s, 0, -1);
    AllAccepted(find, s, c, 0, -1);
    SubstitutedIs(find, s, [RLit(x)], f, false);
    PlacesCount(s, c, |s|);
    assert s[..|s|] == s;
    if |ms| < f.nth {
      NoMatchSelected(s, ms, f, [RLit(x)]);
      i := 0;
    } else {
      i := NthPlace(s, c, f.nth, |s|);
      SelectedPlaces(s, c, f, i);
      if f.global {
        PlacesSpliced(s, c, x, i, |s|);
      } else {
        OnePlace(s, x, i);
      }
    }
  }

  /** Where the `n`-th match stands. */
  lemma {:induction false} NthPlace(s: string, c: char, n: nat, end: nat) returns (i: nat)
    requires end <= |s| && 0 < n <= |Places(s, c, 0, end)|
    ensures i < end && s[i] == c && multiset(s[..i])[c] == n - 1 && |Places(s, c, 0, i)| == n - 1
    decreases end
  {
    if |Places(s, c, 0, end - 1)| >= n {
      i := NthPlace(s, c, n, end - 1);
    } else {
      i := end - 1;
      PlacesCount(s, c, i);
    }
  }

  lemma {:induction false} PlacesFrom(s: string, c: char, i: nat, end: nat)
    requires i < end <= |s| && s[i] == c
    ensures Places(s, c, i, end) != [] && Places(s, c, i, end)[0] == ByteMatch(i)
    decreases end
  {
    if i + 1 < end { PlacesFrom(s, c, i, end - 1); } else { assert Places(s, c, i, i) == []; }
  }

  lemma SelectedPlaces(s: string, c: char, f: Flags, i: nat)
    requires f.nth > 0 && i < |s| && s[i] == c && |Places(s, c, 0, i)| == f.nth - 1
    ensures |Places(s, c, 0, |s|)| >= f.nth
    ensures Selected(Places(s, c, 0, |s|), f) == if f.global then Places(s, c, i, |s|) else [ByteMatch(i)]
  {
    hide Places;
    PlacesSplit(s, c, i, |s|);
    PlacesFrom(s, c, i, |s|);
  }

  lemma OnePlace(s: string, x: string, i: nat)
    requires i < |s|
    ensures InOrder([ByteMatch(i)], s, -1) && Splice(s, [ByteMatch(i)], |s|, [RLit(x)]) == s[..i] + x + s[i + 1..]
  {
    WithinByte(s, i);
    OneInOrder(s, ByteMatch(i));
    hide InOrder, Within, Splice;
    OneSpliced(s, ByteMatch(i), x);
  }

  lemma OneSpliced(s: string, m: Match, x: string)
    requires Within(m, s, 0) && InOrder([m], s, -1)
    ensures m.so <= m.eo <= |s| && Splice(s, [m], |s|, [RLit(x)]) == s[..m.so] + x + s[m.eo..]
  {
    hide *;
    PartRenders(s, m, x, 0);
    WithinBounds(m, s, 0);
    NothingUpTo(s, m.so, x);
    SpliceOne(s, m, [RLit(x)]);
  }

  lemma SpliceOne(s: string, m: Match, ks: seq<Token>)
    requires Within(m, s, 0) && InOrder([m], s, -1) && m.so <= m.eo <= |s|
    ensures InOrder([], s, -1) && EndsBy([], m.so) && EndsBy([m], |s|)
    ensures Splice(s, [m], |s|, ks) == Splice(s, [], m.so, ks) + Render(ks, s, m, Keep, Keep) + s[m.eo..]
  {
    hide Render, Within;
    assert [m][..0] == [] && s[m.eo..|s|] == s[m.eo..];
  }

  lemma NothingUpTo(s: string, k: nat, x: string)
    requires k <= |s|
    ensures InOrder([], s, -1) && EndsBy([], k) && Splice(s, [], k, [RLit(x)]) == s[..k]
  {}

  lemma OneInOrder(s: string, m: Match)
    requires Within(m, s, 0)
    ensures InOrder([m], s, -1) && EndsBy([], 0)
  {}

  /** `Replaced` stands for `x` at every `c` and for nothing else, when both are one byte. */
  lemma {:induction false} ReplacedAt(t: string, c: char, d: char, j: nat)
    requires j < |t|
    ensures |Replaced(t, c, [d], 0)| == |t| && Replaced(t, c, [d], 0)[j] == if t[j] == c then d else t[j]
  {
    var n := |t| - 1;
    if j < n { ReplacedAt(t[..n], c, d, j); } else if n > 0 { ReplacedAt(t[..n], c, d, 0); }
  }

  // ----- The empty match ----------------------------------------------------------------------

  /** The expression matches the empty text everywhere. */
  ghost predicate FindsNothing(find: Finder) {
    forall s: string, pos: nat :: pos <= |s| ==> find(s, pos) == Some(Match(pos, pos, []))
  }

  function Gaps(k: nat, end: nat): seq<Match>
    decreases end
  { if end < k then [] else (if end == 0 then [] else Gaps(k, end - 1)) + [Match(end, end, [])] }

  lemma {:induction false} GapsFirst(k: nat, end: nat)
    requires k <= end
    ensures Gaps(k, end) == [Match(k, k, [])] + Gaps(k + 1, end)
    decreases end
  { if k < end { GapsFirst(k, end - 1); } }

  lemma {:induction false} AllGaps(find: Finder, s: string, pos: nat, prevEnd: int)
    requires Sound(find) && FindsNothing(find) && pos <= |s| && prevEnd < pos
    ensures Accepted(find, s, pos, prevEnd) == Gaps(pos, |s|)
    decreases |s| - pos
  {
    hide Accepted, Following;
    AcceptedStep(find, s, pos, prevEnd);
    FollowingStep(find, s, Match(pos, pos, []));
    GapsFirst(pos, |s|);
    if pos < |s| { AllGaps(find, s, pos + 1, pos); }
  }

  /** `x` in front of every byte of `t` and behind the last. */
  function Interleaved(t: string, x: string): string {
    if t == "" then x else Interleaved(t[..|t| - 1], x) + [t[|t| - 1]] + x
  }

  lemma {:induction false} GapsSpliced(s: string, x: string, end: nat)
    requires end <= |s|
    ensures InOrder(Gaps(0, end), s, -1) && EndsBy(Gaps(0, end), end)
    ensures Splice(s, Gaps(0, end), end, [RLit(x)]) == Interleaved(s[..end], x)
    decreases end
  {
    hide Splice, Render, InOrder, EndsBy;
    if end == 0 {
      NothingSpliced(s, x);
      OneInOrder(s, Match(0, 0, []));
      assert [] + [Match(0, 0, [])] == [Match(0, 0, [])];
      GapAdds(s, [], 0, x);
      assert Gaps(0, 0) == [] + [Match(0, 0, [])] && s[..0] == "";
    } else {
      GapsSpliced(s, x, end - 1);
      GapBehind(s, Gaps(0, end - 1), end);
      SpliceExtends(s, Gaps(0, end - 1), end - 1, end, [RLit(x)]);
      GapAdds(s, Gaps(0, end - 1), end, x);
      assert s[..end][..end - 1] == s[..end - 1] && s[end - 1..end] == [s[end - 1]];
    }
  }

  lemma GapAdds(s: string, ms: seq<Match>, end: nat, x: string)
    requires end <= |s| && InOrder(ms, s, -1) && EndsBy(ms, end) && InOrder(ms + [Match(end, end, [])], s, -1)
    ensures EndsBy(ms + [Match(end, end, [])], end)
    ensures Splice(s, ms + [Match(end, end, [])], end, [RLit(x)]) == Splice(s, ms, end, [RLit(x)]) + x
  {
    var m := Match(end, end, []);
    assert Within(m, s, 0);
    hide Splice, Render, InOrder;
    PartRenders(s, m, x, 0);
    SpliceAdds(s, ms, m, [RLit(x)]);
  }

  lemma GapBehind(s: string, ms: seq<Match>, end: nat)
    requires 0 < end <= |s| && InOrder(ms, s, -1) && EndsBy(ms, end - 1)
    ensures InOrder(ms + [Match(end, end, [])], s, -1)
  {}

  /** An empty match counts once at every place of the text. */
  lemma GapsFilled(find: Finder, s: string, x: string)
    requires Sound(find) && FindsNothing(find)
    ensures Substituted(find, s, [RLit(x)], Flags(true, 1), false) == Interleaved(s, x)
  {
    hide Accepted, Splice, InOrder, Substituted;
    SubstitutedIs(find, s, [RLit(x)], Flags(true, 1), false);
    AllGaps(find, s, 0, -1);
    GapsFirst(0, |s|);
    assert Gaps(0, |s|)[0..] == Gaps(0, |s|);
    GapsSpliced(s, x, |s|);
    assert s[..|s|] == s;
  }
}
