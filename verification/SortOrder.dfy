/** The order of lines, and the removal of duplicates from a sorted array.

    Lines are strictly ordered, so that a sorted list is unique and stable. */
module SortOrders {
  import opened CStrings
  import opened SortKeys

  // ----- Lines ------------------------------------------------------------------------------------

  /** `idx` is the place of the line in the input. */
  datatype Line = Line(text: string, idx: nat)

  /** A `-k` key; where its text is in the line is a function of the line. */
  datatype Key = Key(extract: string -> string, flags: Flags, reverse: bool)

  datatype Options = Options(keys: seq<Key>, whole: Flags, reverse: bool)

  /** `s` as C sees it, up to a NUL. */
  function CString(s: string): (r: string)
    ensures NoNul(r)
  { if s == "" || s[0] == '\0' then "" else [s[0]] + CString(s[1..]) }

  function StripEnd(s: string): string {
    if s != "" && (s[|s| - 1] == '\n' || s[|s| - 1] == '\r') then StripEnd(s[..|s| - 1]) else s
  }

  /** The line without its end, in a buffer of 4096 bytes. */
  function WholeText(s: string): string {
    var t := StripEnd(s);
    CString(if |t| > 4095 then t[..4095] else t)
  }

  function KeyCount(opts: Options): nat { if opts.keys == [] then 1 else |opts.keys| }

  function LineKey(opts: Options, l: Line, k: nat): seq<int>
    requires k < KeyCount(opts)
  {
    if opts.keys == [] then SortKey(WholeText(l.text), opts.whole)
    else SortKey(CString(opts.keys[k].extract(l.text)), opts.keys[k].flags)
  }

  /** `-r` of the key, and `-r` of the command. */
  predicate Reversed(opts: Options, k: nat)
    requires k < KeyCount(opts)
  { (opts.keys != [] && opts.keys[k].reverse) != opts.reverse }

  function CompareKey(opts: Options, a: Line, b: Line, k: nat): (c: int)
    requires k < KeyCount(opts)
  {
    var c := CmpSeq(LineKey(opts, a, k), LineKey(opts, b, k));
    if Reversed(opts, k) then -c else c
  }

  /** The first key in which they differ. */
  function CompareKeys(opts: Options, a: Line, b: Line, k: nat): (c: int)
    requires k <= KeyCount(opts)
    ensures -1 <= c <= 1
    decreases KeyCount(opts) - k
  {
    if k == KeyCount(opts) then 0 else
    var c := CompareKey(opts, a, b, k);
    if c != 0 then c else CompareKeys(opts, a, b, k + 1)
  }

  function Compare(opts: Options, a: Line, b: Line): int {
    var c := CompareKeys(opts, a, b, 0);
    if c != 0 then c else Sign(a.idx - b.idx)
  }

  lemma KeysStep(opts: Options, a: Line, b: Line, k: nat)
    requires k < KeyCount(opts)
    ensures var c := CompareKey(opts, a, b, k);
      CompareKeys(opts, a, b, k) == if c != 0 then c else CompareKeys(opts, a, b, k + 1)
  {}

  lemma KeysEnd(opts: Options, a: Line, b: Line)
    ensures CompareKeys(opts, a, b, KeyCount(opts)) == 0
  {}

  /** `compare_lines`. */
  method CompareLines(opts: Options, a: Line, b: Line) returns (rc: int)
    ensures Sign(rc) == Compare(opts, a, b)
  {
    hide SortKey, CString, CmpSeq, StripEnd, CompareKeys;
    KeysEnd(opts, a, b);
    if opts.keys == [] {
      rc := KeyCompareStrings(WholeText(a.text), WholeText(b.text), opts.whole, false);
      KeysStep(opts, a, b, 0);
      if rc != 0 { return if opts.reverse then -rc else rc; }
    } else {
      for k := 0 to |opts.keys|
        invariant CompareKeys(opts, a, b, 0) == CompareKeys(opts, a, b, k)
      {
        var key := opts.keys[k];
        rc := KeyCompareStrings(CString(key.extract(a.text)), CString(key.extract(b.text)), key.flags, key.reverse);
        KeysStep(opts, a, b, k);
        if rc != 0 { return if opts.reverse then -rc else rc; }
      }
    }
    rc := if a.idx < b.idx then -1 else if a.idx > b.idx then 1 else 0;
  }

  // ----- A strict total order ---------------------------------------------------------------------

  lemma {:induction false} KeysAntisymmetric(opts: Options, a: Line, b: Line, k: nat)
    requires k <= KeyCount(opts)
    ensures CompareKeys(opts, b, a, k) == -CompareKeys(opts, a, b, k)
    decreases KeyCount(opts) - k
  {
    hide LineKey, CmpSeq;
    if k < KeyCount(opts) {
      CmpAntisymmetric(LineKey(opts, a, k), LineKey(opts, b, k));
      KeysAntisymmetric(opts, a, b, k + 1);
    }
  }

  lemma KeyTransitive(opts: Options, a: Line, b: Line, c: Line, k: nat)
    requires k < KeyCount(opts) && CompareKey(opts, a, b, k) <= 0 && CompareKey(opts, b, c, k) <= 0
    ensures CompareKey(opts, a, c, k) <= 0
    ensures CompareKey(opts, a, c, k) == 0 <==> CompareKey(opts, a, b, k) == 0 && CompareKey(opts, b, c, k) == 0
  {
    hide LineKey, CmpSeq;
    var x, y, z := LineKey(opts, a, k), LineKey(opts, b, k), LineKey(opts, c, k);
    CmpAntisymmetric(x, y);
    CmpAntisymmetric(y, z);
    CmpAntisymmetric(x, z);
    if Reversed(opts, k) { CmpTransitive(z, y, x); } else { CmpTransitive(x, y, z); }
  }

  lemma {:induction false} KeysTransitive(opts: Options, a: Line, b: Line, c: Line, k: nat)
    requires k <= KeyCount(opts) && CompareKeys(opts, a, b, k) <= 0 && CompareKeys(opts, b, c, k) <= 0
    ensures CompareKeys(opts, a, c, k) <= 0
    ensures CompareKeys(opts, a, c, k) == 0 <==> CompareKeys(opts, a, b, k) == 0 && CompareKeys(opts, b, c, k) == 0
    decreases KeyCount(opts) - k
  {
    hide CompareKey;
    if k < KeyCount(opts) {
      KeyTransitive(opts, a, b, c, k);
      if CompareKey(opts, a, c, k) == 0 { KeysTransitive(opts, a, b, c, k + 1); }
    }
  }

  /** Lines at different places never compare equal, and exactly one comes first. */
  lemma CompareIsStrict(opts: Options, a: Line, b: Line)
    ensures Compare(opts, b, a) == -Compare(opts, a, b)
    ensures Compare(opts, a, b) == 0 <==> CompareKeys(opts, a, b, 0) == 0 && a.idx == b.idx
  {
    hide CompareKeys;
    KeysAntisymmetric(opts, a, b, 0);
  }

  lemma CompareIsTransitive(opts: Options, a: Line, b: Line, c: Line)
    requires Compare(opts, a, b) < 0 && Compare(opts, b, c) < 0
    ensures Compare(opts, a, c) < 0
  {
    hide CompareKeys;
    KeysTransitive(opts, a, b, c, 0);
  }

  // ----- Sorted lists -----------------------------------------------------------------------------

  predicate DistinctPlaces(s: seq<Line>) {
    forall i, j :: 0 <= i < j < |s| ==> s[i].idx != s[j].idx
  }

  /** What `qsort` promises: no line comes behind a later one. */
  predicate Sorted(opts: Options, s: seq<Line>) {
    forall i, j :: 0 <= i < j < |s| ==> Compare(opts, s[i], s[j]) <= 0
  }

  /** The line that comes first is the same in every sorted list of the same lines. */
  lemma SameFirst(opts: Options, s: seq<Line>, t: seq<Line>)
    requires DistinctPlaces(s) && Sorted(opts, s) && Sorted(opts, t) && multiset(s) == multiset(t) && s != []
    ensures t != [] && s[0] == t[0]
  {
    hide Compare;
    assert s[0] in multiset(s) && t != [] && t[0] in multiset(t);
    var i :| 0 <= i < |t| && t[i] == s[0];
    var j :| 0 <= j < |s| && s[j] == t[0];
    if j > 0 && i > 0 {
      assert Compare(opts, s[0], s[j]) <= 0 && Compare(opts, t[0], t[i]) <= 0 && s[0].idx != s[j].idx;
      CompareIsStrict(opts, s[0], s[j]);
    }
  }

  /** There is only one way to sort. */
  lemma {:induction false} SortedIsUnique(opts: Options, s: seq<Line>, t: seq<Line>)
    requires DistinctPlaces(s) && Sorted(opts, s) && Sorted(opts, t) && multiset(s) == multiset(t)
    ensures s == t
    decreases |s|
  {
    hide Compare, Sorted, DistinctPlaces;
    if s == [] {
      assert |multiset(t)| == 0;
    } else {
      SameFirst(opts, s, t);
      Tails(opts, s);
      Tails(opts, t);
      SortedIsUnique(opts, s[1..], t[1..]);
    }
  }

  lemma Tails(opts: Options, s: seq<Line>)
    requires s != [] && Sorted(opts, s)
    ensures Sorted(opts, s[1..]) && (DistinctPlaces(s) ==> DistinctPlaces(s[1..]))
    ensures s == [s[0]] + s[1..] && multiset(s[1..]) == multiset(s) - multiset{s[0]}
  {
    hide Compare;
    assert s == [s[0]] + s[1..];
  }

  /** Lines with equal keys stay in the order of the input. */
  lemma SortedIsStable(opts: Options, s: seq<Line>, i: nat, j: nat)
    requires DistinctPlaces(s) && Sorted(opts, s) && i < j < |s| && CompareKeys(opts, s[i], s[j], 0) == 0
    ensures s[i].idx < s[j].idx
  {
    hide CompareKeys;
    assert Compare(opts, s[i], s[j]) <= 0;
  }

  // ----- Removing duplicates ----------------------------------------------------------------------

  /** Of the lines that were kept, only the last is compared with the next. */
  function Dedup(opts: Options, s: seq<Line>): (r: seq<Line>)
    ensures |r| <= |s| && (s != [] ==> r != [])
  {
    if |s| <= 1 then s else
    var n := |s| - 1;
    var d := Dedup(opts, s[..n]);
    if CompareKeys(opts, s[n], d[|d| - 1], 0) != 0 then d + [s[n]] else d
  }

  lemma DedupStep(opts: Options, s: seq<Line>, k: nat)
    requires 0 < k < |s|
    ensures var d := Dedup(opts, s[..k]);
      Dedup(opts, s[..k + 1]) == if CompareKeys(opts, s[k], d[|d| - 1], 0) != 0 then d + [s[k]] else d
  { assert s[..k + 1][..k] == s[..k]; }

  /** `dedup_lines`, in place. */
  method DedupLines(opts: Options, lines: array<Line>, n: nat) returns (out: nat)
    requires n <= lines.Length
    modifies lines
    ensures out <= n && lines[..out] == Dedup(opts, old(lines[..n]))
    ensures forall i :: n <= i < lines.Length ==> lines[i] == old(lines[i])
  {
    hide CompareKeys, Dedup, Compare;
    if n == 0 {
      DedupOne(opts, []);
      return 0;
    }
    ghost var s := lines[..n];
    out := 1;
    DedupOne(opts, s[..1]);
    assert lines[..1] == s[..1];
    for k := 1 to n
      invariant 1 <= out <= k && lines[..out] == Dedup(opts, s[..k])
      invariant forall i :: k <= i < lines.Length ==> lines[i] == old(lines[i])
    {
      DedupStep(opts, s, k);
      var a, b := lines[k].(idx := 0), lines[out - 1].(idx := 0);
      var rc := CompareLines(opts, a, b);
      PlacesDoNotMatter(opts, lines[k], lines[out - 1], a, b);
      if rc != 0 {
        ghost var d := lines[..out];
        lines[out] := lines[k];
        out := out + 1;
        assert lines[..out] == d + [s[k]];
      }
    }
    assert s[..n] == s;
  }

  lemma DedupOne(opts: Options, s: seq<Line>)
    requires |s| <= 1
    ensures Dedup(opts, s) == s
  {}

  lemma PlacesDoNotMatter(opts: Options, a: Line, b: Line, a1: Line, b1: Line)
    requires a.text == a1.text && b.text == b1.text && a1.idx == b1.idx
    ensures Compare(opts, a1, b1) == CompareKeys(opts, a, b, 0)
  {
    hide CompareKeys;
    KeysOfTexts(opts, a, b, a1, b1, 0);
  }

  lemma {:induction false} KeysOfTexts(opts: Options, a: Line, b: Line, a1: Line, b1: Line, k: nat)
    requires k <= KeyCount(opts) && a.text == a1.text && b.text == b1.text
    ensures CompareKeys(opts, a, b, k) == CompareKeys(opts, a1, b1, k)
    decreases KeyCount(opts) - k
  { if k < KeyCount(opts) { KeysOfTexts(opts, a, b, a1, b1, k + 1); } }

  predicate SameKeys(opts: Options, a: Line, b: Line) { CompareKeys(opts, a, b, 0) == 0 }

  /** A line before `n` has the keys of line `n`. */
  ghost predicate HasEarlier(opts: Options, s: seq<Line>, n: nat)
    requires n < |s|
  { exists i :: 0 <= i < n && SameKeys(opts, s[i], s[n]) }

  /** The lines that no earlier line has the keys of. */
  ghost function Firsts(opts: Options, s: seq<Line>): seq<Line> {
    if s == [] then [] else
    var n := |s| - 1;
    Firsts(opts, s[..n]) + if HasEarlier(opts, s, n) then [] else [s[n]]
  }

  lemma SameKeysLaws(opts: Options, a: Line, b: Line, c: Line)
    ensures SameKeys(opts, a, a)
    ensures SameKeys(opts, a, b) <==> SameKeys(opts, b, a)
    ensures SameKeys(opts, a, b) && SameKeys(opts, b, c) ==> SameKeys(opts, a, c)
  {
    hide CompareKeys;
    KeysAntisymmetric(opts, a, a, 0);
    KeysAntisymmetric(opts, a, b, 0);
    if SameKeys(opts, a, b) && SameKeys(opts, b, c) { KeysTransitive(opts, a, b, c, 0); }
  }

  /** In a sorted list, a class is a stretch. */
  lemma EarlierIsNext(opts: Options, s: seq<Line>, n: nat)
    requires Sorted(opts, s) && 0 < n < |s|
    ensures HasEarlier(opts, s, n) <==> SameKeys(opts, s[n - 1], s[n])
  {
    hide CompareKeys;
    forall i | 0 <= i < n - 1 && SameKeys(opts, s[i], s[n]) ensures SameKeys(opts, s[n - 1], s[n]) {
      assert Compare(opts, s[i], s[n - 1]) <= 0 && Compare(opts, s[n - 1], s[n]) <= 0;
      KeysTransitive(opts, s[i], s[n - 1], s[n], 0);
    }
  }

  /** On a sorted list, comparing neighbours finds all duplicates: the first line of each class is kept. */
  lemma {:induction false} DedupKeepsFirsts(opts: Options, s: seq<Line>)
    requires Sorted(opts, s)
    ensures Dedup(opts, s) == Firsts(opts, s)
    ensures s != [] ==> SameKeys(opts, Dedup(opts, s)[|Dedup(opts, s)| - 1], s[|s| - 1])
    decreases |s|
  {
    hide CompareKeys, Compare;
    if |s| == 1 {
      SameKeysLaws(opts, s[0], s[0], s[0]);
      assert Firsts(opts, s[..0]) == [];
    } else if |s| > 1 {
      var n := |s| - 1;
      DedupKeepsFirsts(opts, s[..n]);
      var last := Dedup(opts, s[..n])[|Dedup(opts, s[..n])| - 1];
      assert s[..n][n - 1] == s[n - 1];
      EarlierIsNext(opts, s, n);
      SameKeysLaws(opts, s[n], last, s[n - 1]);
      SameKeysLaws(opts, last, s[n - 1], s[n]);
      SameKeysLaws(opts, s[n - 1], s[n], last);
    }
  }

  lemma {:induction false} FirstIsKept(opts: Options, s: seq<Line>, i: nat)
    requires i < |s| && !HasEarlier(opts, s, i)
    ensures s[i] in Firsts(opts, s)
    decreases |s|
  {
    hide SameKeys;
    var n := |s| - 1;
    if i < n {
      EarlierInPrefix(opts, s, n, i);
      FirstIsKept(opts, s[..n], i);
    }
  }

  lemma EarlierInPrefix(opts: Options, s: seq<Line>, n: nat, i: nat)
    requires i < n <= |s|
    ensures HasEarlier(opts, s[..n], i) <==> HasEarlier(opts, s, i)
  {
    hide SameKeys;
    assert forall h :: 0 <= h <= i ==> s[..n][h] == s[h];
  }

  /** Of every class the line that came first in the input is kept: it is `s[i]`, for the class of `s[j]`. */
  lemma {:induction false} EarliestIsKept(opts: Options, s: seq<Line>, j: nat) returns (i: nat)
    requires DistinctPlaces(s) && Sorted(opts, s) && j < |s|
    ensures i <= j && s[i] in Dedup(opts, s) && SameKeys(opts, s[i], s[j])
    ensures forall h :: 0 <= h < |s| && SameKeys(opts, s[i], s[h]) ==> s[i].idx <= s[h].idx
    decreases j
  {
    hide CompareKeys, Compare, Sorted, Dedup, Firsts, SameKeys;
    if HasEarlier(opts, s, j) {
      var h :| 0 <= h < j && SameKeys(opts, s[h], s[j]);
      i := EarliestIsKept(opts, s, h);
      SameKeysLaws(opts, s[i], s[h], s[j]);
    } else {
      i := j;
      FirstIsKept(opts, s, j);
      DedupKeepsFirsts(opts, s);
      SameKeysLaws(opts, s[j], s[j], s[j]);
      forall h | 0 <= h < |s| && SameKeys(opts, s[j], s[h]) ensures s[j].idx <= s[h].idx {
        SameKeysLaws(opts, s[j], s[h], s[j]);
        if h > j { SameKeysIs(opts, s[j], s[h]); SortedIsStable(opts, s, j, h); }
      }
    }
  }

  lemma SameKeysIs(opts: Options, a: Line, b: Line)
    ensures SameKeys(opts, a, b) <==> CompareKeys(opts, a, b, 0) == 0
  {}

  /** No two kept lines have the same keys. */
  lemma {:induction false} KeptAreDistinct(opts: Options, s: seq<Line>, i: nat, j: nat)
    requires i < j < |Firsts(opts, s)|
    ensures !SameKeys(opts, Firsts(opts, s)[i], Firsts(opts, s)[j])
    decreases |s|
  {
    hide SameKeys;
    var n := |s| - 1;
    var f := Firsts(opts, s[..n]);
    if j < |f| {
      KeptAreDistinct(opts, s[..n], i, j);
    } else {
      KeptIsFrom(opts, s[..n], f[i]);
    }
  }

  lemma {:induction false} KeptIsFrom(opts: Options, s: seq<Line>, l: Line)
    requires l in Firsts(opts, s)
    ensures exists h :: 0 <= h < |s| && s[h] == l
    decreases |s|
  {
    var n := |s| - 1;
    if l in Firsts(opts, s[..n]) { KeptIsFrom(opts, s[..n], l); }
  }
}
