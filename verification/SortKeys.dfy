/** How sort compares keys: every way is shown to be the lexicographic order of one sequence of numbers
    for each key. */
module SortKeys {
  import opened CStrings

  // ----- One order for all keys -------------------------------------------------------------------

  function Sign(x: int): (r: int) { if x < 0 then -1 else if x > 0 then 1 else 0 }

  /** Lexicographic order; a prefix comes first. */
  function CmpSeq(x: seq<int>, y: seq<int>): (r: int)
    ensures -1 <= r <= 1
    decreases |x|
  {
    if x == [] then (if y == [] then 0 else -1)
    else if y == [] then 1
    else if x[0] != y[0] then Sign(x[0] - y[0])
    else CmpSeq(x[1..], y[1..])
  }

  lemma {:induction false} CmpAntisymmetric(x: seq<int>, y: seq<int>)
    ensures CmpSeq(y, x) == -CmpSeq(x, y) && (CmpSeq(x, y) == 0 <==> x == y)
    decreases |x|
  {
    if x != [] && y != [] {
      CmpAntisymmetric(x[1..], y[1..]);
      assert x == [x[0]] + x[1..] && y == [y[0]] + y[1..];
    }
  }

  lemma {:induction false} CmpTransitive(x: seq<int>, y: seq<int>, z: seq<int>)
    requires CmpSeq(x, y) <= 0 && CmpSeq(y, z) <= 0
    ensures CmpSeq(x, z) <= 0 && (CmpSeq(x, z) == 0 ==> CmpSeq(x, y) == 0 && CmpSeq(y, z) == 0)
    decreases |x|
  {
    if x != [] && y != [] && z != [] && x[0] == y[0] == z[0] { CmpTransitive(x[1..], y[1..], z[1..]); }
  }

  lemma {:induction false} CmpCommonPrefix(p: seq<int>, x: seq<int>, y: seq<int>)
    ensures CmpSeq(p + x, p + y) == CmpSeq(x, y)
    decreases |p|
  {
    if p == [] {
      assert p + x == x && p + y == y;
    } else {
      assert (p + x)[1..] == p[1..] + x && (p + y)[1..] == p[1..] + y;
      CmpCommonPrefix(p[1..], x, y);
    }
  }

  // ----- C strings --------------------------------------------------------------------------------

  /** The bytes of a string. */
  function Codes(s: string): (r: seq<int>)
    ensures |r| == |s| && forall i :: 0 <= i < |s| ==> r[i] == s[i] as int
  { seq(|s|, i requires 0 <= i < |s| => s[i] as int) }

  /** `strncmp` on `n` bytes that both strings have. */
  method CompareBytes(a: string, i: nat, b: string, j: nat, n: nat) returns (rc: int)
    requires i + n <= |a| && j + n <= |b|
    ensures Sign(rc) == CmpSeq(Codes(a[i..i + n]), Codes(b[j..j + n]))
  {
    var k := 0;
    ghost var x, y := Codes(a[i..i + n]), Codes(b[j..j + n]);
    while k < n && a[i + k] == b[j + k]
      invariant 0 <= k <= n && CmpSeq(x[k..], y[k..]) == CmpSeq(x, y)
    {
      assert x[k..][1..] == x[k + 1..] && y[k..][1..] == y[k + 1..];
      k := k + 1;
    }
    rc := if k == n then 0 else a[i + k] as int - b[j + k] as int;
  }

  // ----- Versions ---------------------------------------------------------------------------------

  /** The number that a run of digits stands for. */
  function Value(d: string): nat
    requires forall i :: 0 <= i < |d| ==> Digit(d[i])
  {
    if d == "" then 0 else
    var n := |d| - 1;
    assert Digit(d[n]);
    10 * Value(d[..n]) + (d[n] as int - '0' as int)
  }

  function DigitsFrom(s: string): (n: nat)
    ensures n <= |s| && (forall i :: 0 <= i < n ==> Digit(s[i])) && (n < |s| ==> !Digit(s[n]))
  { if s == "" || !Digit(s[0]) then 0 else 1 + DigitsFrom(s[1..]) }

  /** The sort key of a version: each run of digits becomes 0 and its number, any other byte is itself. */
  function VersionKey(s: string): seq<int>
    decreases |s|
  {
    if s == "" then []
    else if Digit(s[0]) then
      var n := DigitsFrom(s);
      [0, Value(s[..n])] + VersionKey(s[n..])
    else [s[0] as int] + VersionKey(s[1..])
  }

  lemma TextStep(s: string)
    requires s != "" && !Digit(s[0])
    ensures VersionKey(s) == [s[0] as int] + VersionKey(s[1..])
  {}

  lemma CodesStep(s: string)
    ensures Codes(s) == if s == "" then [] else [s[0] as int] + Codes(s[1..])
  {}

  lemma {:induction false} TextKey(s: string, n: nat)
    requires n <= |s| && forall i :: 0 <= i < n ==> !Digit(s[i])
    ensures VersionKey(s) == Codes(s[..n]) + VersionKey(s[n..])
    decreases n
  {
    hide VersionKey, Codes;
    CodesStep(s[..n]);
    if n == 0 {
      assert s[0..] == s;
    } else {
      TextStep(s);
      TextKey(s[1..], n - 1);
      assert s[1..][..n - 1] == s[..n][1..] && s[1..][n - 1..] == s[n..];
    }
  }

  /** Stretches of text of different length, with an end or a number behind them. */
  lemma {:induction false} CmpText(x: seq<int>, u: seq<int>, y: seq<int>, v: seq<int>)
    requires forall i :: 0 <= i < |x| ==> x[i] > 0
    requires forall i :: 0 <= i < |y| ==> y[i] > 0
    requires (u == [] || u[0] == 0) && (v == [] || v[0] == 0)
    ensures var n := if |x| < |y| then |x| else |y|; var c := CmpSeq(x[..n], y[..n]);
      CmpSeq(x + u, y + v) == if c != 0 then c else if |x| != |y| then Sign(|x| - |y|) else CmpSeq(u, v)
    decreases |x|
  {
    var n := if |x| < |y| then |x| else |y|;
    if x == [] || y == [] {
      assert x == [] ==> x + u == u;
      assert y == [] ==> y + v == v;
      assert x[..n] == [] && y[..n] == [];
    } else {
      assert (x + u)[1..] == x[1..] + u && (y + v)[1..] == y[1..] + v;
      assert x[..n][1..] == x[1..][..n - 1] && y[..n][1..] == y[1..][..n - 1];
      CmpText(x[1..], u, y[1..], v);
    }
  }

  function Power(n: nat): (p: nat)
    ensures p > 0
  { if n == 0 then 1 else 10 * Power(n - 1) }

  predicate Number(d: string) {
    d != "" && (forall i :: 0 <= i < |d| ==> Digit(d[i])) && (|d| > 1 ==> d[0] != '0')
  }

  lemma {:induction false} ValueBounds(d: string)
    requires forall i :: 0 <= i < |d| ==> Digit(d[i])
    ensures Value(d) < Power(|d|)
    ensures d != "" && d[0] != '0' ==> Power(|d| - 1) <= Value(d)
    decreases |d|
  { if d != "" { ValueBounds(d[..|d| - 1]); } }

  lemma {:induction false} PowerAscends(m: nat, n: nat)
    requires m <= n
    ensures Power(m) <= Power(n)
    decreases n
  { if m < n { PowerAscends(m, n - 1); } }

  /** Of numbers without leading zeros the longer is the larger. */
  lemma LongerIsLarger(d: string, e: string)
    requires Number(d) && Number(e) && |d| < |e|
    ensures Value(d) < Value(e)
  {
    ValueBounds(d);
    ValueBounds(e);
    PowerAscends(|d|, |e| - 1);
  }

  /** Of the same length, they compare byte by byte. */
  lemma {:induction false} SameLengthCompares(d: string, e: string)
    requires |d| == |e| && (forall i :: 0 <= i < |d| ==> Digit(d[i]) && Digit(e[i]))
    ensures CmpSeq(Codes(d), Codes(e)) == Sign(Value(d) - Value(e))
    decreases |d|
  {
    if d != "" {
      var n := |d| - 1;
      SameLengthCompares(d[..n], e[..n]);
      CmpSnoc(Codes(d[..n]), Codes(e[..n]), d[n] as int, e[n] as int);
      assert Codes(d) == Codes(d[..n]) + [d[n] as int] && Codes(e) == Codes(e[..n]) + [e[n] as int];
    }
  }

  lemma {:induction false} CmpSnoc(x: seq<int>, y: seq<int>, p: int, q: int)
    requires |x| == |y|
    ensures CmpSeq(x + [p], y + [q]) == if CmpSeq(x, y) != 0 then CmpSeq(x, y) else Sign(p - q)
    decreases |x|
  {
    if x != [] {
      assert (x + [p])[1..] == x[1..] + [p] && (y + [q])[1..] == y[1..] + [q];
      CmpSnoc(x[1..], y[1..], p, q);
    } else {
      assert x + [p] == [p] && y + [q] == [q];
    }
  }

  /** Leading zeros do not count. */
  lemma {:induction false} ZerosDrop(d: string, z: nat)
    requires z <= |d| && (forall i :: 0 <= i < |d| ==> Digit(d[i])) && forall i :: 0 <= i < z ==> d[i] == '0'
    ensures Value(d[z..]) == Value(d)
    decreases |d|
  {
    if z < |d| {
      ZerosDrop(d[..|d| - 1], z);
      assert d[z..][..|d| - z - 1] == d[..|d| - 1][z..];
    } else {
      ZerosAreZero(d);
    }
  }

  lemma {:induction false} ZerosAreZero(d: string)
    requires forall i :: 0 <= i < |d| ==> d[i] == '0'
    ensures Value(d) == 0
    decreases |d|
  { if d != "" { ZerosAreZero(d[..|d| - 1]); } }

  lemma {:induction false} DigitsFromIs(s: string, n: nat)
    requires n <= |s| && (forall i :: 0 <= i < n ==> Digit(s[i])) && (n < |s| ==> !Digit(s[n]))
    ensures DigitsFrom(s) == n
    decreases n
  { if n > 0 { DigitsFromIs(s[1..], n - 1); } }

  lemma NumberKey(s: string, n: nat)
    requires 0 < n <= |s| && (forall i :: 0 <= i < n ==> Digit(s[i])) && (n < |s| ==> !Digit(s[n]))
    ensures VersionKey(s) == [0, Value(s[..n])] + VersionKey(s[n..])
  { DigitsFromIs(s, n); }

  lemma CmpNumbers(p: int, u: seq<int>, q: int, v: seq<int>)
    ensures CmpSeq([0, p] + u, [0, q] + v) == if p != q then Sign(p - q) else CmpSeq(u, v)
    ensures CmpSeq([], [0, q] + v) == -1 && CmpSeq([0, p] + u, []) == 1
  {
    var x, y := [0, p] + u, [0, q] + v;
    assert x[1..] == [p] + u && y[1..] == [q] + v && x[1..][1..] == u && y[1..][1..] == v;
  }

  /** The length of a run of text or of digits of `a` from `i` on. */
  method RunLength(a: string, i: nat, digits: bool) returns (n: nat)
    requires i <= |a|
    ensures i <= n <= |a| && (n < |a| ==> Digit(a[n]) != digits)
    ensures forall k :: i <= k < n ==> Digit(a[k]) == digits
  {
    n := i;
    while n < |a| && Digit(a[n]) == digits
      invariant i <= n <= |a| && forall k :: i <= k < n ==> Digit(a[k]) == digits
    { n := n + 1; }
  }

  method SkipZeros(a: string, i: nat, n: nat) returns (z: nat)
    requires i < n <= |a| && forall k :: i <= k < n ==> Digit(a[k])
    ensures i <= z < n && Number(a[z..n]) && Value(a[z..n]) == Value(a[i..n])
  {
    z := i;
    while a[z] == '0' && n - z > 1
      invariant i <= z < n && forall k :: i <= k < z ==> a[k] == '0'
    { z := z + 1; }
    ZerosDrop(a[i..n], z - i);
    assert a[i..n][z - i..] == a[z..n];
  }

  /** The numbers at the front of what is left of both: their order, by length and then by bytes. */
  method CompareNumbers(a: string, i: nat, n: nat, b: string, j: nat, m: nat) returns (rc: int)
    requires i < n <= |a| && forall k :: i <= k < n ==> Digit(a[k])
    requires j < m <= |b| && forall k :: j <= k < m ==> Digit(b[k])
    ensures Sign(rc) == Sign(Value(a[i..n]) - Value(b[j..m]))
  {
    hide Value, CmpSeq;
    var z := SkipZeros(a, i, n);
    var y := SkipZeros(b, j, m);
    if n - z != m - y {
      if n - z < m - y { LongerIsLarger(a[z..n], b[y..m]); } else { LongerIsLarger(b[y..m], a[z..n]); }
      return if n - z < m - y then -1 else 1;
    }
    rc := CompareBytes(a, z, b, y, n - z);
    assert a[z..z + (n - z)] == a[z..n] && b[y..y + (n - z)] == b[y..m];
    SameLengthCompares(a[z..n], b[y..m]);
  }

  lemma KeyHead(s: string)
    requires s == "" || Digit(s[0])
    ensures VersionKey(s) == [] || VersionKey(s)[0] == 0
  {}

  /** What one round over text and number does with the keys of the rest. */
  lemma VersionRound(a: string, an: nat, b: string, bn: nat)
    requires NoNul(a) && NoNul(b) && an <= |a| && bn <= |b|
    requires (forall k :: 0 <= k < an ==> !Digit(a[k])) && (an < |a| ==> Digit(a[an]))
    requires (forall k :: 0 <= k < bn ==> !Digit(b[k])) && (bn < |b| ==> Digit(b[bn]))
    ensures var n := if an < bn then an else bn; var c := CmpSeq(Codes(a[..n]), Codes(b[..n]));
      CmpSeq(VersionKey(a), VersionKey(b)) ==
        if c != 0 then c else if an != bn then Sign(an - bn) else CmpSeq(VersionKey(a[an..]), VersionKey(b[bn..]))
  {
    hide CmpSeq, VersionKey;
    var n := if an < bn then an else bn;
    TextKey(a, an);
    TextKey(b, bn);
    KeyHead(a[an..]);
    KeyHead(b[bn..]);
    assert Codes(a[..an])[..n] == Codes(a[..n]) && Codes(b[..bn])[..n] == Codes(b[..n]);
    CmpText(Codes(a[..an]), VersionKey(a[an..]), Codes(b[..bn]), VersionKey(b[bn..]));
  }

  /** `cmp_version`: the order of the version keys. */
  method CmpVersion(a: string, b: string) returns (rc: int)
    requires NoNul(a) && NoNul(b)
    ensures Sign(rc) == CmpSeq(VersionKey(a), VersionKey(b))
  {
    hide CmpSeq, VersionKey, Value;
    var i, j: nat := 0, 0;
    assert a[0..] == a && b[0..] == b;
    while i < |a| || j < |b|
      invariant i <= |a| && j <= |b|
      invariant CmpSeq(VersionKey(a[i..]), VersionKey(b[j..])) == CmpSeq(VersionKey(a), VersionKey(b))
      decreases |a| - i + |b| - j
    {
      var an := RunLength(a, i, false);
      var bn := RunLength(b, j, false);
      VersionRound(a[i..], an - i, b[j..], bn - j);
      assert a[i..][an - i..] == a[an..] && b[j..][bn - j..] == b[bn..];
      var n := if an - i < bn - j then an - i else bn - j;
      assert a[i..][..n] == a[i..i + n] && b[j..][..n] == b[j..j + n];
      rc := CompareBytes(a, i, b, j, n);
      if rc != 0 { return; }
      if an - i != bn - j { return if an - i < bn - j then -1 else 1; }
      i, j := an, bn;
      var nda := RunLength(a, i, true);
      var ndb := RunLength(b, j, true);
      VersionNumbers(a, i, nda, b, j, ndb);
      if nda == i && ndb == j { break; }
      if nda == i || ndb == j { return if nda == i then -1 else 1; }
      rc := CompareNumbers(a, i, nda, b, j, ndb);
      if rc != 0 { return; }
      i, j := nda, ndb;
    }
    EmptyKeys();
    assert a[|a|..] == "" && b[|b|..] == "";
    rc := 0;
  }

  lemma EmptyKeys()
    ensures VersionKey("") == [] && CmpSeq(VersionKey(""), VersionKey("")) == 0
  {}

  lemma VersionNumbers(a: string, i: nat, n: nat, b: string, j: nat, m: nat)
    requires i <= n <= |a| && (forall k :: i <= k < n ==> Digit(a[k])) && (n < |a| ==> !Digit(a[n]))
    requires j <= m <= |b| && (forall k :: j <= k < m ==> Digit(b[k])) && (m < |b| ==> !Digit(b[m]))
    requires (n == i ==> i == |a|) && (m == j ==> j == |b|)
    ensures CmpSeq(VersionKey(a[i..]), VersionKey(b[j..])) ==
      if n == i then (if m == j then 0 else -1)
      else if m == j then 1
      else if Value(a[i..n]) != Value(b[j..m]) then Sign(Value(a[i..n]) - Value(b[j..m]))
      else CmpSeq(VersionKey(a[n..]), VersionKey(b[m..]))
  {
    hide CmpSeq, VersionKey, Value;
    EmptyKeys();
    if n > i {
      NumberKey(a[i..], n - i);
      assert a[i..][..n - i] == a[i..n] && a[i..][n - i..] == a[n..];
    }
    if m > j {
      NumberKey(b[j..], m - j);
      assert b[j..][..m - j] == b[j..m] && b[j..][m - j..] == b[m..];
    }
    CmpNumbers(if n > i then Value(a[i..n]) else 0, VersionKey(a[n..]),
      if m > j then Value(b[j..m]) else 0, VersionKey(b[m..]));
  }

  // ----- Other keys -------------------------------------------------------------------------------

  /** `isalnum`, `isprint` and `tolower` of the C locale, which sort runs in. */
  predicate IsAlnum(c: char) { Digit(c) || 'a' <= c <= 'z' || 'A' <= c <= 'Z' }
  predicate IsPrint(c: char) { ' ' <= c <= '~' }
  function Lower(c: char): char { if 'A' <= c <= 'Z' then c - 'A' + 'a' else c }

  datatype Flags =
    Flags(numeric: bool, version: bool, month: bool, blanks: bool, dict: bool, fold: bool, nonprint: bool)

  predicate Dropped(c: char, f: Flags) {
    (f.dict && !IsAlnum(c) && !Space(c)) || (f.nonprint && !IsPrint(c))
  }

  function FilterFrom(s: string, f: Flags, room: nat): string {
    if s == "" || room == 0 then ""
    else if Dropped(s[0], f) then FilterFrom(s[1..], f, room)
    else [if f.fold then Lower(s[0]) else s[0]] + FilterFrom(s[1..], f, room - 1)
  }

  function SkipSpaces(s: string): string { if s != "" && Space(s[0]) then SkipSpaces(s[1..]) else s }

  /** `apply_key_flags` with its buffer of 4096 bytes. */
  function Filter(s: string, f: Flags): string {
    if !f.blanks && !f.dict && !f.fold && !f.nonprint then s
    else FilterFrom(if f.blanks then SkipSpaces(s) else s, f, 4095)
  }

  const LLONG_MAX := 0x7fff_ffff_ffff_ffff

  /** `strtoll` in base 10: nothing if there are no digits; out of range it saturates. */
  function Strtoll(s: string): seq<int> {
    var t := SkipSpaces(s);
    var signed := t != "" && (t[0] == '-' || t[0] == '+');
    var d := if signed then t[1..] else t;
    var n := DigitsFrom(d);
    if n == 0 then [] else
    var v: int := if signed && t[0] == '-' then -(Value(d[..n]) as int) else Value(d[..n]);
    [if v > LLONG_MAX then LLONG_MAX else if v < -LLONG_MAX - 1 then -LLONG_MAX - 1 else v]
  }

  const MONTHS := ["jan", "feb", "mar", "apr", "may", "jun", "jul", "aug", "sep", "oct", "nov", "dec"]

  function SkipBlanks(s: string): string { if s != "" && (s[0] == ' ' || s[0] == '\t') then SkipBlanks(s[1..]) else s }

  function LowerAll(s: string): string { if s == "" then "" else [Lower(s[0])] + LowerAll(s[1..]) }

  function MonthFrom(w: string, m: nat): int
    requires m <= 12
    decreases 12 - m
  { if m == 12 then -1 else if w == MONTHS[m] then m else MonthFrom(w, m + 1) }

  /** `month_index`: the first three bytes behind blanks. */
  function Month(s: string): int {
    var t := SkipBlanks(s);
    MonthFrom(LowerAll(if |t| > 3 then t[..3] else t), 0)
  }

  /** The key that a string is compared by. */
  function SortKey(s: string, f: Flags): seq<int> {
    var t := Filter(s, f);
    if f.numeric then Strtoll(t)
    else if f.version then VersionKey(t)
    else if f.month then [Month(t)]
    else Codes(t)
  }

  lemma CodesCut(s: string, n: nat)
    requires n <= |s|
    ensures Codes(s) == Codes(s[0..n]) + Codes(s[n..])
  {}

  lemma CmpEnds(x: seq<int>, y: seq<int>)
    requires x == [] || y == []
    ensures CmpSeq(x, y) == Sign(|x| - |y|)
  {}

  method CompareStrings(a: string, b: string) returns (rc: int)
    ensures Sign(rc) == CmpSeq(Codes(a), Codes(b))
  {
    var n := if |a| < |b| then |a| else |b|;
    rc := CompareBytes(a, 0, b, 0, n);
    hide CmpSeq;
    CodesCut(a, n);
    CodesCut(b, n);
    CmpStretch(Codes(a[0..n]), Codes(a[n..]), Codes(b[0..n]), Codes(b[n..]));
    CmpEnds(Codes(a[n..]), Codes(b[n..]));
    if rc == 0 { rc := |a| - |b|; }
  }

  lemma {:induction false} CmpStretch(x: seq<int>, u: seq<int>, y: seq<int>, v: seq<int>)
    requires |x| == |y|
    ensures CmpSeq(x + u, y + v) == if CmpSeq(x, y) != 0 then CmpSeq(x, y) else CmpSeq(u, v)
    decreases |x|
  {
    if x == [] {
      assert x + u == u && y + v == v;
    } else {
      assert (x + u)[1..] == x[1..] + u && (y + v)[1..] == y[1..] + v;
      CmpStretch(x[1..], u, y[1..], v);
    }
  }

  lemma {:induction false} SuffixNoNul(s: string)
    requires NoNul(s)
    ensures NoNul(SkipSpaces(s))
  { if s != "" && Space(s[0]) { SuffixNoNul(s[1..]); } }

  lemma {:induction false} FilterNoNul(s: string, f: Flags, room: nat)
    requires NoNul(s)
    ensures NoNul(FilterFrom(s, f, room))
    decreases |s|
  {
    if s != "" && room > 0 {
      FilterNoNul(s[1..], f, if Dropped(s[0], f) then room else room - 1);
    }
  }

  /** `key_compare_strings`. */
  method KeyCompareStrings(a: string, b: string, f: Flags, reverse: bool) returns (rc: int)
    requires NoNul(a) && NoNul(b)
    ensures Sign(rc) == (if reverse then -1 else 1) * CmpSeq(SortKey(a, f), SortKey(b, f))
  {
    hide FilterFrom, SkipSpaces, MonthFrom, SkipBlanks, LowerAll, Strtoll, VersionKey, Codes;
    var s, t := Filter(a, f), Filter(b, f);
    if f.numeric {
      var x, y := Strtoll(s), Strtoll(t);
      rc := if x == [] && y == [] then 0 else if x == [] then -1 else if y == [] then 1
        else if x[0] < y[0] then -1 else if x[0] > y[0] then 1 else 0;
      StrtollShort(s);
      StrtollShort(t);
    } else if f.version {
      SuffixNoNul(a);
      SuffixNoNul(b);
      FilterNoNul(if f.blanks then SkipSpaces(a) else a, f, 4095);
      FilterNoNul(if f.blanks then SkipSpaces(b) else b, f, 4095);
      rc := CmpVersion(s, t);
    } else if f.month {
      var m, n := Month(s), Month(t);
      rc := if m < n then -1 else if m > n then 1 else 0;
    } else {
      rc := CompareStrings(s, t);
    }
    if reverse { rc := -rc; }
  }

  lemma StrtollShort(s: string)
    ensures |Strtoll(s)| <= 1
  {}
}
