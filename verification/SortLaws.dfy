/** What the flags of sort mean: numbers as they are printed, months by name, bytes that do not count, letters
    of either case, and `-r`. */
module SortLaws {
  import opened CStrings
  import opened SortKeys
  import opened SortOrders
  import N = ArithLaws

  predicate Spaces(w: string) { forall i :: 0 <= i < |w| ==> Space(w[i]) }

  lemma {:induction false} SpacesSkipped(w: string, s: string)
    requires Spaces(w) && (s == "" || !Space(s[0]))
    ensures SkipSpaces(w + s) == s
  {
    if w == "" {
      assert w + s == s;
    } else {
      assert (w + s)[0] == w[0] && (w + s)[1..] == w[1..] + s;
      SpacesSkipped(w[1..], s);
    }
  }

  // ----- Numbers ------------------------------------------------------------------------------

  predicate Digits(t: string) { forall i :: 0 <= i < |t| ==> Digit(t[i]) }

  lemma ValueStep(t: string, c: char)
    requires Digits(t) && Digit(c)
    ensures Digits(t + [c]) && Value(t + [c]) == 10 * Value(t) + (c as int - '0' as int)
  { assert (t + [c])[..|t|] == t; }

  lemma DigitIs(d: nat)
    requires d < 10
    ensures Digit(N.DigitChar(d, false)) && N.DigitChar(d, false) as int == '0' as int + d
  {}

  /** The digits of a printed number have the number as their value. */
  lemma {:induction false} DecimalValue(n: nat)
    ensures var t := N.Decimal(n); t != "" && Digits(t) && Value(t) == n
  {
    var c := N.DigitChar(n % 10, false);
    DigitIs(n % 10);
    N.NumeralSteps(n, 10, false);
    assert Value("") == 0;
    hide N.DigitChar, N.Numeral, Value;
    if n < 10 {
      ValueStep("", c);
    } else {
      DecimalValue(n / 10);
      ValueStep(N.Decimal(n / 10), c);
    }
  }

  lemma {:induction false} DigitsTaken(t: string, rest: string)
    requires Digits(t) && (rest == "" || !Digit(rest[0]))
    ensures DigitsFrom(t + rest) == |t|
  {
    if t == "" {
      assert t + rest == rest;
    } else {
      assert (t + rest)[0] == t[0] && (t + rest)[1..] == t[1..] + rest;
      DigitsTaken(t[1..], rest);
    }
  }

  function Clamped(v: int): int {
    if v > LLONG_MAX then LLONG_MAX else if v < -LLONG_MAX - 1 then -LLONG_MAX - 1 else v
  }

  /** The key of `-n` is the number that is printed behind white space, with its sign; other text may follow. */
  lemma NumberKey(w: string, sign: string, n: nat, rest: string)
    requires Spaces(w) && (sign == "" || sign == "-" || sign == "+") && (rest == "" || !Digit(rest[0]))
    ensures Strtoll(w + (sign + (N.Decimal(n) + rest))) == [Clamped(if sign == "-" then 0 - n else n)]
  {
    var t := N.Decimal(n);
    var d := t + rest;
    DecimalValue(n);
    hide N.Decimal, SkipSpaces, DigitsFrom, Value;
    assert d[0] == t[0] && d[..|t|] == t;
    SpacesSkipped(w, sign + d);
    DigitsTaken(t, rest);
    if sign == "" { assert sign + d == d; } else { assert (sign + d)[0] == sign[0] && (sign + d)[1..] == d; }
  }

  /** Text without a number has no key and comes first. */
  lemma NoNumber(w: string, s: string)
    requires Spaces(w) && (s == "" || (!Space(s[0]) && !Digit(s[0]) && s[0] != '-' && s[0] != '+'))
    ensures Strtoll(w + s) == []
  { SpacesSkipped(w, s); }

  const PLAIN: Flags := Flags(false, false, false, false, false, false, false)
  const NUMERIC: Flags := PLAIN.(numeric := true)

  /** Text that sort takes as it is. */
  predicate Whole(s: string) { |s| <= 4095 && NoNul(s) && (s != "" ==> s[|s| - 1] != '\n' && s[|s| - 1] != '\r') }

  lemma {:induction false} CStringWhole(s: string)
    requires NoNul(s)
    ensures CString(s) == s
  { if s != "" { assert s[0] in s; CStringWhole(s[1..]); } }

  lemma WholeTaken(s: string)
    requires Whole(s)
    ensures WholeText(s) == s
  { CStringWhole(s); }

  lemma DecimalWhole(n: nat)
    requires |N.Decimal(n)| <= 4095
    ensures Whole(N.Decimal(n))
  {
    DecimalValue(n);
    var t := N.Decimal(n);
    assert NoNul(t) by { forall i | 0 <= i < |t| ensures t[i] != '\0' { assert Digit(t[i]); } }
    assert Digit(t[|t| - 1]);
  }

  /** `sort -n` orders printed numbers by their size, with `-r` the other way round, and equal ones as they came. */
  lemma NumbersInOrder(a: Line, b: Line, m: nat, n: nat, reverse: bool)
    requires a.text == N.Decimal(m) && b.text == N.Decimal(n) && |a.text| <= 4095 && |b.text| <= 4095
    requires m <= LLONG_MAX && n <= LLONG_MAX
    ensures var c := Compare(Options([], NUMERIC, reverse), a, b);
      if m == n then c == Sign(a.idx - b.idx) else c < 0 <==> if reverse then m > n else m < n
  {
    var opts := Options([], NUMERIC, reverse);
    DecimalWhole(m);
    DecimalWhole(n);
    WholeTaken(a.text);
    WholeTaken(b.text);
    hide Whole, WholeText, Strtoll, N.Decimal;
    DecimalKey(m);
    DecimalKey(n);
    assert LineKey(opts, a, 0) == [m as int] && LineKey(opts, b, 0) == [n as int];
    hide LineKey;
    KeysStep(opts, a, b, 0);
    KeysEnd(opts, a, b);
    assert CmpSeq([m as int], [n as int]) == Sign(m - n);
  }

  lemma DecimalKey(n: nat)
    requires n <= LLONG_MAX
    ensures SortKey(N.Decimal(n), NUMERIC) == [n as int]
  {
    NumberKey("", "", n, "");
    hide Strtoll, N.Decimal;
    assert "" + ("" + (N.Decimal(n) + "")) == N.Decimal(n);
  }

  // ----- `-r` ---------------------------------------------------------------------------------

  /** `-r` turns the order of the keys round. */
  lemma {:induction false} ReverseTurns(opts: Options, a: Line, b: Line, k: nat)
    requires k <= KeyCount(opts)
    ensures CompareKeys(opts.(reverse := !opts.reverse), a, b, k) == -CompareKeys(opts, a, b, k)
    decreases KeyCount(opts) - k
  {
    hide LineKey, CmpSeq;
    var turned := opts.(reverse := !opts.reverse);
    if k < KeyCount(opts) {
      KeySame(opts, a, k);
      KeySame(opts, b, k);
      ReverseTurns(opts, a, b, k + 1);
    }
  }

  lemma KeySame(opts: Options, l: Line, k: nat)
    requires k < KeyCount(opts)
    ensures LineKey(opts.(reverse := !opts.reverse), l, k) == LineKey(opts, l, k)
  {}

  /** The `-r` of a key turns that key alone; with `-r` of the command the two cancel. */
  lemma KeyReverseTurns(opts: Options, a: Line, b: Line, k: nat)
    requires k < |opts.keys|
    ensures var key := opts.keys[k];
      var turned := opts.(keys := opts.keys[k := key.(reverse := !key.reverse)]);
      && CompareKey(turned, a, b, k) == -CompareKey(opts, a, b, k)
      && (forall j :: 0 <= j < |opts.keys| && j != k ==> CompareKey(turned, a, b, j) == CompareKey(opts, a, b, j))
      && CompareKey(turned.(reverse := !opts.reverse), a, b, k) == CompareKey(opts, a, b, k)
  { hide SortKey, CString, CmpSeq; }

  // ----- Months -------------------------------------------------------------------------------

  const CALENDAR: seq<string> := ["JAN", "FEB", "MAR", "APR", "MAY", "JUN", "JUL", "AUG", "SEP", "OCT", "NOV", "DEC"]

  /** The letter at the same place of the other alphabet. */
  predicate OtherCase(c: char, up: char) { exists i: nat :: i < 26 && LOWERS[i] == c && UPPERS[i] == up }

  lemma LowerLetters(c: char)
    ensures forall up :: OtherCase(c, up) ==> Lower(up) == c == Lower(c)
    ensures c !in UPPERS ==> Lower(c) == c
  {
    forall up | OtherCase(c, up) ensures Lower(up) == c == Lower(c) {
      var i: nat :| i < 26 && LOWERS[i] == c && UPPERS[i] == up;
      LettersAre(i);
    }
    if 'A' <= c <= 'Z' { LettersAre(c as int - 'A' as int); }
  }

  predicate BlankText(w: string) { forall i :: 0 <= i < |w| ==> w[i] == ' ' || w[i] == '\t' }

  lemma {:induction false} BlanksSkipped(w: string, s: string)
    requires BlankText(w) && (s == "" || (s[0] != ' ' && s[0] != '\t'))
    ensures SkipBlanks(w + s) == s
  {
    if w == "" {
      assert w + s == s;
    } else {
      assert (w + s)[0] == w[0] && (w + s)[1..] == w[1..] + s;
      BlanksSkipped(w[1..], s);
    }
  }

  /** `s` spells `name`, which is in capitals, with letters of either case. */
  predicate Spells(s: string, name: string) {
    |s| == |name| && forall i :: 0 <= i < |s| ==> s[i] == name[i] || OtherCase(s[i], name[i])
  }

  lemma MonthName(m: nat)
    requires m < 12
    ensures |CALENDAR[m]| == |MONTHS[m]| == 3 && |MONTHS| == |CALENDAR| == 12
    ensures forall i :: 0 <= i < 3 ==> Lower(CALENDAR[m][i]) == MONTHS[m][i]
  {}

  lemma MonthsDiffer(k: nat, m: nat)
    requires k < m < 12
    ensures MONTHS[k] != MONTHS[m]
  {
    assert MONTHS[k][0] != MONTHS[m][0] || MONTHS[k][1] != MONTHS[m][1] || MONTHS[k][2] != MONTHS[m][2];
  }

  lemma {:induction false} MonthFound(k: nat, m: nat)
    requires k <= m < 12
    ensures MonthFrom(MONTHS[m], k) == m
    decreases m - k
  {
    if k < m {
      MonthsDiffer(k, m);
      hide MONTHS;
      MonthFound(k + 1, m);
    }
  }

  lemma LowerThree(s: string)
    requires |s| == 3
    ensures LowerAll(s) == [Lower(s[0]), Lower(s[1]), Lower(s[2])]
  {
    assert s[1..][1..] == [s[2]] && s[1..][1..][1..] == "";
    assert LowerAll(s[1..][1..]) == [Lower(s[2])] + LowerAll("");
    assert LowerAll(s[1..]) == [Lower(s[1])] + LowerAll(s[1..][1..]);
  }

  /** The key of `-M` is the number of the month whose first three letters stand behind blanks. */
  lemma MonthKey(w: string, s: string, rest: string, m: nat)
    requires BlankText(w) && m < 12 && Spells(s, CALENDAR[m])
    ensures Month(w + (s + rest)) == m
  {
    MonthName(m);
    MonthFound(0, m);
    var t := s + rest;
    forall i | 0 <= i < 3 ensures Lower(s[i]) == MONTHS[m][i] { SpeltLetter(s[i], CALENDAR[m][i]); }
    hide MONTHS, CALENDAR, Lower, MonthFrom, Spells;
    hide LowerAll, SkipBlanks;
    var u := if |t| > 3 then t[..3] else t;
    assert u == s;
    LowerThree(s);
    assert LowerAll(s) == MONTHS[m];
    NoBlank(s[0], MONTHS[m][0], m);
    BlanksSkipped(w, t);
  }

  lemma SpeltLetter(c: char, up: char)
    requires c == up || OtherCase(c, up)
    ensures Lower(c) == Lower(up)
  { LowerLetters(c); }

  lemma NoBlank(c: char, l: char, m: nat)
    requires m < 12 && Lower(c) == l == MONTHS[m][0]
    ensures c != ' ' && c != '\t'
  {}

  // ----- Bytes that do not count --------------------------------------------------------------

  const PUNCTUATION: string := "!\"#$%&'()*+,-./" + ":;<=>?@" + "[\\]^_`" + "{|}~"

  lemma PunctuationIs(c: char)
    requires c in PUNCTUATION
    ensures !IsAlnum(c) && !Space(c) && IsPrint(c)
  {}

  lemma LetterIs(c: char)
    ensures c in LOWERS || c in UPPERS ==> IsAlnum(c) && IsPrint(c)
  {
    if i: nat :| i < |LOWERS| && LOWERS[i] == c { LettersAre(i); }
    if i: nat :| i < |UPPERS| && UPPERS[i] == c { LettersAre(i); }
  }

  /** `-d` drops punctuation and what is not printed, and `-i` what is not printed; letters, digits and blanks
      stay. */
  lemma BytesDropped(c: char, f: Flags)
    ensures c in PUNCTUATION ==> (Dropped(c, f) <==> f.dict)
    ensures c in LOWERS || c in UPPERS || c in "0123456789 " ==> !Dropped(c, f)
    ensures c > '~' || c < '\t' ==> (Dropped(c, f) <==> f.dict || f.nonprint)
    ensures c == '\t' ==> (Dropped(c, f) <==> f.nonprint)
  {
    if c in PUNCTUATION { PunctuationIs(c); }
    LetterIs(c);
    hide PUNCTUATION, LOWERS, UPPERS;
  }

  /** A byte that is dropped might as well not be there. */
  lemma {:induction false} DroppedIsAbsent(a: string, c: char, b: string, f: Flags, room: nat)
    requires Dropped(c, f)
    ensures FilterFrom(a + [c] + b, f, room) == FilterFrom(a + b, f, room)
    decreases |a|
  {
    var t, u := a + [c] + b, a + b;
    if a == "" {
      assert t[0] == c && t[1..] == b == u;
    } else {
      assert t[0] == a[0] == u[0] && t[1..] == a[1..] + [c] + b && u[1..] == a[1..] + b;
      DroppedIsAbsent(a[1..], c, b, f, room);
      if room > 0 { DroppedIsAbsent(a[1..], c, b, f, room - 1); }
    }
  }

  /** What is not dropped stays, in order, and `-f` only changes the case of letters. */
  lemma {:induction false} OthersStay(s: string, f: Flags, room: nat)
    requires |s| <= room && forall i :: 0 <= i < |s| ==> !Dropped(s[i], f)
    ensures var t := FilterFrom(s, f, room);
      |t| == |s| && forall i :: 0 <= i < |s| ==> t[i] == if f.fold then Lower(s[i]) else s[i]
    decreases |s|
  {
    hide Dropped, Lower;
    if s != "" { OthersStay(s[1..], f, room - 1); }
  }

  /** `-b` skips the white space in front. */
  lemma BlanksDoNotCount(w: string, s: string, f: Flags)
    requires f.blanks && Spaces(w) && (s == "" || !Space(s[0]))
    ensures Filter(w + s, f) == Filter(s, f)
  {
    SpacesSkipped(w, s);
    SpacesSkipped("", s);
    assert "" + s == s;
    hide SkipSpaces, FilterFrom;
  }
}
