/** What words become, said without the shell's own means: `$@` outside quotes under every kind of IFS, and
    words in which nothing separates. */
module WordParameters {
  import opened CStrings
  import opened Markers
  import opened WordFields
  import opened WordEncoding
  import opened WordGuards
  import opened WordPlaceholders
  import opened WordMeaning
  import opened WordLosses

  // ----- Joining two texts by a separator -----------------------------------------------------

  /** The white space of C: blank, tab, newline, vertical tab, form feed and carriage return. */
  const WHITE: string := " \t\n\U{000B}\U{000C}\r"

  /** Of the unquoted bytes those of IFS separate, white space among them in its own way; quoted bytes do not. */
  lemma SeparatorKinds(cfg: Config, c: char, prot: bool)
    ensures White(cfg, Datum(c, prot)) <==> !prot && c in cfg.ifs && c in WHITE
    ensures Mark(cfg, Datum(c, prot)) <==> !prot && c in cfg.ifs && c !in WHITE
  {}

  /** No cell of the text is a boundary. */
  predicate Soft(cfg: Config, t: Text) { forall j :: 0 <= j < |t| ==> !Hard(cfg, t[j]) }

  /** The last cell that is not white is there, and is no separator. */
  predicate EndsInData(cfg: Config, t: Text) {
    t != [] && if White(cfg, t[|t| - 1]) then EndsInData(cfg, t[..|t| - 1]) else !Mark(cfg, t[|t| - 1])
  }

  /** The first cell that is not white is a separator. */
  predicate StartsWithMark(cfg: Config, t: Text) {
    t != [] && if White(cfg, t[0]) then StartsWithMark(cfg, t[1..]) else Mark(cfg, t[0])
  }

  lemma {:induction false} EndsBehind(cfg: Config, a: Text, k: nat)
    requires k < |a| && Mark(cfg, a[k])
    ensures EndsInData(cfg, a) == EndsInData(cfg, a[k + 1..])
    decreases |a|
  {
    var n := |a| - 1;
    if k < n && White(cfg, a[n]) {
      EndsBehind(cfg, a[..n], k);
      assert a[k + 1..][..n - k - 1] == a[..n][k + 1..];
    }
  }

  /** Without other separators, data means a word. */
  lemma {:induction false} DataIsWord(cfg: Config, a: Text)
    requires forall j :: 0 <= j < |a| ==> !Mark(cfg, a[j])
    ensures EndsInData(cfg, a) <==> Words(cfg, a) != []
    decreases |a|
  {
    if a != [] {
      var n := |a| - 1;
      if White(cfg, a[n]) {
        DataIsWord(cfg, a[..n]);
        assert a == a[..n] + [a[n]];
        WordsThenWhite(cfg, a[..n], [a[n]], []);
        assert a[..n] + [a[n]] + [] == a;
      } else {
        SolidIsWord(cfg, a, n);
      }
    }
  }

  lemma {:induction false} SolidIsWord(cfg: Config, a: Text, n: nat)
    requires n < |a| && !White(cfg, a[n])
    ensures Words(cfg, a) != []
    decreases |a|
  {
    if White(cfg, a[0]) { assert a[1..][n - 1] == a[n]; SolidIsWord(cfg, a[1..], n - 1); }
  }

  lemma RunAcross(cfg: Config, a: Text, x: Text, b: Text, k: nat)
    requires |x| == 1 && White(cfg, x[0]) && a != [] && !White(cfg, a[0]) && k == NonWhiteRun(cfg, a)
    ensures k > 0 && Words(cfg, a) == [a[..k]] + Words(cfg, a[k..])
    ensures Words(cfg, a + x + b) == [a[..k]] + Words(cfg, a[k..] + x + b)
  {
    hide White, Words;
    var t := a + x + b;
    assert k == |a| ==> t[k] == x[0];
    WordsOfRun(cfg, t, k);
    WordsOfRun(cfg, a, k);
    assert t[..k] == a[..k] && t[k..] == a[k..] + x + b;
  }

  /** White space keeps the words of two texts apart. */
  lemma {:induction false} WordsThenWhite(cfg: Config, a: Text, x: Text, b: Text)
    requires |x| == 1 && White(cfg, x[0])
    ensures Words(cfg, a + x + b) == Words(cfg, a) + Words(cfg, b)
    decreases |a|
  {
    var t := a + x + b;
    if a == [] {
      assert t[0] == x[0] && t[1..] == b;
    } else if White(cfg, a[0]) {
      assert t[1..] == a[1..] + x + b;
      WordsThenWhite(cfg, a[1..], x, b);
    } else {
      var k := NonWhiteRun(cfg, a);
      RunAcross(cfg, a, x, b, k);
      WordsThenWhite(cfg, a[k..], x, b);
    }
  }

  lemma {:induction false} MarkFirst(cfg: Config, b: Text)
    requires Soft(cfg, b)
    ensures var m := FirstStop(cfg, b); StartsWithMark(cfg, b) <==> m < |b| && Words(cfg, b[..m]) == []
    decreases |b|
  {
    if b != [] {
      var m := FirstStop(cfg, b);
      if White(cfg, b[0]) {
        MarkFirst(cfg, b[1..]);
        assert !Mark(cfg, b[0]) && !Hard(cfg, b[0]);
        assert b[..m][1..] == b[1..][..m - 1];
      } else if !Mark(cfg, b[0]) {
        SolidIsWord(cfg, b[..m], 0);
      }
    }
  }

  lemma FirstStopIs(cfg: Config, t: Text, k: nat)
    requires k <= |t| && (k < |t| ==> Mark(cfg, t[k]) || Hard(cfg, t[k]))
    requires forall j :: 0 <= j < k ==> !Mark(cfg, t[j]) && !Hard(cfg, t[j])
    ensures FirstStop(cfg, t) == k
  {}

  /** A piece that a separator ends, with what is behind. */
  function Ended(w: seq<Text>, r: seq<Text>): seq<Text> { (if w == [] then [[]] else w) + r }

  lemma FieldsAtStop(cfg: Config, t: Text, k: nat)
    requires k == FirstStop(cfg, t) && (k < |t| ==> !Hard(cfg, t[k]))
    ensures var w := Words(cfg, t[..k]);
      Fields(cfg, t) == if k == |t| then w else Ended(w, Fields(cfg, t[k + 1..]))
  { hide Words; }

  lemma SoftPart(cfg: Config, t: Text, k: nat)
    requires Soft(cfg, t) && k <= |t|
    ensures Soft(cfg, t[k..])
  {}

  lemma Across(a: Text, x: Text, b: Text, m: nat)
    requires |x| == 1 && m <= |b|
    ensures var t := a + x + b;
      && |t| == |a| + 1 + |b| && t[..|a| + 1 + m] == a + x + b[..m] && t[|a| + 1 + m..] == b[m..]
      && (forall j :: 0 <= j < |a| ==> t[j] == a[j]) && t[|a|] == x[0]
      && forall j :: |a| + 1 <= j < |t| ==> t[j] == b[j - |a| - 1]
  {}

  lemma StopAcross(cfg: Config, a: Text, x: Text, b: Text)
    requires |x| == 1 && White(cfg, x[0]) && !Hard(cfg, x[0]) && FirstStop(cfg, a) == |a|
    ensures FirstStop(cfg, a + x + b) == |a| + 1 + FirstStop(cfg, b)
  {
    assert !Mark(cfg, x[0]);
    hide White, Mark, Hard;
    Across(a, x, b, 0);
    FirstStopIs(cfg, a + x + b, |a| + 1 + FirstStop(cfg, b));
  }

  /** `a` has no separator but white space: the piece goes on into `b`. */
  lemma PieceGoesOn(cfg: Config, a: Text, x: Text, b: Text)
    requires Soft(cfg, b) && |x| == 1 && White(cfg, x[0]) && !Hard(cfg, x[0]) && FirstStop(cfg, a) == |a|
    ensures var m := FirstStop(cfg, b); var w := Words(cfg, a) + Words(cfg, b[..m]);
      Fields(cfg, a + x + b) == if m == |b| then w else Ended(w, Fields(cfg, b[m + 1..]))
  {
    hide *;
    var m := FirstStop(cfg, b);
    StopAcross(cfg, a, x, b);
    StopIsSoft(cfg, b);
    CutAcross(a, x, b, m);
    WordsThenWhite(cfg, a, x, b[..m]);
    PieceOf(cfg, a + x + b, |a| + 1 + m, a + x + b[..m], b, m);
  }

  lemma CutAcross(a: Text, x: Text, b: Text, m: nat)
    requires |x| == 1 && m <= |b|
    ensures var t, k := a + x + b, |a| + 1 + m;
      && |t| == |a| + 1 + |b| && t[..k] == a + x + b[..m]
      && (m < |b| ==> t[k] == b[m] && t[k + 1..] == b[m + 1..])
  {
    Across(a, x, b, m);
    if m < |b| { Across(a, x, b, m + 1); }
  }

  lemma StopIsSoft(cfg: Config, t: Text)
    requires Soft(cfg, t)
    ensures var k := FirstStop(cfg, t); k <= |t| && (k < |t| ==> !Hard(cfg, t[k]))
  {}

  lemma PieceOf(cfg: Config, t: Text, k: nat, u: Text, b: Text, m: nat)
    requires k == FirstStop(cfg, t) && k <= |t| && t[..k] == u && m <= |b| && (k == |t| <==> m == |b|)
    requires k < |t| ==> !Hard(cfg, t[k]) && t[k + 1..] == b[m + 1..]
    ensures Fields(cfg, t) == if m == |b| then Words(cfg, u) else Ended(Words(cfg, u), Fields(cfg, b[m + 1..]))
  {
    hide *;
    FieldsAtStop(cfg, t, k);
  }

  /** How the fields of two texts meet at white space.  It merges with an other separator that follows: then
      the empty field in front of that separator is lost if there is data before. */
  predicate Meets(cfg: Config, a: Text, b: Text, f: seq<Text>) {
    var g := Fields(cfg, b);
    if EndsInData(cfg, a) && StartsWithMark(cfg, b) then g != [] && g[0] == [] && f == Fields(cfg, a) + g[1..]
    else f == Fields(cfg, a) + g
  }

  lemma PiecesMeet(cfg: Config, a: Text, x: Text, b: Text)
    requires Soft(cfg, a) && Soft(cfg, b) && |x| == 1 && White(cfg, x[0]) && !Hard(cfg, x[0])
    requires FirstStop(cfg, a) == |a|
    ensures Meets(cfg, a, b, Fields(cfg, a + x + b))
  {
    hide Fields, Words, EndsInData, StartsWithMark, White, Mark, Hard, FirstStop, Ended, Soft;
    var m := FirstStop(cfg, b);
    StopIsSoft(cfg, b);
    PieceGoesOn(cfg, a, x, b);
    WholePiece(cfg, a);
    FieldsAtStop(cfg, b, m);
    MarkFirst(cfg, b);
    if m < |b| { EmptyFirst(Words(cfg, a), Words(cfg, b[..m]), Fields(cfg, b[m + 1..])); }
  }

  lemma WholePiece(cfg: Config, a: Text)
    requires FirstStop(cfg, a) == |a|
    ensures Fields(cfg, a) == Words(cfg, a) && (EndsInData(cfg, a) <==> Words(cfg, a) != [])
  {
    assert forall j :: 0 <= j < |a| ==> !Mark(cfg, a[j]);
    hide Fields, Words, EndsInData, Mark, FirstStop;
    FieldsAtStop(cfg, a, |a|);
    assert a[..|a|] == a;
    DataIsWord(cfg, a);
  }

  lemma EmptyFirst(wa: seq<Text>, wb: seq<Text>, r: seq<Text>)
    ensures var f, g := Ended(wa + wb, r), Ended(wb, r);
      if wa != [] && wb == [] then g != [] && g[0] == [] && f == wa + g[1..] else f == wa + g
  {}

  lemma {:induction false} WhiteBetween(cfg: Config, a: Text, x: Text, b: Text)
    requires Soft(cfg, a) && Soft(cfg, b) && |x| == 1 && White(cfg, x[0]) && !Hard(cfg, x[0])
    ensures Meets(cfg, a, b, Fields(cfg, a + x + b))
    decreases |a|
  {
    hide *;
    var k := FirstStop(cfg, a);
    StopIsSoft(cfg, a);
    if k < |a| {
      SoftPart(cfg, a, k + 1);
      WhiteBetween(cfg, a[k + 1..], x, b);
      StopInFirst(cfg, a, x, b);
      EndsBehind(cfg, a, k);
      MeetsBehind(cfg, a, b, k, Fields(cfg, a + x + b), Fields(cfg, a[k + 1..] + x + b));
    } else {
      PiecesMeet(cfg, a, x, b);
    }
  }

  /** A separator in the first text ends the same piece in both. */
  lemma StopInFirst(cfg: Config, a: Text, x: Text, b: Text)
    requires FirstStop(cfg, a) < |a| && Soft(cfg, a)
    ensures var k := FirstStop(cfg, a);
      && Fields(cfg, a) == Ended(Words(cfg, a[..k]), Fields(cfg, a[k + 1..]))
      && Fields(cfg, a + x + b) == Ended(Words(cfg, a[..k]), Fields(cfg, a[k + 1..] + x + b))
      && Mark(cfg, a[k])
  {
    var t, k := a + x + b, FirstStop(cfg, a);
    hide Fields, Words, Ended, Mark, Hard;
    FirstStopIs(cfg, t, k);
    FieldsAtStop(cfg, a, k);
    FieldsAtStop(cfg, t, k);
    assert t[..k] == a[..k] && t[k + 1..] == a[k + 1..] + x + b;
  }

  lemma MeetsBehind(cfg: Config, a: Text, b: Text, k: nat, f: seq<Text>, g: seq<Text>)
    requires k < |a| && Meets(cfg, a[k + 1..], b, g) && EndsInData(cfg, a) == EndsInData(cfg, a[k + 1..])
    requires Fields(cfg, a) == Ended(Words(cfg, a[..k]), Fields(cfg, a[k + 1..])) && f == Ended(Words(cfg, a[..k]), g)
    ensures Meets(cfg, a, b, f)
  {
    hide Fields, Words, EndsInData, StartsWithMark;
  }

  /** An other separator ends a field, if need be an empty one. */
  lemma {:induction false} MarkBetween(cfg: Config, a: Text, x: Text, b: Text)
    requires Soft(cfg, a) && |x| == 1 && Mark(cfg, x[0]) && !Hard(cfg, x[0])
    ensures Fields(cfg, a + x + b)
         == Fields(cfg, a) + (if EndsInData(cfg, a) then [] else [[]]) + Fields(cfg, b)
    decreases |a|
  {
    hide Fields, Words, EndsInData;
    var t, k := a + x + b, FirstStop(cfg, a);
    FirstStopIs(cfg, t, k);
    FieldsAtStop(cfg, a, k);
    FieldsAtStop(cfg, t, k);
    if k < |a| {
      assert t[..k] == a[..k] && t[k + 1..] == a[k + 1..] + x + b;
      SoftPart(cfg, a, k + 1);
      EndsBehind(cfg, a, k);
      MarkBetween(cfg, a[k + 1..], x, b);
    } else {
      assert t[..k] == a == a[..k] && t[k + 1..] == b;
      DataIsWord(cfg, a);
    }
  }

  // ----- `$@` under an IFS that is not empty --------------------------------------------------

  /** The fields of each parameter on its own, one parameter after another. */
  function EachSplit(ifs: string, ps: seq<string>): seq<string> {
    if ps == [] then []
    else Values(Fields(Config(ifs, false), AsData(ps[0], false))) + EachSplit(ifs, ps[1..])
  }

  /** The first byte of the parameters that is not white space is a separator. */
  predicate SomeStartsWithMark(cfg: Config, ps: seq<string>) {
    ps != [] &&
    if forall j :: 0 <= j < |ps[0]| ==> White(cfg, Datum(ps[0][j], false)) then SomeStartsWithMark(cfg, ps[1..])
    else StartsWithMark(cfg, AsData(ps[0], false))
  }

  /** The first byte of IFS keeps the parameters apart.  White space does not if a parameter that ends in data
      is followed by one that begins with an other separator.  Such a separator does not if a parameter but
      the last ends in a separator of its kind or has no data: then it adds an empty field. */
  predicate KeptApart(cfg: Config, ps: seq<string>, white: bool) {
    |ps| >= 2 ==>
      && (if white then !(EndsInData(cfg, AsData(ps[0], false)) && SomeStartsWithMark(cfg, ps[1..]))
          else EndsInData(cfg, AsData(ps[0], false)))
      && KeptApart(cfg, ps[1..], white)
  }

  lemma DataIsSoft(cfg: Config, s: string)
    ensures Soft(cfg, AsData(s, false)) && |AsData(s, false)| == |s|
  {}

  lemma JoinedData(p: string, c: char, rest: string)
    ensures AsData(p + [c] + rest, false) == AsData(p, false) + [Datum(c, false)] + AsData(rest, false)
  {}

  lemma {:induction false} StartsLater(cfg: Config, a: Text, b: Text)
    ensures StartsWithMark(cfg, a + b) ==
      if forall j :: 0 <= j < |a| ==> White(cfg, a[j]) then StartsWithMark(cfg, b) else StartsWithMark(cfg, a)
    decreases |a|
  {
    if a == [] {
      assert a + b == b;
    } else {
      assert (a + b)[1..] == a[1..] + b;
      StartsLater(cfg, a[1..], b);
      if White(cfg, a[0]) && forall j :: 0 <= j < |a[1..]| ==> White(cfg, a[1..][j]) {
        forall j | 0 <= j < |a| ensures White(cfg, a[j]) { if j > 0 { assert a[j] == a[1..][j - 1]; } }
      }
    }
  }

  lemma AllWhiteIs(cfg: Config, s: string)
    ensures (forall j :: 0 <= j < |s| ==> White(cfg, AsData(s, false)[j]))
      <==> forall j :: 0 <= j < |s| ==> White(cfg, Datum(s[j], false))
  {
    var t := AsData(s, false);
    assert forall j :: 0 <= j < |s| ==> t[j] == Datum(s[j], false);
    hide White;
    if forall j :: 0 <= j < |s| ==> White(cfg, t[j]) {
      forall j | 0 <= j < |s| ensures White(cfg, Datum(s[j], false)) { assert White(cfg, t[j]); }
    }
  }

  lemma {:induction false} JoinStarts(cfg: Config, ps: seq<string>, c: char)
    requires White(cfg, Datum(c, false))
    ensures StartsWithMark(cfg, AsData(JoinWith(ps, c), false)) <==> SomeStartsWithMark(cfg, ps)
  {
    if ps != [] {
      var p := AsData(ps[0], false);
      StartsLater(cfg, p, []);
      assert p + [] == p;
      AllWhiteIs(cfg, ps[0]);
      if |ps| > 1 {
        assert White(cfg, Datum(c, false)) && !Mark(cfg, Datum(c, false));
        hide AsData, White, Mark;
        var x, rest := [Datum(c, false)], AsData(JoinWith(ps[1..], c), false);
        JoinStarts(cfg, ps[1..], c);
        JoinedData(ps[0], c, JoinWith(ps[1..], c));
        StartsLater(cfg, p + x, rest);
        StartsLater(cfg, p, x);
        assert forall j :: 0 <= j < |p| ==> (p + x)[j] == p[j];
        assert (p + x)[|p|] == x[0];
      }
    }
  }

  lemma {:induction false} FitsJoined(ifs: string, ps: seq<string>, c: char)
    requires forall i :: 0 <= i < |ps| ==> Fits(ifs, ps[i])
    requires |ps| >= 2 ==> ByteFits(ifs, c)
    ensures Fits(ifs, JoinWith(ps, c))
  {
    hide ByteFits;
    if |ps| > 1 { FitsJoined(ifs, ps[1..], c); }
  }

  lemma NoWordsOfNothing(cfg: Config)
    ensures Fields(cfg, []) == [] && AsData("", false) == []
  {}

  /** How many fields the joined parameters have against those of each: the same, in order, exactly if they are
      kept apart. */
  lemma {:induction false} JoinedFields(cfg: Config, ps: seq<string>, c: char)
    requires !cfg.bound && c in cfg.ifs
    ensures var f := Values(Fields(cfg, AsData(JoinWith(ps, c), false)));
      (f == EachSplit(cfg.ifs, ps) <==> KeptApart(cfg, ps, Space(c)))
      && if Space(c) then |f| <= |EachSplit(cfg.ifs, ps)| else |f| >= |EachSplit(cfg.ifs, ps)|
    decreases |ps|, 1
  {
    if |ps| >= 2 {
      JoinedTwo(cfg, ps, c);
    } else if |ps| == 1 {
      assert EachSplit(cfg.ifs, ps[1..]) == [];
    } else {
      NoWordsOfNothing(cfg);
    }
  }

  lemma {:induction false} JoinedTwo(cfg: Config, ps: seq<string>, c: char)
    requires !cfg.bound && c in cfg.ifs && |ps| >= 2
    ensures var f := Values(Fields(cfg, AsData(JoinWith(ps, c), false)));
      (f == EachSplit(cfg.ifs, ps) <==> KeptApart(cfg, ps, Space(c)))
      && if Space(c) then |f| <= |EachSplit(cfg.ifs, ps)| else |f| >= |EachSplit(cfg.ifs, ps)|
    decreases |ps|, 0
  {
    assert White(cfg, Datum(c, false)) == Space(c) && Mark(cfg, Datum(c, false)) == !Space(c);
    hide Fields, AsData, Values, EndsInData, StartsWithMark, SomeStartsWithMark, Soft, White, Mark;
    var a, x, rest := AsData(ps[0], false), [Datum(c, false)], JoinWith(ps[1..], c);
    var b := AsData(rest, false);
    JoinedFields(cfg, ps[1..], c);
    JoinedData(ps[0], c, rest);
    DataIsSoft(cfg, ps[0]);
    DataIsSoft(cfg, rest);
    var va, vg, more := Values(Fields(cfg, a)), Values(Fields(cfg, b)), EachSplit(cfg.ifs, ps[1..]);
    SamePrefix(va, vg, more);
    if Space(c) {
      JoinStarts(cfg, ps[1..], c);
      WhiteMeets(cfg, a, x, b);
    } else {
      MarkMeets(cfg, a, x, b);
    }
  }

  lemma SamePrefix(a: seq<string>, b: seq<string>, c: seq<string>)
    ensures a + b == a + c <==> b == c
  {
    if a + b == a + c { assert b == (a + b)[|a|..] == c; }
  }

  /** The values of the fields of two texts with white space between them. */
  lemma WhiteMeets(cfg: Config, a: Text, x: Text, b: Text)
    requires Soft(cfg, a) && Soft(cfg, b) && |x| == 1 && White(cfg, x[0]) && !Hard(cfg, x[0])
    ensures var va, vb, f := Values(Fields(cfg, a)), Values(Fields(cfg, b)), Values(Fields(cfg, a + x + b));
      if EndsInData(cfg, a) && StartsWithMark(cfg, b) then |f| + 1 == |va| + |vb| else f == va + vb
  {
    hide Fields, EndsInData, StartsWithMark, White, Hard, Soft;
    WhiteBetween(cfg, a, x, b);
    ValuesSplit(Fields(cfg, a), Fields(cfg, b));
  }

  lemma MarkMeets(cfg: Config, a: Text, x: Text, b: Text)
    requires Soft(cfg, a) && |x| == 1 && Mark(cfg, x[0]) && !Hard(cfg, x[0])
    ensures var va, vb, f := Values(Fields(cfg, a)), Values(Fields(cfg, b)), Values(Fields(cfg, a + x + b));
      if EndsInData(cfg, a) then f == va + vb else |f| == |va| + 1 + |vb|
  {
    hide Fields, EndsInData, Mark, Hard, Soft;
    MarkBetween(cfg, a, x, b);
    ValuesSplit(Fields(cfg, a), Fields(cfg, b));
    assert Fields(cfg, a) + [] == Fields(cfg, a);
  }

  const JUST_PARAMS: Word := [Bare(Params)]

  lemma ParamsTyped(env: Env)
    ensures CellsKept(env, JUST_PARAMS, false) == BareCells(env, Params) && NothingLost(env, JUST_PARAMS)
    ensures Unharmed(Config(env.ifs, false), CellsKept(env, JUST_PARAMS, false))
    ensures WordFits(env, JUST_PARAMS) <==> PartFits(env, Bare(Params))
  {
    hide BareCells, PartFits, NothingLost, Unharmed, MARKERS;
    assert CellsKept(env, JUST_PARAMS, false) == BareCells(env, Params) + [];
    NothingTyped(env, JUST_PARAMS);
  }

  lemma ParamsFields(env: Env)
    requires PartFits(env, Bare(Params))
    ensures WordsOf(env, JUST_PARAMS) == Values(Fields(Config(env.ifs, false), BareCells(env, Params)))
  {
    hide *;
    ParamsTyped(env);
    WordsAreFieldsOfData(env, JUST_PARAMS);
  }

  /** `$@` outside quotes, for every IFS that is not empty: the words are the fields of the first parameter, then
      of the second, and so on, exactly if the first byte of IFS keeps the parameters apart. */
  lemma ParamsSplit(env: Env)
    requires env.ifs != "" && (|env.ps| >= 2 ==> ByteFits(env.ifs, env.ifs[0]))
    requires forall i :: 0 <= i < |env.ps| ==> Fits(env.ifs, env.ps[i])
    ensures WordsOf(env, JUST_PARAMS) == EachSplit(env.ifs, env.ps)
      <==> KeptApart(Config(env.ifs, false), env.ps, Space(env.ifs[0]))
  {
    hide WordsOf, Fits, Fields, KeptApart, AsData;
    FitsJoined(env.ifs, env.ps, env.ifs[0]);
    ParamsFields(env);
    JoinedFields(Config(env.ifs, false), env.ps, env.ifs[0]);
  }

  predicate Unsplit(ifs: string, s: string) { forall c :: c in s ==> c !in ifs }

  lemma UnsplitData(cfg: Config, p: string)
    requires !cfg.bound && Unsplit(cfg.ifs, p) && p != ""
    ensures Values(Fields(cfg, AsData(p, false))) == [p]
    ensures EndsInData(cfg, AsData(p, false)) && !StartsWithMark(cfg, AsData(p, false))
    ensures !(forall j :: 0 <= j < |p| ==> White(cfg, Datum(p[j], false)))
  {
    var t := AsData(p, false);
    assert forall j :: 0 <= j < |p| ==> t[j] == Datum(p[j], false) && p[j] in p;
    FirstStopIs(cfg, t, |t|);
    FieldsAtStop(cfg, t, |t|);
    assert t[..|t|] == t && t[|t|..] == [];
    WordsOfRun(cfg, t, |t|);
    assert !White(cfg, Datum(p[0], false));
    hide Fields, Words;
    ValueOfData(p);
  }

  lemma {:induction false} ValueOfData(s: string)
    ensures Value(AsData(s, false)) == s
  {
    if s != [] {
      assert AsData(s, false)[1..] == AsData(s[1..], false);
      ValueOfData(s[1..]);
    }
  }

  lemma {:induction false} UnsplitApart(cfg: Config, ps: seq<string>, white: bool)
    requires !cfg.bound && forall i :: 0 <= i < |ps| ==> ps[i] != "" && Unsplit(cfg.ifs, ps[i])
    ensures EachSplit(cfg.ifs, ps) == ps && KeptApart(cfg, ps, white) && !SomeStartsWithMark(cfg, ps)
  {
    hide Fields, AsData, Unsplit, EndsInData, StartsWithMark, White;
    if ps != [] {
      UnsplitData(cfg, ps[0]);
      UnsplitApart(cfg, ps[1..], white);
    }
  }

  /** Parameters that are not empty and have no byte of IFS come out as they are, in order. */
  lemma ParamsAsTheyAre(env: Env)
    requires env.ifs != "" && (|env.ps| >= 2 ==> !Reserved(env.ifs[0]))
    requires forall i :: 0 <= i < |env.ps| ==>
      env.ps[i] != "" && Unsplit(env.ifs, env.ps[i]) && Fits(env.ifs, env.ps[i])
    ensures WordsOf(env, JUST_PARAMS) == env.ps
  {
    hide WordsOf, Fits, KeptApart, Unsplit;
    ParamsSplit(env);
    UnsplitApart(Config(env.ifs, false), env.ps, Space(env.ifs[0]));
  }

  const COLON: Config := Config(" :", false)

  lemma ColonFirst()
    ensures var b := AsData(":y", false);
      && Values(Fields(COLON, b)) == ["", "y"] && StartsWithMark(COLON, b) && Soft(COLON, b)
  {
    var x, y := [Datum(':', false)], AsData("y", false);
    assert AsData(":y", false) == [] + x + y;
    assert Mark(COLON, x[0]) && Unsplit(" :", "y");
    NoWordsOfNothing(COLON);
    NothingEnds(COLON);
    UnsplitData(COLON, "y");
    NoValue();
    hide Fields, AsData, EndsInData, Value;
    MarkBetween(COLON, [], x, y);
    ValuesCons([], Fields(COLON, y));
  }

  lemma BlankBetween()
    ensures Values(Fields(COLON, AsData("x :y", false))) == ["x", "y"]
  {
    var a, x, b := AsData("x", false), [Datum(' ', false)], AsData(":y", false);
    assert AsData("x :y", false) == a + x + b;
    assert White(COLON, x[0]) && Unsplit(" :", "x");
    DataIsSoft(COLON, "x");
    ColonFirst();
    UnsplitData(COLON, "x");
    hide Fields, AsData, EndsInData, StartsWithMark, Soft, White, Value;
    WhiteBetween(COLON, a, x, b);
    var g := Fields(COLON, b);
    ValuesSplit(Fields(COLON, a), g[1..]);
    assert Values(g)[1] == Values(g[1..])[0];
  }

  /** With IFS a blank and a colon, the parameters `x` and `:y` give `x` and `y`, but on their own `x`, an empty
      word and `y`. */
  lemma MarkBehindBlank()
    ensures var env := Env(" :", ["x", ":y"]);
      WordsOf(env, JUST_PARAMS) == ["x", "y"] && EachSplit(env.ifs, env.ps) == ["x", "", "y"]
  {
    hide *;
    ColonCells();
    ColonFirst();
    BlankBetween();
    ParamsFields(Env(" :", ["x", ":y"]));
    TwoSplit(" :", "x", ":y");
  }

  lemma ColonCells()
    ensures var env := Env(" :", ["x", ":y"]);
      PartFits(env, Bare(Params)) && BareCells(env, Params) == AsData("x :y", false) && COLON == Config(" :", false)
    ensures Values(Fields(COLON, AsData("x", false))) == ["x"] && ["x"] + ["", "y"] == ["x", "", "y"]
  {
    assert JoinWith(["x", ":y"], ' ') == "x :y" && Fits(" :", "x :y") && Unsplit(" :", "x");
    hide Fields, AsData, Values;
    UnsplitData(COLON, "x");
  }

  lemma NothingEnds(cfg: Config)
    ensures !EndsInData(cfg, [])
  {}

  lemma TwoSplit(ifs: string, p: string, q: string)
    ensures var cfg := Config(ifs, false);
      EachSplit(ifs, [p, q]) == Values(Fields(cfg, AsData(p, false))) + Values(Fields(cfg, AsData(q, false)))
  {
    hide Values, Fields, AsData;
    assert [p, q][1..] == [q] && [q][1..] == [] && EachSplit(ifs, []) == [];
    assert EachSplit(ifs, [q]) == Values(Fields(Config(ifs, false), AsData(q, false))) + [];
  }

  // ----- `$@` under an empty IFS --------------------------------------------------------------

  /** The parameters that are not empty, the last first. */
  function Present(ps: seq<string>): seq<string> {
    if ps == [] then [] else
    var n := |ps| - 1;
    Present(ps[..n]) + if ps[n] == "" then [] else [ps[n]]
  }

  lemma {:induction false} NonEmptyEnds(ps: seq<string>, p: string)
    ensures NonEmpty(ps + [p]) == NonEmpty(ps) + if p == "" then [] else [p]
  {
    if ps == [] {
      assert ([] + [p])[1..] == [] && ([] + [p])[0] == p;
    } else {
      assert (ps + [p])[1..] == ps[1..] + [p];
      NonEmptyEnds(ps[1..], p);
    }
  }

  lemma {:induction false} NonEmptyArePresent(ps: seq<string>)
    ensures NonEmpty(ps) == Present(ps)
  {
    if ps != [] {
      var n := |ps| - 1;
      NonEmptyArePresent(ps[..n]);
      NonEmptyEnds(ps[..n], ps[n]);
      assert ps == ps[..n] + [ps[n]];
    }
  }

  /** A parameter in front of a boundary, or at the end, is a field where nothing separates. */
  lemma FieldAtBoundary(cfg: Config, p: string, rest: Text, hard: bool)
    requires cfg == Config("", false) && p != "" && (rest == [] || rest[0].Boundary?)
    ensures FieldsFrom(cfg, AsData(p, false) + rest, hard)
         == [AsData(p, false)] + if rest == [] then [] else FieldsFrom(cfg, rest[1..], true)
  {
    var a, t := AsData(p, false), AsData(p, false) + rest;
    assert forall j :: 0 <= j < |a| ==> t[j] == a[j] == Datum(p[j], false);
    assert forall x :: !White(cfg, x) && !Mark(cfg, x);
    FirstStopIs(cfg, t, |a|);
    SolidText(cfg, a);
    Behind(a, rest);
    hide AsData, White, Mark, Words;
  }

  lemma SolidText(cfg: Config, a: Text)
    requires a != [] && forall j :: 0 <= j < |a| ==> !White(cfg, a[j])
    ensures Words(cfg, a) == [a]
  {
    WordsOfRun(cfg, a, |a|);
    assert a[..|a|] == a && a[|a|..] == [];
  }

  lemma Behind(a: Text, rest: Text)
    ensures (a + rest)[..|a|] == a && (rest != [] ==> (a + rest)[|a| + 1..] == rest[1..])
  {}

  /** Boundaries alone cut where nothing separates. */
  lemma {:induction false} BoundedFields(cfg: Config, ps: seq<string>, hard: bool)
    requires cfg == Config("", false) && ps != [] && forall i :: 0 <= i < |ps| ==> ps[i] != ""
    ensures Values(FieldsFrom(cfg, JoinCells(ps, false), hard)) == ps
  {
    hide AsData, FieldsFrom, Values;
    var a := AsData(ps[0], false);
    ValueOfData(ps[0]);
    NoValue();
    if |ps| > 1 {
      var rest := [Boundary(false)] + JoinCells(ps[1..], false);
      assert JoinCells(ps, false) == a + rest && rest[1..] == JoinCells(ps[1..], false);
      FieldAtBoundary(cfg, ps[0], rest, hard);
      BoundedFields(cfg, ps[1..], true);
      ValuesCons(a, FieldsFrom(cfg, rest[1..], true));
    } else {
      assert JoinCells(ps, false) == a + [];
      FieldAtBoundary(cfg, ps[0], [], hard);
      ValuesCons(a, []);
    }
  }

  lemma {:induction false} PresentNotEmpty(ps: seq<string>)
    ensures forall i :: 0 <= i < |Present(ps)| ==> Present(ps)[i] != ""
  { if ps != [] { PresentNotEmpty(ps[..|ps| - 1]); } }

  /** With an empty IFS nothing separates, and the parameters that are not empty come out in order. */
  lemma ParamsUnderEmptyIfs(env: Env)
    requires env.ifs == ""
    ensures WordsOf(env, JUST_PARAMS) == Present(env.ps)
  {
    hide WordsOf, FieldsFrom, Present, NonEmpty, Values;
    ParamsFields(env);
    NonEmptyArePresent(env.ps);
    PresentNotEmpty(env.ps);
    NoWordsOfNothing(Config("", false));
    NoValue();
    if Present(env.ps) != [] { BoundedFields(Config("", false), Present(env.ps), false); }
  }

  // ----- Words in which nothing separates -----------------------------------------------------

  predicate Unmarked(s: string) { forall c :: c in s ==> !Reserved(c) }

  /** Typed text without markers, and results without a byte of IFS where they are not quoted. */
  predicate Quiet(env: Env, p: Part) {
    match p
    case Bare(a) =>
      !a.Params? && if a.Typed? then Unmarked(a.text) else Unsplit(env.ifs, a.text) && Fits(env.ifs, a.text)
    case Quotes(atoms) => forall i :: 0 <= i < |atoms| ==> QuietQuoted(atoms[i])
  }

  predicate QuietQuoted(a: Atom) { !a.Params? && (a.Typed? ==> Unmarked(a.text)) }

  function Spelled(atoms: seq<Atom>): string {
    if atoms == [] then "" else (if atoms[0].Params? then "" else atoms[0].text) + Spelled(atoms[1..])
  }

  /** The text of a word without its quotes, in order. */
  function SpelledWord(w: Word): string {
    if w == [] then ""
    else Spelled(if w[0].Bare? then [w[0].atom] else w[0].atoms) + SpelledWord(w[1..])
  }

  predicate HasQuotes(w: Word) { exists i :: 0 <= i < |w| && w[i].Quotes? }

  /** Cells that separate nothing and stand for `s`. */
  predicate StandsFor(cfg: Config, t: Text, s: string) {
    (forall j :: 0 <= j < |t| ==> !Delimits(cfg, t[j])) && Value(t) == s
  }

  lemma StandsTogether(cfg: Config, a: Text, r: string, b: Text, s: string)
    requires StandsFor(cfg, a, r) && StandsFor(cfg, b, s)
    ensures StandsFor(cfg, a + b, r + s)
  {
    hide Value;
    ValueSplits(a, b);
  }

  lemma {:induction false} TypedStands(cfg: Config, s: string)
    requires !cfg.bound
    ensures StandsFor(cfg, TypedCells(cfg.ifs, s), s)
  {
    if s == "" {
      NoValue();
    } else {
      var x := [Cell(s[0], s[0] in cfg.ifs)];
      TypedStep(cfg.ifs, s);
      TypedStands(cfg, s[1..]);
      OneValue(x[0]);
      assert !Delimits(cfg, x[0]) && Value(x) == [s[0]];
      hide TypedCells, Value, Delimits;
      StandsTogether(cfg, x, [s[0]], TypedCells(cfg.ifs, s[1..]), s[1..]);
    }
  }

  lemma DataStands(cfg: Config, s: string, prot: bool)
    requires !cfg.bound && (!prot ==> Unsplit(cfg.ifs, s))
    ensures StandsFor(cfg, AsData(s, prot), s) && StandsFor(cfg, AsCells(s, true), s)
  {
    var t := AsData(s, prot);
    assert forall j :: 0 <= j < |s| ==> t[j] == Datum(s[j], prot) && s[j] in s;
    ValueOfCells(s);
    DataValue(s, prot);
  }

  lemma {:induction false} DataValue(s: string, prot: bool)
    ensures Value(AsData(s, prot)) == s
  {
    if s != [] {
      assert AsData(s, prot)[1..] == AsData(s[1..], prot);
      DataValue(s[1..], prot);
    }
  }

  lemma {:induction false} ContentStands(cfg: Config, env: Env, atoms: seq<Atom>)
    requires !cfg.bound && forall i :: 0 <= i < |atoms| ==> QuietQuoted(atoms[i])
    ensures StandsFor(cfg, KeptContent(env, atoms), Spelled(atoms))
    ensures Params !in atoms
  {
    if atoms == [] {
      NoValue();
    } else {
      assert QuietQuoted(atoms[0]);
      ContentStands(cfg, env, atoms[1..]);
      assert atoms == [atoms[0]] + atoms[1..];
      DataStands(cfg, atoms[0].text, true);
      hide StandsFor, AsData, AsCells, QuietQuoted;
      StandsTogether(cfg, KeptCells(env, atoms[0]), atoms[0].text, KeptContent(env, atoms[1..]), Spelled(atoms[1..]));
    }
  }

  lemma PartStands(cfg: Config, env: Env, p: Part, empty: bool)
    requires cfg == Config(env.ifs, false) && Quiet(env, p)
    ensures var t := if p.Bare? then BareCells(env, p.atom) else KeptRegion(env, p.atoms, empty);
      var s := Spelled(if p.Bare? then [p.atom] else p.atoms);
      StandsFor(cfg, t, s) && (t == [] <==> s == "" && p.Bare?)
    ensures p.Quotes? ==> !NoParams(env, p.atoms)
  {
    match p
    case Bare(a) =>
      assert [a][1..] == [] && Spelled([]) == "" && a.text + "" == a.text;
      hide StandsFor;
      if a.Typed? { TypedStands(cfg, a.text); } else { DataStands(cfg, a.text, false); }
    case Quotes(atoms) =>
      hide QuietQuoted, Spelled;
      ContentStands(cfg, env, atoms);
      OneValue(Placeholder);
  }

  lemma {:induction false} WordStands(cfg: Config, env: Env, w: Word, empty: bool)
    requires cfg == Config(env.ifs, false) && forall i :: 0 <= i < |w| ==> Quiet(env, w[i])
    ensures StandsFor(cfg, CellsKept(env, w, empty), SpelledWord(w))
    ensures CellsKept(env, w, empty) == [] <==> SpelledWord(w) == "" && !HasQuotes(w)
  {
    if w == [] {
      NoValue();
    } else {
      hide StandsFor, Quiet, Spelled, BareCells, KeptRegion;
      assert Quiet(env, w[0]);
      PartStands(cfg, env, w[0], empty);
      var after := if w[0].Bare? then empty else empty || NoParams(env, w[0].atoms);
      WordStands(cfg, env, w[1..], after);
      assert HasQuotes(w) <==> w[0].Quotes? || HasQuotes(w[1..]) by {
        if HasQuotes(w) && !w[0].Quotes? {
          var i :| 0 <= i < |w| && w[i].Quotes?;
          assert w[1..][i - 1] == w[i];
        }
        if HasQuotes(w[1..]) {
          var i :| 0 <= i < |w[1..]| && w[1..][i].Quotes?;
          assert w[i + 1] == w[1..][i];
        }
      }
      var t := if w[0].Bare? then BareCells(env, w[0].atom) else KeptRegion(env, w[0].atoms, empty);
      StandsTogether(cfg, t, Spelled(if w[0].Bare? then [w[0].atom] else w[0].atoms),
                     CellsKept(env, w[1..], after), SpelledWord(w[1..]));
    }
  }

  lemma StandsAlone(cfg: Config, t: Text, s: string)
    requires StandsFor(cfg, t, s)
    ensures Values(Fields(cfg, t)) == if t == [] then [] else [s]
  {
    FirstStopIs(cfg, t, |t|);
    FieldsAtStop(cfg, t, |t|);
    assert t[..|t|] == t && t[|t|..] == [];
    if t != [] { WordsOfRun(cfg, t, |t|); }
    NoValue();
    ValuesCons(t, []);
    assert [t] + [] == [t] && Words(cfg, []) == [];
  }

  lemma QuietParts(env: Env, w: Word)
    requires forall i :: 0 <= i < |w| ==> Quiet(env, w[i])
    ensures WordFits(env, w) && forall i :: 0 <= i < |w| ==> PartFree(w[i], MARKERS) && !PartLoses(w[i], {})
  {
    forall i | 0 <= i < |w| ensures PartFits(env, w[i]) && PartFree(w[i], MARKERS) && !PartLoses(w[i], {}) {
      QuietPart(env, w[i]);
    }
  }

  lemma QuietPart(env: Env, p: Part)
    requires Quiet(env, p)
    ensures PartFits(env, p) && PartFree(p, MARKERS) && !PartLoses(p, {})
  {
    hide Fits, Unsplit;
    match p
    case Bare(a) => if a.Typed? { UnmarkedText(a.text); }
    case Quotes(atoms) =>
      forall i | 0 <= i < |atoms| ensures AtomFree(atoms[i], MARKERS) && !AtomLoses(atoms[i], {}) {
        assert QuietQuoted(atoms[i]);
        if atoms[i].Typed? { UnmarkedText(atoms[i].text); }
      }
  }

  lemma UnmarkedText(s: string)
    requires Unmarked(s)
    ensures AtomFree(Typed(s), MARKERS) && !Loses(s, {})
  {
    assert forall c :: c in s ==> c !in MARKERS;
  }

  /** A word without `$@`, without typed markers, and without a byte of IFS in what is expanded outside quotes is
      one word: its text in order, without the quotes, whatever bytes of IFS are typed.  If it has no text it is
      an empty word if there are quotes, and else none. */
  lemma QuietWord(env: Env, w: Word)
    requires forall i :: 0 <= i < |w| ==> Quiet(env, w[i])
    ensures WordsOf(env, w) == if SpelledWord(w) == "" && !HasQuotes(w) then [] else [SpelledWord(w)]
  {
    hide *;
    var cfg := Config(env.ifs, false);
    QuietParts(env, w);
    NothingTyped(env, w);
    WordsAreFieldsOfData(env, w);
    WordStands(cfg, env, w, false);
    StandsAlone(cfg, CellsKept(env, w, false), SpelledWord(w));
  }
}
