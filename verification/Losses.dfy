/** Words that go wrong, with all the words of their kind: typed markers, `"$@"` twice, and an empty last
    parameter. */
module WordLosses {
  import opened Markers
  import opened WordFields
  import opened WordEncoding
  import opened WordGuards
  import opened WordPlaceholders
  import opened WordMeaning

  // ----- Typed markers ------------------------------------------------------------------------

  lemma OneRegion(env: Env, atoms: seq<Atom>)
    ensures var w := [Bare(Result("")), Quotes(atoms)];
      && CellsOf(env, w) == MeantRegion(env, atoms) && CellsKept(env, w, false) == KeptRegion(env, atoms, false)
      && WordChunks(env, w, false) == [Sure([])] + RegionChunks(env, atoms, false)
  {
    var w, u := [Bare(Result("")), Quotes(atoms)], [Quotes(atoms)];
    assert w[1..] == u && u[1..] == [] && BareCells(env, Result("")) == [];
    hide MeantRegion, KeptRegion, RegionChunks, BareCells;
    assert CellsOf(env, u) == MeantRegion(env, atoms) + [];
    assert CellsKept(env, u, false) == KeptRegion(env, atoms, false) + [];
    assert WordChunks(env, u, false) == RegionChunks(env, atoms, false) + [];
    assert CellsOf(env, w) == [] + CellsOf(env, u) && CellsKept(env, w, false) == [] + CellsKept(env, u, false);
  }

  lemma OneTyped(env: Env, s: string)
    requires s != ""
    ensures var a := [Typed(s)];
      && MeantRegion(env, a) == KeptRegion(env, a, false) == AsCells(s, true)
      && RegionChunks(env, a, false) == [Sure(AsCells(s, true))]
  {
    var a := [Typed(s)];
    assert a[1..] == [];
    hide AsCells;
    assert MeantContent(env, a) == AsCells(s, true) + [];
    assert KeptContent(env, a) == AsCells(s, true) + [];
    assert ContentChunks(env, a) == [Sure(AsCells(s, true))] + [];
  }

  /** `$x"s"` with an empty `x` and any typed text `s`, in every shell: one word, which is `s` exactly if no
      byte of `s` is a guard or the placeholder, and an escape byte is at most the last one. */
  lemma TypedText(env: Env, s: string)
    requires s != ""
    ensures var w := [Bare(Result("")), Quotes([Typed(s)])];
      && WordsMeant(env, w) == [s]
      && (WordsOf(env, w) == [s] <==>
           forall i :: 0 <= i < |s| ==> s[i] !in {QG_OPEN, QG_CLOSE, QG_NULL} && (s[i] == PP_ESC ==> i + 1 == |s|))
  {
    var w, t, cfg := [Bare(Result("")), Quotes([Typed(s)])], AsCells(s, true), Config(env.ifs, false);
    OneRegion(env, [Typed(s)]);
    OneTyped(env, s);
    QuotedField(cfg, s);
    TypedFlags(env, s);
    assert WordFits(env, w);
    NoGaps(cfg, t);
    TypedUnharmed(cfg, s);
    hide CellsOf, CellsKept, WordChunks, WordFits, NothingLost, Unharmed, Harmless, WordsOf, Fields, AsCells;
    WordsMeantExactly(env, w);
  }

  lemma QuotedField(cfg: Config, s: string)
    requires !cfg.bound && s != ""
    ensures Values(Fields(cfg, AsCells(s, true))) == [s]
  {
    var t := AsCells(s, true);
    FirstStopSkips(cfg, t, |t|);
    assert t[..|t|] == t && t[|t|..] == [];
    WordsOfRun(cfg, t, |t|);
    assert Fields(cfg, t) == [t];
    ValueOfCells(s);
  }

  lemma {:induction false} ValueOfCells(s: string)
    ensures Value(AsCells(s, true)) == s
  {
    if s != [] {
      assert AsCells(s, true)[1..] == AsCells(s[1..], true);
      ValueOfCells(s[1..]);
    }
  }

  lemma TypedFlags(env: Env, s: string)
    ensures var w := [Bare(Result("")), Quotes([Typed(s)])];
      && !Bounds(env, w) && Guarded(env, w)
      && (NothingLost(env, w) <==> forall i :: 0 <= i < |s| ==> s[i] !in {QG_OPEN, QG_CLOSE, QG_NULL})
  {
    var w := [Bare(Result("")), Quotes([Typed(s)])];
    assert PartGuards(env, w[1]);
    assert !PartBounds(env, w[0]) && !PartBounds(env, w[1]);
    var m := SurvivingOf(env, w);
    assert m == {PP_ESC, SOH};
    assert AtomLoses(Typed(s), m) <==> Loses(s, m);
    assert !PartLoses(w[0], m) && (PartLoses(w[1], m) <==> Loses(s, m)) by { assert w[1].atoms[0] == Typed(s); }
    if NothingLost(env, w) {
      assert !PartLoses(w[1], m);
      forall i | 0 <= i < |s| ensures s[i] !in {QG_OPEN, QG_CLOSE, QG_NULL} { assert s[i] in s; }
    }
  }

  lemma NoGaps(cfg: Config, t: Text)
    ensures Harmless(cfg, [], [Sure([])] + [Sure(t)])
  {
    var c := [Sure([])] + [Sure(t)];
    assert c[1..] == [Sure(t)] && c[1..][1..] == [];
    assert Harmless(cfg, [] + [] + t, []);
    assert Harmless(cfg, [] + [], c[1..]);
  }

  lemma TypedUnharmed(cfg: Config, s: string)
    requires !cfg.bound
    ensures Unharmed(cfg, AsCells(s, true)) <==>
      forall i :: 0 <= i < |s| ==> s[i] != QG_NULL && (s[i] == PP_ESC ==> i + 1 == |s|)
  {
    var t := AsCells(s, true);
    assert forall i :: 0 <= i < |s| ==> t[i] == Cell(s[i], true) && !Delimits(cfg, t[i]);
    if Unharmed(cfg, t) {
      forall i | 0 <= i < |s| ensures s[i] != QG_NULL && (s[i] == PP_ESC ==> i + 1 == |s|) {
        assert t[i] == Cell(s[i], true) && (i + 1 < |s| ==> !Delimits(cfg, t[i + 1]));
      }
    }
  }

  // ----- "$@" twice ---------------------------------------------------------------------------

  lemma EmptyRegion(env: Env, w: Word, empty: bool)
    requires env.ps == [] && w != [] && w[0] == Quotes([Params])
    ensures CellsOf(env, w) == CellsOf(env, w[1..])
    ensures CellsKept(env, w, empty) == (if empty then [Placeholder] else []) + CellsKept(env, w[1..], true)
  {
    assert [Params][1..] == [];
    assert MeantContent(env, []) == [] && KeptContent(env, []) == [];
    assert MeantCells(env, Params) == [] && KeptCells(env, Params) == [];
    hide CellsOf, CellsKept, MeantCells, KeptCells;
    assert MeantContent(env, [Params]) == [] + [] && KeptContent(env, [Params]) == [] + [];
    EmptyPart(env, w, empty);
  }

  lemma EmptyPart(env: Env, w: Word, empty: bool)
    requires w != [] && w[0].Quotes? && NoParams(env, w[0].atoms)
    requires MeantContent(env, w[0].atoms) == [] && KeptContent(env, w[0].atoms) == []
    ensures CellsOf(env, w) == CellsOf(env, w[1..])
    ensures CellsKept(env, w, empty) == (if empty then [Placeholder] else []) + CellsKept(env, w[1..], true)
  {
    hide MeantContent, KeptContent, NoParams;
  }

  lemma EmptyResult(env: Env, w: Word, empty: bool)
    requires w != [] && w[0] == Bare(Result(""))
    ensures CellsOf(env, w) == CellsOf(env, w[1..]) && CellsKept(env, w, empty) == CellsKept(env, w[1..], empty)
  { assert BareCells(env, w[0].atom) == []; }

  lemma LonePlaceholder(cfg: Config)
    ensures Values(Fields(cfg, [Placeholder])) == [""] && Values(Fields(cfg, [])) == []
  {
    var one := [Placeholder];
    WordsOfRun(cfg, one, 1);
    assert FirstStop(cfg, one) == 1 && one[..1] == one && one[1..] == [];
    ValueSkips([], []);
    assert [] + one + [] == one;
  }

  lemma NothingTyped(env: Env, w: Word)
    requires forall i :: 0 <= i < |w| ==> PartFree(w[i], MARKERS) && !PartLoses(w[i], {})
    ensures NothingLost(env, w) && Unharmed(Config(env.ifs, false), CellsKept(env, w, false))
  {
    forall i | 0 <= i < |w| ensures !PartLoses(w[i], SurvivingOf(env, w)) { FewerLost(w[i], SurvivingOf(env, w)); }
    hide CellsKept, PartFree, PartLoses;
    KeptTyped(env, w, false, MARKERS);
    assert QG_NULL in MARKERS && PP_ESC in MARKERS;
  }

  lemma FewerLost(p: Part, m: set<char>)
    requires !PartLoses(p, {})
    ensures !PartLoses(p, m)
  {
    if p.Bare? {
      FewerLostIn(p.atom, m);
    } else {
      forall i | 0 <= i < |p.atoms| ensures !AtomLoses(p.atoms[i], m) { FewerLostIn(p.atoms[i], m); }
    }
  }

  lemma FewerLostIn(a: Atom, m: set<char>)
    requires !AtomLoses(a, {})
    ensures !AtomLoses(a, m)
  {}

  /** `$x"$@""$@"` with `x` empty and without parameters: one empty word, where none is meant. */
  lemma ParamsTwice(ifs: string)
    ensures var env, w := Env(ifs, []), [Bare(Result("")), Quotes([Params]), Quotes([Params])];
      WordsOf(env, w) == [""] && WordsMeant(env, w) == []
  {
    var env, u, v := Env(ifs, []), [Quotes([Params])], [Quotes([Params]), Quotes([Params])];
    var w := [Bare(Result("")), Quotes([Params]), Quotes([Params])];
    assert u[1..] == [] && v[1..] == u && w[1..] == v && WordFits(env, w);
    assert CellsOf(env, []) == [] && CellsKept(env, [], true) == [];
    assert forall i :: 0 <= i < |w| ==> PartFree(w[i], MARKERS) && !PartLoses(w[i], {});
    hide *;
    NothingTyped(env, w);
    EmptyRegion(env, u, true);
    EmptyRegion(env, v, false);
    EmptyResult(env, w, false);
    assert CellsOf(env, w) == [] && CellsKept(env, w, false) == [Placeholder];
    WordsAreFieldsOfData(env, w);
    LonePlaceholder(Config(ifs, false));
    MeantIs(env, w);
  }

  // ----- An empty last parameter --------------------------------------------------------------

  /** White space at the start of `y`, and no other separator right behind it. */
  predicate Swallows(cfg: Config, y: Text) {
    var k := WhiteRun(cfg, y);
    k > 0 && !(k < |y| && Mark(cfg, y[k]))
  }

  lemma {:induction false} BehindBoundary(cfg: Config, a: Text, hard: bool)
    ensures LastPiece(cfg, a + [Boundary(true)]) == [] && AfterBoundary(cfg, a + [Boundary(true)], hard)
    decreases |a|
  {
    var b := [Boundary(true)];
    var t, k := a + b, FirstStop(cfg, a);
    LoneBoundary(cfg);
    hide FirstStop, LastPiece, AfterBoundary, Hard;
    if k == |a| {
      StopBehind(cfg, a, b);
      assert t[|a|] == b[0] && t[|a| + 1..] == [];
      PieceStep(cfg, t, |a|, hard);
    } else {
      StopAt(cfg, a, b, k);
      assert t[k] == a[k] && t[k + 1..] == a[k + 1..] + b;
      PieceStep(cfg, t, k, hard);
      BehindBoundary(cfg, a[k + 1..], Hard(cfg, a[k]));
    }
  }

  lemma LoneBoundary(cfg: Config)
    ensures FirstStop(cfg, [Boundary(true)]) == 0 && Hard(cfg, Boundary(true))
    ensures LastPiece(cfg, []) == [] && AfterBoundary(cfg, [], true)
  {}

  lemma PieceStep(cfg: Config, a: Text, k: nat, hard: bool)
    requires k == FirstStop(cfg, a) < |a|
    ensures LastPiece(cfg, a) == LastPiece(cfg, a[k + 1..])
    ensures AfterBoundary(cfg, a, hard) == AfterBoundary(cfg, a[k + 1..], Hard(cfg, a[k]))
  {}

  lemma BeforeBoundary(cfg: Config, a: Text, b: Text)
    requires b != [] && b[0] == Boundary(true)
    ensures !AddsField(cfg, a, b, false)
  {}

  lemma AtStart(cfg: Config, a: Text, y: Text)
    requires LastPiece(cfg, a) == [] && AfterBoundary(cfg, a, false)
    requires !cfg.bound && forall j :: 0 <= j < |y| ==> y[j].Datum?
    ensures AddsField(cfg, a, y, false) <==> Swallows(cfg, y)
  {
    var m, k := FirstStop(cfg, y), WhiteRun(cfg, y);
    hide FirstStop, WhiteRun, LastPiece, AfterBoundary;
    assert [] + y[..m] == y[..m];
    if AllWhite(cfg, y[..m]) {
      forall j | 0 <= j < m ensures White(cfg, y[j]) { assert y[..m][j] == y[j]; }
    }
  }

  lemma {:induction false} ParamsHarmless(cfg: Config, a: Text, ps: seq<string>, y: Text)
    requires ps != [] && !cfg.bound && forall j :: 0 <= j < |y| ==> y[j].Datum?
    requires |ps| >= 2 || (LastPiece(cfg, a) == [] && AfterBoundary(cfg, a, false))
    ensures Harmless(cfg, a, ParamChunks(ps) + [Sure(y)]) <==> ps[|ps| - 1] != "" || !Swallows(cfg, y)
    decreases |ps|
  {
    var p := ParamChunk(ps[0]);
    var rest := if |ps| == 1 then [Sure(y)] else [Sure([Boundary(true)])] + (ParamChunks(ps[1..]) + [Sure(y)]);
    var cs := ParamChunks(ps) + [Sure(y)];
    assert cs == [p] + rest && cs[1..] == rest;
    OneChunk(Sure(y));
    var a1 := a + if p.Sure? then p.t else [Placeholder];
    if |ps| == 1 {
      assert rest[1..] == [] && Harmless(cfg, a1, rest);
      AtStart(cfg, a, y);
    } else {
      var more := ParamChunks(ps[1..]) + [Sure(y)];
      assert rest[0] == Sure([Boundary(true)]) && rest[1..] == more;
      assert Without(rest) == [Boundary(true)] + Without(more);
      hide Harmless, AddsField, LastPiece, AfterBoundary, ParamChunks, Without, Swallows;
      BeforeBoundary(cfg, a, Without(rest));
      BehindBoundary(cfg, a1, false);
      ParamsHarmless(cfg, a1 + [Boundary(true)], ps[1..], y);
      HarmlessStep(cfg, a, cs);
      HarmlessStep(cfg, a1, rest);
    }
  }

  lemma HarmlessStep(cfg: Config, a: Text, cs: seq<Chunk>)
    requires cs != []
    ensures Harmless(cfg, a, cs) <==>
      (cs[0].Gap? ==> !AddsField(cfg, a, Without(cs[1..]), false))
      && Harmless(cfg, a + (if cs[0].Sure? then cs[0].t else [Placeholder]), cs[1..])
  { hide AddsField, Without; }

  /** `"$@"$y` with two or more parameters: the words are those that are meant, unless the last parameter is
      empty and the value of `y` begins with white space of IFS that no other separator follows.  Then the
      empty parameter is lost. */
  lemma LastParameter(env: Env, y: string)
    requires |env.ps| >= 2 && Fits(env.ifs, y)
    ensures var w := [Quotes([Params]), Bare(Result(y))];
      WordsOf(env, w) == WordsMeant(env, w) <==>
        env.ps[|env.ps| - 1] != "" || !Swallows(Config(env.ifs, false), AsData(y, false))
  {
    hide *;
    var w, cfg, t := [Quotes([Params]), Bare(Result(y))], Config(env.ifs, false), AsData(y, false);
    DataIsData(y, false);
    LastParameterPlain(env, y);
    NothingTyped(env, w);
    LastParameterChunks(env, y);
    WordsMeantExactly(env, w);
    ParamsHarmless(cfg, [], env.ps, t);
  }

  lemma DataIsData(s: string, prot: bool)
    ensures forall j :: 0 <= j < |s| ==> AsData(s, prot)[j].Datum?
  {}

  lemma LastParameterPlain(env: Env, y: string)
    requires Fits(env.ifs, y)
    ensures var w := [Quotes([Params]), Bare(Result(y))];
      WordFits(env, w) && forall i :: 0 <= i < |w| ==> PartFree(w[i], MARKERS) && !PartLoses(w[i], {})
  {
    hide Fits;
    var w := [Quotes([Params]), Bare(Result(y))];
    assert PartFits(env, w[0]) && PartFits(env, w[1]);
  }

  lemma LastParameterChunks(env: Env, y: string)
    requires |env.ps| >= 2
    ensures WordChunks(env, [Quotes([Params]), Bare(Result(y))], false)
         == ParamChunks(env.ps) + [Sure(AsData(y, false))]
  {
    var w, a := [Quotes([Params]), Bare(Result(y))], [Params];
    assert w[1..] == [Bare(Result(y))] && w[1..][1..] == [] && a[1..] == [];
    assert KeptContent(env, a) == JoinCells(env.ps, true) + [] && JoinCells(env.ps, true) != [];
    assert ContentChunks(env, a) == ParamChunks(env.ps) + [];
    hide AsData, ParamChunks, KeptContent, ContentChunks;
    assert RegionChunks(env, a, false) == ParamChunks(env.ps);
    assert WordChunks(env, w[1..], false) == [Sure(AsData(y, false))] + [];
  }

  lemma LastParameterCells(env: Env, y: string)
    requires |env.ps| >= 2
    ensures var w := [Quotes([Params]), Bare(Result(y))];
      && CellsKept(env, w, false) == JoinCells(env.ps, true) + AsData(y, false)
      && CellsOf(env, w) == Parameters(env.ps) + AsData(y, false)
  {
    hide CellsKept, CellsOf, WordChunks, With, Without, ParamChunks, JoinCells, Parameters, AsData;
    LastParameterChunks(env, y);
    WordOfChunks(env, [Quotes([Params]), Bare(Result(y))], false);
    ParamsOfChunks(env.ps);
    OneChunk(Sure(AsData(y, false)));
    ChunksSplit(ParamChunks(env.ps), [Sure(AsData(y, false))]);
  }

  lemma OneValue(x: Cell)
    ensures Value([x]) == CellValue(x) && Values([[x]]) == [CellValue(x)]
  { assert [x][1..] == []; }

  /** A field, and a boundary behind it. */
  lemma FirstField(cfg: Config, c: char, t: Text)
    requires !cfg.bound
    ensures Values(Fields(cfg, [Datum(c, true)] + [Boundary(true)] + t)) == [[c]] + Values(FieldsFrom(cfg, t, true))
  {
    var x, b, u := [Datum(c, true)], [Boundary(true)], [Datum(c, true)] + [Boundary(true)] + t;
    assert u == x + (b + t) && FirstStop(cfg, x) == 1 && FirstStop(cfg, b + t) == 0;
    assert u[..1] == x && u[2..] == t && x[..1] == x && x[1..] == [];
    WordsOfRun(cfg, x, 1);
    assert Words(cfg, x) == [x];
    hide FieldsFrom, Words, FirstStop;
    StopBehind(cfg, x, b + t);
    FieldsOfPiece(cfg, u, 1, false);
    OneValue(x[0]);
    assert u[1] == b[0] && u[0] == x[0];
    assert FieldsFrom(cfg, u, false) == [x] + [] + FieldsFrom(cfg, t, true);
    ValuesCons(x, FieldsFrom(cfg, t, true));
  }

  lemma BlankWords(cfg: Config, w: char, c: char)
    requires White(cfg, Datum(w, false)) && !Separates(cfg, Datum(c, false))
    ensures Words(cfg, [Datum(w, false), Datum(c, false)]) == [[Datum(c, false)]]
  {
    var y, z := [Datum(w, false), Datum(c, false)], [Datum(c, false)];
    assert y[1..] == z && z[..1] == z && z[1..] == [];
    WordsOfRun(cfg, z, 1);
  }

  lemma BlankThenWord(cfg: Config, w: char, c: char)
    requires White(cfg, Datum(w, false)) && !Separates(cfg, Datum(c, false))
    ensures Values(FieldsFrom(cfg, [Datum(w, false), Datum(c, false)], true)) == [[c]]
  {
    var y, z := [Datum(w, false), Datum(c, false)], [Datum(c, false)];
    BlankWords(cfg, w, c);
    FirstStopSkips(cfg, y, 2);
    assert y[2..] == [] && y[..2] == y;
    hide FieldsFrom, Words, FirstStop, Values, Value;
    FieldsOfPiece(cfg, y, 2, true);
    OneValue(z[0]);
  }

  lemma PlaceholderThenBlank(cfg: Config, w: char, c: char)
    requires White(cfg, Datum(w, false)) && !Separates(cfg, Datum(c, false))
    ensures Values(FieldsFrom(cfg, [Placeholder] + [Datum(w, false), Datum(c, false)], true)) == ["", [c]]
  {
    var y, z, p := [Datum(w, false), Datum(c, false)], [Datum(c, false)], [Placeholder];
    var u := p + y;
    BlankWords(cfg, w, c);
    assert u[..1] == p && u[1..] == y;
    WordsOfRun(cfg, u, 1);
    FirstStopSkips(cfg, u, 3);
    hide FieldsFrom, Words, FirstStop, Values, Value, White;
    assert u[3..] == [] && u[..3] == u;
    FieldsOfPiece(cfg, u, 3, true);
    OneValue(z[0]);
    OneValue(p[0]);
    ValuesCons(p, [z]);
  }

  lemma TwoParameters(p: string)
    requires p != ""
    ensures JoinCells([p, ""], true) == AsData(p, true) + [Boundary(true)] + []
    ensures Parameters([p, ""]) == AsData(p, true) + [Boundary(true)] + [Placeholder]
  {
    assert [p, ""][1..] == [""] && AsData("", true) == [];
    hide AsData;
  }

  /** `"$@"$y` with parameters `a` and nothing, and ` z` in `y`: the empty parameter is lost. */
  lemma EmptyParameterLost()
    ensures var env, w := Env(" ", ["a", ""]), [Quotes([Params]), Bare(Result(" z"))];
      WordsOf(env, w) == ["a", "z"] && WordsMeant(env, w) == ["a", "", "z"]
  {
    hide *;
    var env, w, cfg := Env(" ", ["a", ""]), [Quotes([Params]), Bare(Result(" z"))], Config(" ", false);
    var x, b, y := [Datum('a', true)], [Boundary(true)], [Datum(' ', false), Datum('z', false)];
    BlankText(cfg);
    LastParameterPlain(env, " z");
    NothingTyped(env, w);
    LastParameterCells(env, " z");
    TwoParameters("a");
    assert x + b + [] + y == x + b + y && x + b + [Placeholder] + y == x + b + ([Placeholder] + y);
    FirstField(cfg, 'a', y);
    FirstField(cfg, 'a', [Placeholder] + y);
    BlankThenWord(cfg, ' ', 'z');
    PlaceholderThenBlank(cfg, ' ', 'z');
    WordsAreFieldsOfData(env, w);
    MeantIs(env, w);
  }

  lemma MeantIs(env: Env, w: Word)
    ensures WordsMeant(env, w) == Values(Fields(Config(env.ifs, false), CellsOf(env, w)))
  {}

  lemma BlankText(cfg: Config)
    requires cfg == Config(" ", false)
    ensures AsData("a", true) == [Datum('a', true)] && AsData(" z", false) == [Datum(' ', false), Datum('z', false)]
    ensures Fits(" ", " z") && White(cfg, Datum(' ', false)) && !Separates(cfg, Datum('z', false))
  {}
}
