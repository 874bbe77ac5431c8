/** Which words become what they say: typed marker bytes, and placeholders that are missing or in excess. */
module WordMeaning {
  import opened Markers
  import opened WordFields
  import opened WordEncoding
  import opened WordGuards
  import opened WordPlaceholders

  // ----- Escape bytes that were typed ---------------------------------------------------------

  /** Each byte that stands for itself and is data is none the decoder drops, and the escape byte is the
      last of its field. */
  predicate Unharmed(cfg: Config, t: Text) {
    forall j :: 0 <= j < |t| && t[j].Cell? && !Delimits(cfg, t[j]) ==>
      t[j].c != QG_NULL && (t[j].c == PP_ESC ==> j + 1 == |t| || Delimits(cfg, t[j + 1]))
  }

  predicate AllReadable(fs: seq<Text>) { forall i :: 0 <= i < |fs| ==> Readable(fs[i]) }

  lemma ReadableCons(f: Text, fs: seq<Text>)
    ensures AllReadable([f] + fs) <==> Readable(f) && AllReadable(fs)
    ensures AllReadable([] + fs) <==> AllReadable(fs)
  {
    hide Readable;
    assert [] + fs == fs && ([f] + fs)[0] == f;
    forall i | 0 <= i < |fs| ensures ([f] + fs)[i + 1] == fs[i] {}
  }

  /** A field, what delimits it, and the rest. */
  lemma UnharmedParts(cfg: Config, t: Text, e: nat, d: nat)
    requires e <= d <= |t| && (e < |t| ==> e < d)
    requires forall j :: 0 <= j < e ==> !Delimits(cfg, t[j])
    requires forall j :: e <= j < d ==> Delimits(cfg, t[j])
    ensures Unharmed(cfg, t) <==> Readable(t[..e]) && Unharmed(cfg, t[d..])
  {
    hide Delimits;
    var f, u := t[..e], t[d..];
    if Unharmed(cfg, t) {
      forall j | 0 <= j < |f| && f[j].Cell? ensures f[j].c != QG_NULL && (f[j].c == PP_ESC ==> j + 1 == |f|) {
        assert t[j] == f[j] && !Delimits(cfg, t[j]) && (j + 1 < e ==> !Delimits(cfg, t[j + 1]));
      }
      forall j | 0 <= j < |u| && u[j].Cell? && !Delimits(cfg, u[j])
        ensures u[j].c != QG_NULL && (u[j].c == PP_ESC ==> j + 1 == |u| || Delimits(cfg, u[j + 1]))
      {
        assert t[d + j] == u[j] && (j + 1 < |u| ==> t[d + j + 1] == u[j + 1]);
      }
    }
    if Readable(f) && Unharmed(cfg, u) {
      forall j | 0 <= j < |t| && t[j].Cell? && !Delimits(cfg, t[j])
        ensures t[j].c != QG_NULL && (t[j].c == PP_ESC ==> j + 1 == |t| || Delimits(cfg, t[j + 1]))
      {
        if j < e { assert f[j] == t[j]; }
        else { assert u[j - d] == t[j] && (j + 1 < |t| ==> t[j + 1] == u[j - d + 1]); }
      }
    }
  }

  lemma {:induction false} SplitUnharmed(cfg: Config, t: Text, last: bool)
    ensures AllReadable(SplitFrom(cfg, t, last)) <==> Unharmed(cfg, t)
    decreases |t|
  {
    hide SplitFrom, DataRun, Delimiter, Delimits, Hard, Readable, Unharmed, AllReadable;
    EmptyReadable(cfg);
    var e := DataRun(cfg, t);
    DataRunRuns(cfg, t);
    if e == |t| {
      SplitEnds(cfg, t, last);
      UnharmedParts(cfg, t, e, e);
      assert t[..e] == t && t[e..] == [];
    } else if Hard(cfg, t[e]) {
      SplitHard(cfg, t, e, last);
      UnharmedParts(cfg, t, e, e + 1);
      SplitUnharmed(cfg, t[e + 1..], true);
      ReadableCons(t[..e], SplitFrom(cfg, t[e + 1..], true));
    } else {
      var (d, saw) := Delimiter(cfg, t[e..]);
      SplitSoft(cfg, t, e, last);
      DelimiterDelimits(cfg, t, e);
      DelimiterMoves(cfg, t, e);
      UnharmedParts(cfg, t, e, e + d);
      SplitUnharmed(cfg, t[e + d..], false);
      ReadableCons(t[..e], SplitFrom(cfg, t[e + d..], false));
      assert e == 0 ==> t[..e] == [];
    }
  }

  lemma DataRunRuns(cfg: Config, t: Text)
    ensures var e := DataRun(cfg, t);
      (forall j :: 0 <= j < e ==> !Delimits(cfg, t[j])) && (e < |t| ==> Delimits(cfg, t[e]))
  { hide Delimits; }

  lemma EmptyReadable(cfg: Config)
    ensures Readable([]) && AllReadable([]) && Unharmed(cfg, [])
    ensures forall f :: AllReadable([f]) <==> Readable(f)
  {
    forall f: Text ensures AllReadable([f]) <==> Readable(f) { assert [f][0] == f; }
  }

  lemma FieldsUnharmed(cfg: Config, t: Text)
    requires Separable(cfg, t)
    ensures AllReadable(Fields(cfg, t)) <==> Unharmed(cfg, t)
  {
    var k := WhiteRun(cfg, t);
    assert forall j :: 0 <= j < k ==> Delimits(cfg, t[j]);
    hide Fields, SplitFrom, Unharmed, Readable, AllReadable, Separable, WhiteRun;
    SplitIsFields(cfg, t);
    SplitUnharmed(cfg, t[k..], false);
    EmptyReadable(cfg);
    if k > 0 { UnharmedParts(cfg, t, 0, k); } else { assert t[k..] == t; }
    assert t[..0] == [];
  }

  // ----- Boundary bytes that were typed -------------------------------------------------------

  /** No 0x01 was typed, or it is no boundary. */
  predicate Plain(cfg: Config, t: Text) { cfg.bound ==> forall j :: 0 <= j < |t| && t[j].Cell? ==> t[j].c != SOH }

  function Raw(cfg: Config): Config { cfg.(bound := false) }

  lemma RawCells(cfg: Config, x: Cell)
    ensures White(Raw(cfg), x) == White(cfg, x) && Mark(Raw(cfg), x) == Mark(cfg, x)
    ensures (x.Cell? && cfg.bound ==> x.c != SOH) ==>
      Hard(Raw(cfg), x) == Hard(cfg, x) && Delimits(Raw(cfg), x) == Delimits(cfg, x)
  {}

  lemma {:induction false} RawRuns(cfg: Config, t: Text)
    ensures WhiteRun(Raw(cfg), t) == WhiteRun(cfg, t)
    ensures Plain(cfg, t) ==> DataRun(Raw(cfg), t) == DataRun(cfg, t)
  {
    if t != [] {
      RawCells(cfg, t[0]);
      hide White, Delimits;
      RawRuns(cfg, t[1..]);
    }
  }

  lemma RawDelimiter(cfg: Config, t: Text)
    ensures Delimiter(Raw(cfg), t) == Delimiter(cfg, t)
  {
    hide WhiteRun, Mark;
    RawRuns(cfg, t);
    var k := WhiteRun(cfg, t);
    if k < |t| {
      RawCells(cfg, t[k]);
      RawRuns(cfg, t[k + 1..]);
    }
  }

  lemma {:induction false} RawSplit(cfg: Config, t: Text, last: bool)
    requires Plain(cfg, t)
    ensures SplitFrom(Raw(cfg), t, last) == SplitFrom(cfg, t, last)
    decreases |t|
  {
    RawRuns(cfg, t);
    hide SplitFrom, DataRun, Delimiter, Delimits, Hard, Separates;
    var e := DataRun(cfg, t);
    if e == |t| {
      SplitEnds(cfg, t, last);
      SplitEnds(Raw(cfg), t, last);
    } else {
      RawCells(cfg, t[e]);
      if Hard(cfg, t[e]) {
        SplitHard(cfg, t, e, last);
        SplitHard(Raw(cfg), t, e, last);
        RawSplit(cfg, t[e + 1..], true);
      } else {
        RawDelimiter(cfg, t[e..]);
        DelimiterMoves(cfg, t, e);
        SplitSoft(cfg, t, e, last);
        SplitSoft(Raw(cfg), t, e, last);
        RawSplit(cfg, t[e + Delimiter(cfg, t[e..]).0..], false);
      }
    }
  }

  lemma RawFields(cfg: Config, t: Text)
    requires Plain(cfg, t) && Separable(cfg, t)
    ensures Fields(Raw(cfg), t) == Fields(cfg, t) && (Unharmed(Raw(cfg), t) <==> Unharmed(cfg, t))
  {
    assert Separable(Raw(cfg), t);
    hide Fields, SplitFrom, Separable, WhiteRun, Unharmed;
    RawRuns(cfg, t);
    var k := WhiteRun(cfg, t);
    RawSplit(cfg, t[k..], false);
    SplitIsFields(cfg, t);
    SplitIsFields(Raw(cfg), t);
    FieldsUnharmed(cfg, t);
    FieldsUnharmed(Raw(cfg), t);
  }

  // ----- Counting marker bytes ----------------------------------------------------------------

  /** How many bytes of `s` are in `m`. */
  function Count(s: string, m: set<char>): nat {
    if s == [] then 0 else (if s[0] in m then 1 else 0) + Count(s[1..], m)
  }

  function CountAll(ws: seq<string>, m: set<char>): nat {
    if ws == [] then 0 else Count(ws[0], m) + CountAll(ws[1..], m)
  }

  const MARKERS: set<char> := {SOH, QG_OPEN, QG_CLOSE, PP_ESC, QG_NULL}

  lemma MarkersAreReserved(c: char)
    ensures c in MARKERS <==> Reserved(c)
  {}

  lemma {:induction false} CountSplits(a: string, b: string, m: set<char>)
    ensures Count(a + b, m) == Count(a, m) + Count(b, m)
  {
    if a == [] { assert a + b == b; }
    else { assert (a + b)[1..] == a[1..] + b; CountSplits(a[1..], b, m); }
  }

  lemma CountOne(c: char, m: set<char>)
    ensures Count([c], m) == (if c in m then 1 else 0) && Count([], m) == 0
  {}

  /** A marker byte in decoded text comes from an escape byte or is there already. */
  lemma {:induction false} DecodedCount(s: string)
    ensures Count(Decode(s), MARKERS) <= Count(s, MARKERS - {QG_NULL})
    decreases |s|
  {
    hide ClearBit6;
    if s == [] {
    } else if s[0] == PP_ESC && |s| > 1 {
      DecodedCount(s[2..]);
      assert s[1..][1..] == s[2..];
      CountSplits([ClearBit6(s[1])], Decode(s[2..]), MARKERS);
      CountOne(ClearBit6(s[1]), MARKERS);
    } else {
      DecodedCount(s[1..]);
      CountSplits([s[0]], Decode(s[1..]), MARKERS);
      CountOne(s[0], MARKERS);
    }
  }

  lemma {:induction false} CountFields(fs: seq<Text>)
    ensures CountAll(DecodeAll(fs), MARKERS) <= Count(Chars(Flatten(fs)), MARKERS - {QG_NULL})
  {
    if fs == [] {
      assert DecodeAll(fs) == [] && Flatten(fs) == [];
    } else {
      var f := fs[0];
      assert fs == [f] + fs[1..];
      assert DecodeAll(fs)[1..] == DecodeAll(fs[1..]) && DecodeAll(fs)[0] == Decode(Chars(f));
      hide Decode, Count, DecodeAll;
      CountFields(fs[1..]);
      DecodedCount(Chars(f));
      CharsSplit(f, Flatten(fs[1..]));
      CountSplits(Chars(f), Chars(Flatten(fs[1..])), MARKERS - {QG_NULL});
    }
  }

  /** The markers that can get into the words: no placeholder, no boundary, no guard. */
  function Surviving(bound: bool, guarded: bool): set<char> {
    {PP_ESC} + (if bound then {} else {SOH}) + (if guarded then {} else {QG_OPEN, QG_CLOSE})
  }

  lemma {:induction false} CountData(cfg: Config, guarded: bool, t: Text)
    requires forall j :: 0 <= j < |t| ==> t[j].Cell? && (guarded ==> t[j].c != QG_OPEN && t[j].c != QG_CLOSE)
    ensures Count(Chars(WordFields.Data(cfg, t)), MARKERS - {QG_NULL}) <= Count(Chars(t), Surviving(cfg.bound, guarded))
  {
    if t == [] {
      assert WordFields.Data(cfg, t) == [];
    } else {
      CountData(cfg, guarded, t[1..]);
      assert t == [t[0]] + t[1..];
      var d := if Delimits(cfg, t[0]) then [] else [t[0]];
      CharsSplit([t[0]], t[1..]);
      CharsSplit(d, WordFields.Data(cfg, t[1..]));
      assert Chars([t[0]]) == [t[0].c] && (d == [] ==> Chars(d) == []);
      hide Count;
      CountSplits([t[0].c], Chars(t[1..]), Surviving(cfg.bound, guarded));
      CountSplits(Chars(d), Chars(WordFields.Data(cfg, t[1..])), MARKERS - {QG_NULL});
      CountOne(t[0].c, Surviving(cfg.bound, guarded));
      CountOne(t[0].c, MARKERS - {QG_NULL});
    }
  }

  lemma {:induction false} CountStripped(s: string, depth: nat, m: set<char>)
    requires QG_OPEN !in m && QG_CLOSE !in m
    ensures Count(Chars(Strip(s, depth)), m) == Count(s, m)
    ensures forall j :: 0 <= j < |Strip(s, depth)| ==>
      Strip(s, depth)[j].Cell? && Strip(s, depth)[j].c != QG_OPEN && Strip(s, depth)[j].c != QG_CLOSE
  {
    if s != [] {
      var d := if s[0] == QG_OPEN then depth + 1 else if s[0] == QG_CLOSE && depth > 0 then depth - 1 else depth;
      CountStripped(s[1..], d, m);
      if s[0] != QG_OPEN && s[0] != QG_CLOSE {
        var x := Cell(s[0], depth > 0);
        assert Chars([x]) == [s[0]];
        CharsSplit([x], Strip(s[1..], depth));
        CountSplits([s[0]], Chars(Strip(s[1..], depth)), m);
        CountOne(s[0], m);
      }
    }
  }

  lemma CountWords(env: Env, w: Word)
    ensures CountAll(WordsOf(env, w), MARKERS)
         <= Count(Emitted(env, w, false), Surviving(Bounds(env, w), Guarded(env, w)))
  {
    var cfg, t, g := ConfigOf(env, w), Stripped(env, w), Guarded(env, w);
    var m := Surviving(cfg.bound, g);
    if g {
      CountStripped(Emitted(env, w, false), 0, m);
    } else {
      assert Chars(AsCells(Emitted(env, w, false), false)) == Emitted(env, w, false);
    }
    hide Count, Chars, Strip, Emitted, Split, Surviving;
    WordKeepsData(cfg, t);
    CountFields(Split(cfg, t));
    CountData(cfg, g, t);
  }

  /** How many marker bytes are in the data of a text. */
  function Marked(t: Text): nat {
    if t == [] then 0 else (if (t[0].Cell? || t[0].Datum?) && t[0].c in MARKERS then 1 else 0) + Marked(t[1..])
  }

  lemma {:induction false} MarkedSplits(a: Text, b: Text)
    ensures Marked(a + b) == Marked(a) + Marked(b)
  {
    if a == [] { assert a + b == b; }
    else { assert (a + b)[1..] == a[1..] + b; MarkedSplits(a[1..], b); }
  }

  lemma {:induction false} MarkedIsCount(t: Text)
    requires forall j :: 0 <= j < |t| ==> t[j].Cell? || t[j].Datum?
    ensures Marked(t) == Count(Chars(t), MARKERS)
  {
    if t != [] {
      MarkedIsCount(t[1..]);
      assert t == [t[0]] + t[1..] && Chars([t[0]]) == [t[0].c];
      CharsSplit([t[0]], t[1..]);
      CountSplits([t[0].c], Chars(t[1..]), MARKERS);
      CountOne(t[0].c, MARKERS);
    }
  }

  lemma MarkedText(s: string, ifs: string, prot: bool)
    ensures Marked(AsData(s, prot)) == Marked(AsCells(s, prot)) == Marked(TypedCells(ifs, s)) == Count(s, MARKERS)
  {
    MarkedIsCount(AsData(s, prot));
    MarkedIsCount(AsCells(s, prot));
    MarkedIsCount(TypedCells(ifs, s));
    assert Chars(AsData(s, prot)) == Chars(AsCells(s, prot)) == Chars(TypedCells(ifs, s)) == s;
  }

  lemma {:induction false} EscapedCount(s: string, m: set<char>)
    requires PP_ESC in m && m <= MARKERS
    ensures Count(Escape(s), m) == Count(s, MARKERS)
  {
    if s != [] {
      EscapedCount(s[1..], m);
      assert Escape(s) == EscapeByte(s[0]) + Escape(s[1..]);
      hide Escape, EscapeByte;
      CountSplits(EscapeByte(s[0]), Escape(s[1..]), m);
      EscapedByteCount(s[0], m);
    }
  }

  lemma EscapedByteCount(c: char, m: set<char>)
    requires PP_ESC in m && m <= MARKERS
    ensures Count(EscapeByte(c), m) == if c in MARKERS then 1 else 0
  {
    var e := EscapeByte(c);
    MarkersAreReserved(c);
    CountOne(c, m);
    if Reserved(c) {
      assert e == [PP_ESC] + [c + '@'] && c + '@' !in MARKERS;
      CountSplits([PP_ESC], [c + '@'], m);
      CountOne(PP_ESC, m);
      CountOne(c + '@', m);
    }
  }

  /** A byte of `s` is a marker and not in `m`. */
  predicate Loses(s: string, m: set<char>) { exists c :: c in s && c in MARKERS && c !in m }

  lemma {:induction false} CountFewer(s: string, m: set<char>)
    requires m <= MARKERS
    ensures Count(s, m) <= Count(s, MARKERS) && (Loses(s, m) ==> Count(s, m) < Count(s, MARKERS))
  {
    if s != [] {
      CountFewer(s[1..], m);
      assert s == [s[0]] + s[1..];
    }
  }

  lemma {:induction false} LiteralCount(ifs: string, s: string, m: set<char>)
    requires AnyOf(ifs, s) ==> QG_OPEN !in m && QG_CLOSE !in m && QG_NULL !in m
    ensures Count(Literal(ifs, s), m) == Count(s, m)
  {
    if s != [] {
      var c := s[0];
      assert c in s && (AnyOf(ifs, s[1..]) ==> AnyOf(ifs, s));
      LiteralCount(ifs, s[1..], m);
      CountSplits(LiteralByte(ifs, c), Literal(ifs, s[1..]), m);
      CountOne(c, m);
      if c in ifs {
        var tail := (if c == QG_OPEN then [QG_NULL] else []) + [QG_CLOSE];
        assert LiteralByte(ifs, c) == [QG_OPEN] + ([c] + tail);
        CountOne(QG_NULL, m);
        CountOne(QG_CLOSE, m);
        CountSplits(if c == QG_OPEN then [QG_NULL] else [], [QG_CLOSE], m);
        CountSplits([c], tail, m);
        CountSplits([QG_OPEN], [c] + tail, m);
        CountOne(QG_OPEN, m);
      }
    }
  }

  lemma ParameterCount(p: string)
    ensures Marked(Parameter(p)) == Marked(AsData(p, true)) && Marked([]) == 0 && Marked([Placeholder]) == 0
  {
    if p == "" { assert AsData(p, true) == [] && [Placeholder][1..] == []; }
  }

  lemma BoundaryCount(prot: bool)
    ensures Marked([Boundary(prot)]) == 0
  {}

  lemma {:induction false} JoinCount(ps: seq<string>, prot: bool, m: set<char>)
    requires PP_ESC in m && m <= MARKERS && (|ps| >= 2 ==> SOH !in m)
    ensures Count(Join(ps), m) == Marked(JoinCells(ps, prot)) == Marked(Parameters(ps))
  {
    CountOne(SOH, m);
    ParameterCount("");
    if ps != [] {
      hide Count, Marked, Escape, AsData, Parameter;
      EscapedCount(ps[0], m);
      MarkedText(ps[0], "", prot);
      MarkedText(ps[0], "", true);
      ParameterCount(ps[0]);
      if |ps| > 1 {
        JoinCount(ps[1..], prot, m);
        BoundaryCount(prot);
        BoundaryCount(true);
        CountOne(SOH, m);
        CountSplits(Escape(ps[0]), [SOH], m);
        CountSplits(Escape(ps[0]) + [SOH], Join(ps[1..]), m);
        MarkedSplits(AsData(ps[0], prot), [Boundary(prot)]);
        MarkedSplits(AsData(ps[0], prot) + [Boundary(prot)], JoinCells(ps[1..], prot));
        MarkedSplits(Parameter(ps[0]), [Boundary(true)]);
        MarkedSplits(Parameter(ps[0]) + [Boundary(true)], Parameters(ps[1..]));
      }
    }
  }

  predicate AtomLoses(a: Atom, m: set<char>) { a.Typed? && Loses(a.text, m) }

  predicate PartLoses(p: Part, m: set<char>) {
    match p
    case Bare(a) => AtomLoses(a, m)
    case Quotes(atoms) => exists i :: 0 <= i < |atoms| && AtomLoses(atoms[i], m)
  }

  /** What the set of surviving markers is of a word. */
  predicate MarkersOf(env: Env, p: Part, m: set<char>) {
    && PP_ESC in m && m <= MARKERS - {QG_NULL}
    && (PartBounds(env, p) ==> SOH !in m)
    && (PartGuards(env, p) ==> QG_OPEN !in m && QG_CLOSE !in m)
  }

  lemma BareCount(env: Env, a: Atom, m: set<char>)
    requires MarkersOf(env, Bare(a), m)
    ensures Count(BareText(env, a), m) <= Marked(BareCells(env, a))
    ensures AtomLoses(a, m) ==> Count(BareText(env, a), m) < Marked(BareCells(env, a))
  {
    hide Count, Marked, Literal, Escape, AsData, Loses;
    match a
    case Typed(s) =>
      LiteralCount(env.ifs, s, m);
      CountFewer(s, m);
      MarkedText(s, env.ifs, false);
    case Result(s) =>
      EscapedCount(s, m);
      MarkedText(s, env.ifs, false);
    case Params =>
      if env.ifs == "" {
        JoinCount(NonEmpty(env.ps), false, m);
      } else {
        EscapedCount(JoinWith(env.ps, env.ifs[0]), m);
        MarkedText(JoinWith(env.ps, env.ifs[0]), env.ifs, false);
      }
  }

  lemma QuotedCount(env: Env, a: Atom, m: set<char>)
    requires PP_ESC in m && m <= MARKERS && (a.Params? && |env.ps| >= 2 ==> SOH !in m)
    ensures Count(QuotedText(env, a), m) <= Marked(MeantCells(env, a))
    ensures AtomLoses(a, m) ==> Count(QuotedText(env, a), m) < Marked(MeantCells(env, a))
  {
    hide Count, Marked, Escape, AsData, Loses;
    match a
    case Typed(s) => CountFewer(s, m); MarkedText(s, env.ifs, true);
    case Result(s) => EscapedCount(s, m); MarkedText(s, env.ifs, true);
    case Params => JoinCount(env.ps, true, m);
  }

  lemma {:induction false} ContentCount(env: Env, atoms: seq<Atom>, m: set<char>)
    requires MarkersOf(env, Quotes(atoms), m)
    ensures Count(Content(env, atoms), m) <= Marked(MeantContent(env, atoms))
    ensures PartLoses(Quotes(atoms), m) ==> Count(Content(env, atoms), m) < Marked(MeantContent(env, atoms))
  {
    if atoms == [] {
      CountOne(SOH, m);
    } else {
      assert Params in atoms[1..] ==> Params in atoms;
      assert atoms[0].Params? ==> atoms[0] == Params && Params in atoms;
      hide Count, Marked, QuotedText, MeantCells, AtomLoses;
      ContentCount(env, atoms[1..], m);
      QuotedCount(env, atoms[0], m);
      CountSplits(QuotedText(env, atoms[0]), Content(env, atoms[1..]), m);
      MarkedSplits(MeantCells(env, atoms[0]), MeantContent(env, atoms[1..]));
      if i :| 0 <= i < |atoms| && AtomLoses(atoms[i], m) {
        if i > 0 { assert atoms[1..][i - 1] == atoms[i]; }
      }
    }
  }

  lemma RegionCount(env: Env, atoms: seq<Atom>, empty: bool, m: set<char>)
    requires MarkersOf(env, Quotes(atoms), m)
    ensures Count(Region(env, atoms, empty), m) <= Marked(MeantRegion(env, atoms))
    ensures PartLoses(Quotes(atoms), m) ==> Count(Region(env, atoms, empty), m) < Marked(MeantRegion(env, atoms))
  {
    var c := Content(env, atoms);
    var s := [QG_OPEN] + c;
    var n := if s[|s| - 1] == QG_OPEN && (empty || NoParams(env, atoms)) == empty then [QG_NULL] else [];
    assert Region(env, atoms, empty) == s + n + [QG_CLOSE];
    assert Marked([Placeholder]) == 0 && Marked([]) == 0;
    assert Count(n, m) == 0 by { CountOne(QG_NULL, m); }
    hide Count, Marked, Content, MeantContent, PartLoses;
    ContentCount(env, atoms, m);
    CountOne(QG_OPEN, m);
    CountOne(QG_CLOSE, m);
    CountSplits([QG_OPEN], c, m);
    CountSplits(s, n, m);
    CountSplits(s + n, [QG_CLOSE], m);
  }

  lemma {:induction false} EmittedCount(env: Env, w: Word, empty: bool, m: set<char>)
    requires forall i :: 0 <= i < |w| ==> MarkersOf(env, w[i], m)
    ensures Count(Emitted(env, w, empty), m) <= Marked(CellsOf(env, w))
    ensures (exists i :: 0 <= i < |w| && PartLoses(w[i], m)) ==>
      Count(Emitted(env, w, empty), m) < Marked(CellsOf(env, w))
  {
    if w == [] {
      CountOne(SOH, m);
    } else {
      hide Count, Marked, Region, MeantRegion, BareText, BareCells, MarkersOf;
      assert MarkersOf(env, w[0], m);
      var after := if w[0].Bare? then empty else empty || NoParams(env, w[0].atoms);
      EmittedCount(env, w[1..], after, m);
      if w[0].Bare? {
        BareCount(env, w[0].atom, m);
        CountSplits(BareText(env, w[0].atom), Emitted(env, w[1..], after), m);
        MarkedSplits(BareCells(env, w[0].atom), CellsOf(env, w[1..]));
      } else {
        RegionCount(env, w[0].atoms, empty, m);
        CountSplits(Region(env, w[0].atoms, empty), Emitted(env, w[1..], after), m);
        MarkedSplits(MeantRegion(env, w[0].atoms), CellsOf(env, w[1..]));
      }
      if i :| 0 <= i < |w| && PartLoses(w[i], m) {
        if i > 0 { assert w[1..][i - 1] == w[i]; }
      }
    }
  }

  // ----- The cells of a word ------------------------------------------------------------------

  predicate AtomFree(a: Atom, bad: set<char>) { a.Typed? ==> forall c :: c in a.text ==> c !in bad }

  predicate PartFree(p: Part, bad: set<char>) {
    match p
    case Bare(a) => AtomFree(a, bad)
    case Quotes(atoms) => forall i :: 0 <= i < |atoms| ==> AtomFree(atoms[i], bad)
  }

  /** The cells that stand for themselves are free of `bad` bytes, and do not separate. */
  predicate TypedIn(ifs: string, t: Text, bad: set<char>) {
    forall j :: 0 <= j < |t| && t[j].Cell? ==> t[j].c !in bad && (t[j].prot || t[j].c !in ifs)
  }

  lemma TypedInSplits(ifs: string, a: Text, b: Text, bad: set<char>)
    requires TypedIn(ifs, a, bad) && TypedIn(ifs, b, bad)
    ensures TypedIn(ifs, a + b, bad)
  {}

  lemma {:induction false} JoinTyped(ifs: string, ps: seq<string>, prot: bool, bad: set<char>)
    ensures TypedIn(ifs, JoinCells(ps, prot), bad)
  { if |ps| >= 2 { JoinTyped(ifs, ps[1..], prot, bad); } }

  lemma BareTyped(env: Env, a: Atom, bad: set<char>)
    requires AtomFree(a, bad)
    ensures TypedIn(env.ifs, BareCells(env, a), bad)
  { if a.Params? { JoinTyped(env.ifs, NonEmpty(env.ps), false, bad); } }

  lemma {:induction false} ContentTyped(env: Env, atoms: seq<Atom>, bad: set<char>)
    requires PartFree(Quotes(atoms), bad)
    ensures TypedIn(env.ifs, KeptContent(env, atoms), bad)
  {
    if atoms != [] {
      assert AtomFree(atoms[0], bad) && PartFree(Quotes(atoms[1..]), bad);
      ContentTyped(env, atoms[1..], bad);
      JoinTyped(env.ifs, env.ps, true, bad);
      assert TypedIn(env.ifs, KeptCells(env, atoms[0]), bad);
      TypedInSplits(env.ifs, KeptCells(env, atoms[0]), KeptContent(env, atoms[1..]), bad);
    }
  }

  lemma {:induction false} KeptTyped(env: Env, w: Word, empty: bool, bad: set<char>)
    requires forall i :: 0 <= i < |w| ==> PartFree(w[i], bad)
    ensures TypedIn(env.ifs, CellsKept(env, w, empty), bad)
  {
    if w != [] {
      assert PartFree(w[0], bad);
      var after := if w[0].Bare? then empty else empty || NoParams(env, w[0].atoms);
      KeptTyped(env, w[1..], after, bad);
      if w[0].Bare? {
        BareTyped(env, w[0].atom, bad);
        TypedInSplits(env.ifs, BareCells(env, w[0].atom), CellsKept(env, w[1..], after), bad);
      } else {
        ContentTyped(env, w[0].atoms, bad);
        TypedInSplits(env.ifs, KeptRegion(env, w[0].atoms, empty), CellsKept(env, w[1..], after), bad);
      }
    }
  }

  /** Marker bytes in the data do not delimit. */
  predicate Solid(cfg: Config, t: Text) {
    forall j :: 0 <= j < |t| && (t[j].Cell? || t[j].Datum?) && t[j].c in MARKERS ==> !Delimits(cfg, t[j])
  }

  lemma SolidSplits(cfg: Config, a: Text, b: Text)
    requires Solid(cfg, a) && Solid(cfg, b)
    ensures Solid(cfg, a + b)
  {}

  lemma {:induction false} ParametersSolid(cfg: Config, ps: seq<string>)
    requires !cfg.bound
    ensures Solid(cfg, Parameters(ps)) && (cfg.ifs == "" ==> Solid(cfg, JoinCells(ps, false)))
  { if |ps| >= 2 { ParametersSolid(cfg, ps[1..]); } }

  lemma BareSolid(cfg: Config, env: Env, a: Atom)
    requires !cfg.bound && cfg.ifs == env.ifs && PartFits(env, Bare(a))
    ensures Solid(cfg, BareCells(env, a))
  {
    match a
    case Typed(s) =>
    case Result(s) => FitsSolid(cfg, s);
    case Params =>
      ParametersSolid(cfg, NonEmpty(env.ps));
      if env.ifs != "" { FitsSolid(cfg, JoinWith(env.ps, env.ifs[0])); }
  }

  lemma FitsSolid(cfg: Config, s: string)
    requires !cfg.bound && Fits(cfg.ifs, s)
    ensures Solid(cfg, AsData(s, false))
  {
    forall i | 0 <= i < |s| && s[i] in MARKERS ensures s[i] !in cfg.ifs { MarkersAreReserved(s[i]); }
  }

  lemma {:induction false} ContentSolid(cfg: Config, env: Env, atoms: seq<Atom>)
    requires !cfg.bound && cfg.ifs == env.ifs
    ensures Solid(cfg, MeantContent(env, atoms))
  {
    if atoms != [] {
      ContentSolid(cfg, env, atoms[1..]);
      ParametersSolid(cfg, env.ps);
      assert Solid(cfg, MeantCells(env, atoms[0]));
      SolidSplits(cfg, MeantCells(env, atoms[0]), MeantContent(env, atoms[1..]));
    }
  }

  lemma {:induction false} MeantSolid(cfg: Config, env: Env, w: Word)
    requires !cfg.bound && cfg.ifs == env.ifs && WordFits(env, w)
    ensures Solid(cfg, CellsOf(env, w))
  {
    if w != [] {
      assert PartFits(env, w[0]) && WordFits(env, w[1..]);
      hide PartFits, BareCells, MeantContent, Solid;
      MeantSolid(cfg, env, w[1..]);
      EmptySolid(cfg);
      if w[0].Bare? {
        BareSolid(cfg, env, w[0].atom);
        SolidSplits(cfg, BareCells(env, w[0].atom), CellsOf(env, w[1..]));
      } else {
        ContentSolid(cfg, env, w[0].atoms);
        SolidSplits(cfg, MeantRegion(env, w[0].atoms), CellsOf(env, w[1..]));
      }
    } else {
      EmptySolid(cfg);
    }
  }

  lemma EmptySolid(cfg: Config)
    ensures Solid(cfg, []) && Solid(cfg, [Placeholder])
  {}

  lemma {:induction false} SolidData(cfg: Config, t: Text)
    requires Solid(cfg, t)
    ensures Marked(WordFields.Data(cfg, t)) == Marked(t)
  {
    if t != [] {
      assert Solid(cfg, t[1..]);
      SolidData(cfg, t[1..]);
      assert t == [t[0]] + t[1..];
      MarkedSplits([t[0]], t[1..]);
      MarkedSplits(if Delimits(cfg, t[0]) then [] else [t[0]], WordFields.Data(cfg, t[1..]));
    }
  }

  lemma {:induction false} ValueCount(t: Text)
    ensures Count(Value(t), MARKERS) >= Marked(t)
  {
    if t != [] {
      ValueCount(t[1..]);
      CountSplits(CellValue(t[0]), Value(t[1..]), MARKERS);
      CountOne(Byte(t[0]), MARKERS);
    }
  }

  lemma {:induction false} ValuesCount(fs: seq<Text>)
    ensures CountAll(Values(fs), MARKERS) >= Marked(Flatten(fs))
  {
    if fs != [] {
      assert Values(fs)[1..] == Values(fs[1..]) && Values(fs)[0] == Value(fs[0]);
      hide Value, Count, Marked, Values;
      ValuesCount(fs[1..]);
      ValueCount(fs[0]);
      MarkedSplits(fs[0], Flatten(fs[1..]));
    }
  }

  lemma MeantCount(env: Env, w: Word)
    requires WordFits(env, w)
    ensures CountAll(WordsMeant(env, w), MARKERS) >= Marked(CellsOf(env, w))
  {
    var cfg, t := Config(env.ifs, false), CellsOf(env, w);
    hide Count, Marked, Fields, Split, CellsOf, WordFits, Solid;
    MeantSolid(cfg, env, w);
    SolidData(cfg, t);
    WordKeepsData(cfg, t);
    NeverAmbiguous(cfg, t);
    SplitIsFields(cfg, t);
    ValuesCount(Fields(cfg, t));
  }

  lemma NeverAmbiguous(cfg: Config, t: Text)
    requires !cfg.bound
    ensures Separable(cfg, t)
  {}

  // ----- What the words are -------------------------------------------------------------------

  function SurvivingOf(env: Env, w: Word): set<char> { Surviving(Bounds(env, w), Guarded(env, w)) }

  /** No marker byte was typed that is taken for what it marks: no placeholder, no 0x01 in a word with
      boundaries, no guard in a word with guards. */
  predicate NothingLost(env: Env, w: Word) { forall i :: 0 <= i < |w| ==> !PartLoses(w[i], SurvivingOf(env, w)) }

  lemma SurvivingFits(env: Env, w: Word)
    ensures forall i :: 0 <= i < |w| ==> MarkersOf(env, w[i], SurvivingOf(env, w))
  {
    forall i | 0 <= i < |w| ensures MarkersOf(env, w[i], SurvivingOf(env, w)) {
      assert (PartBounds(env, w[i]) ==> Bounds(env, w)) && (PartGuards(env, w[i]) ==> Guarded(env, w));
    }
  }

  /** A byte that is lost is missed: the words of the shell have fewer marker bytes than are meant. */
  lemma LostIsMissed(env: Env, w: Word)
    requires WordFits(env, w) && !NothingLost(env, w)
    ensures WordsOf(env, w) != WordsMeant(env, w)
  {
    hide WordFits, PartLoses, MarkersOf, CellsOf, Emitted, WordsOf, WordsMeant, Count, Marked, Surviving;
    SurvivingFits(env, w);
    EmittedCount(env, w, false, SurvivingOf(env, w));
    CountWords(env, w);
    MeantCount(env, w);
  }

  lemma FreeOfLost(env: Env, w: Word)
    requires NothingLost(env, w)
    ensures forall i :: 0 <= i < |w| ==> PartFree(w[i], MARKERS - SurvivingOf(env, w))
    ensures Guarded(env, w) ==> Clean(w)
  {
    var m := SurvivingOf(env, w);
    forall i | 0 <= i < |w| ensures PartFree(w[i], MARKERS - m) && (Guarded(env, w) ==> PartClean(w[i])) {
      assert !PartLoses(w[i], m);
      if w[i].Bare? {
        FreeAtom(w[i].atom, m);
      } else {
        forall k | 0 <= k < |w[i].atoms|
          ensures AtomFree(w[i].atoms[k], MARKERS - m) && (Guarded(env, w) ==> AtomClean(w[i].atoms[k]))
        { FreeAtom(w[i].atoms[k], m); }
      }
    }
  }

  lemma FreeAtom(a: Atom, m: set<char>)
    requires !AtomLoses(a, m)
    ensures AtomFree(a, MARKERS - m) && (QG_OPEN !in m && QG_CLOSE !in m ==> AtomClean(a))
  {
    if a.Typed? {
      assert !Loses(a.text, m);
      forall c | c in a.text ensures c !in MARKERS - m {}
    }
  }

  lemma KeptIsSound(env: Env, w: Word)
    requires NothingLost(env, w)
    ensures Separable(ConfigOf(env, w), CellsKept(env, w, false)) && Plain(ConfigOf(env, w), CellsKept(env, w, false))
  {
    var t := CellsKept(env, w, false);
    FreeOfLost(env, w);
    KeptTyped(env, w, false, MARKERS - SurvivingOf(env, w));
    hide CellsKept, NothingLost, PartFree, Bounds, Guarded;
    assert SOH in MARKERS;
  }

  /** The whole path of a word in which no marker is lost: there are as many words as fields of its cells,
      cut at the unquoted separators and between the parameters of `$@`; and they are these fields exactly
      if no typed escape byte stands in front of other data of its field. */
  lemma WordsAreFieldsOfData(env: Env, w: Word)
    requires WordFits(env, w) && NothingLost(env, w)
    ensures var cfg, t := Config(env.ifs, false), CellsKept(env, w, false);
      && |WordsOf(env, w)| == |Fields(cfg, t)|
      && (WordsOf(env, w) == Values(Fields(cfg, t)) <==> Unharmed(cfg, t))
  {
    var cfg, t := ConfigOf(env, w), CellsKept(env, w, false);
    hide CellsKept, WordFits, NothingLost, Fields, Split, Encode, Unharmed, Readable;
    hide Separable, Plain, Stripped, Encodable;
    FreeOfLost(env, w);
    StrippedIsKept(env, w);
    KeptFits(cfg, env, w, false);
    KeptIsSound(env, w);
    WordsAreFields(cfg, t);
    FieldsUnharmed(cfg, t);
    RawFields(cfg, t);
  }

  /** For which words the shell makes the words it should: no typed marker is lost, no typed escape byte
      stands in front of other data of its field, and no placeholder that is missing or in excess changes
      the number of fields. */
  lemma WordsMeantExactly(env: Env, w: Word)
    requires WordFits(env, w)
    ensures WordsOf(env, w) == WordsMeant(env, w) <==>
      && NothingLost(env, w)
      && Unharmed(Config(env.ifs, false), CellsKept(env, w, false))
      && Harmless(Config(env.ifs, false), [], WordChunks(env, w, false))
  {
    var cfg, c := Config(env.ifs, false), WordChunks(env, w, false);
    hide CellsKept, CellsOf, WordFits, NothingLost, Fields, Unharmed, Harmless, WordChunks, With, Without, WordsOf;
    if NothingLost(env, w) {
      WordsAreFieldsOfData(env, w);
      WordOfChunks(env, w, false);
      HarmlessExactly(cfg, [], c);
      assert [] + With(c) == With(c) && [] + Without(c) == Without(c);
    } else {
      LostIsMissed(env, w);
    }
  }
}
