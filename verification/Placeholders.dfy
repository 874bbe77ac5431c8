/** What placeholders do to the words: which of those that the shell leaves out, or leaves in excess, are
    harmless. */
module WordPlaceholders {
  import opened WordFields
  import opened WordEncoding
  import opened WordGuards

  predicate AllWhite(cfg: Config, t: Text) { forall j :: 0 <= j < |t| ==> White(cfg, t[j]) }

  /** White space or nothing before, and white space or nothing behind. */
  predicate Alone(cfg: Config, a: Text, b: Text) {
    (a == [] || White(cfg, a[|a| - 1])) && (b == [] || White(cfg, b[0]))
  }

  /** What of `a` belongs to the same piece as the cell behind it. */
  function LastPiece(cfg: Config, a: Text): Text
    decreases |a|
  { var k := FirstStop(cfg, a); if k == |a| then a else LastPiece(cfg, a[k + 1..]) }

  /** A boundary begins that piece; `hard` tells so for the first one. */
  predicate AfterBoundary(cfg: Config, a: Text, hard: bool)
    decreases |a|
  { var k := FirstStop(cfg, a); if k == |a| then hard else AfterBoundary(cfg, a[k + 1..], Hard(cfg, a[k])) }

  function FirstPiece(cfg: Config, b: Text): Text { b[..FirstStop(cfg, b)] }

  /** A placeholder between `a` and `b` is a field of its own, and one that would not be there without it: a
      boundary or a separator ends an empty field anyway, and so does a word behind a boundary. */
  predicate AddsField(cfg: Config, a: Text, b: Text, hard: bool) {
    var x, y := LastPiece(cfg, a), FirstPiece(cfg, b);
    && Alone(cfg, x, y)
    && if |y| == |b| then !(x == [] && y == [] && AfterBoundary(cfg, a, hard))
       else if Hard(cfg, b[|y|]) then y != []
       else !AllWhite(cfg, x + y)
  }

  // ----- One placeholder more -----------------------------------------------------------------

  lemma ValueSplits(a: Text, b: Text)
    ensures Value(a + b) == Value(a) + Value(b)
  {
    if a == [] { assert a + b == b; }
    else { assert (a + b)[1..] == a[1..] + b; ValueSplits(a[1..], b); }
  }

  lemma ValueSkips(a: Text, b: Text)
    ensures Value(a + [Placeholder] + b) == Value(a + b)
  {
    assert Value([Placeholder]) == [];
    hide Value;
    ValueSplits(a + [Placeholder], b);
    ValueSplits(a, [Placeholder]);
    ValueSplits(a, b);
  }

  lemma ValuesCons(f: Text, fs: seq<Text>)
    ensures Values([f] + fs) == [Value(f)] + Values(fs)
  {}

  lemma ValuesSplit(a: seq<Text>, b: seq<Text>)
    ensures Values(a + b) == Values(a) + Values(b)
  {}

  lemma WordsOfRun(cfg: Config, t: Text, k: nat)
    requires 0 < k <= |t| && (k < |t| ==> White(cfg, t[k])) && forall j :: 0 <= j < k ==> !White(cfg, t[j])
    ensures Words(cfg, t) == [t[..k]] + Words(cfg, t[k..])
  { NonWhiteRunIs(cfg, t, k); }

  lemma FirstOfWords(cfg: Config, a: Text, b: Text)
    requires a != []
    ensures White(cfg, a[0]) ==> Words(cfg, a + b) == Words(cfg, a[1..] + b)
    ensures var k := NonWhiteRun(cfg, a);
      !White(cfg, a[0]) && k < |a| ==> k > 0 && Words(cfg, a + b) == [a[..k]] + Words(cfg, a[k..] + b)
  {
    var k := NonWhiteRun(cfg, a);
    if White(cfg, a[0]) {
      assert (a + b)[1..] == a[1..] + b;
    } else if k < |a| {
      WordsOfRun(cfg, a + b, k);
      assert (a + b)[..k] == a[..k] && (a + b)[k..] == a[k..] + b;
    }
  }

  lemma LastKept(cfg: Config, a: Text, b: Text, k: nat)
    requires k < |a| || (k == |a| && a != [] && White(cfg, a[k - 1]))
    ensures Alone(cfg, a[k..], b) <==> Alone(cfg, a, b)
  {}

  /** A word grows by a cell that is not white, or a word more begins. */
  lemma {:induction false} WordsWithPlaceholder(cfg: Config, a: Text, b: Text)
    ensures var v, w := Values(Words(cfg, a + b)), Values(Words(cfg, a + [Placeholder] + b));
      if Alone(cfg, a, b) then |w| == |v| + 1 && (v == [] ==> w == [""]) && (b == [] ==> w == v + [""]) else w == v
    decreases |a|
  {
    hide Words, Values, Value, Alone;
    var p, k := [Placeholder], NonWhiteRun(cfg, a);
    if k == |a| {
      RunWithPlaceholder(cfg, a, b);
    } else {
      var m := if White(cfg, a[0]) then 1 else k;
      hide White, NonWhiteRun;
      FirstOfWords(cfg, a, b);
      FirstOfWords(cfg, a, p + b);
      assert a + (p + b) == a + p + b && a[m..] + (p + b) == a[m..] + p + b;
      LastKept(cfg, a, b, m);
      WordsWithPlaceholder(cfg, a[m..], b);
      ValuesCons(a[..k], Words(cfg, a[k..] + b));
      ValuesCons(a[..k], Words(cfg, a[k..] + p + b));
    }
  }

  lemma Cut(a: Text, b: Text, j: nat)
    requires j <= |b|
    ensures (a + b)[..|a| + j] == a + b[..j] && (a + b)[|a| + j..] == b[j..]
  {}

  lemma FirstWord(cfg: Config, a: Text, b: Text)
    requires forall j :: 0 <= j < |a| ==> !White(cfg, a[j])
    ensures var j := NonWhiteRun(cfg, b);
      Words(cfg, a + b) == (if |a| + j > 0 then [a + b[..j]] else []) + Words(cfg, b[j..])
  {
    var j := NonWhiteRun(cfg, b);
    Cut(a, b, j);
    if |a| + j > 0 { WordsOfRun(cfg, a + b, |a| + j); } else { assert a + b == b == b[j..]; }
  }

  lemma RunWithPlaceholder(cfg: Config, a: Text, b: Text)
    requires forall j :: 0 <= j < |a| ==> !White(cfg, a[j])
    ensures var v, w := Values(Words(cfg, a + b)), Values(Words(cfg, a + [Placeholder] + b));
      if Alone(cfg, a, b) then |w| == |v| + 1 && (v == [] ==> w == [""]) && (b == [] ==> w == v + [""]) else w == v
  {
    var j := NonWhiteRun(cfg, b);
    var p := [Placeholder];
    assert forall i :: 0 <= i < |a + p| ==> !White(cfg, (a + p)[i]);
    assert Alone(cfg, a, b) <==> |a| + j == 0;
    hide Words, NonWhiteRun, White, Values, Value, Alone;
    FirstWord(cfg, a, b);
    FirstWord(cfg, a + p, b);
    ValueSkips(a, b[..j]);
    ValuesCons(a + p + b[..j], Words(cfg, b[j..]));
    ValuesCons(a + b[..j], Words(cfg, b[j..]));
    assert a == [] && b[..j] == [] ==> Value(a + b[..j]) == "" by { ValueSkips([], []); NoValue(); }
    assert [] + Words(cfg, b[j..]) == Words(cfg, b[j..]);
    NoValue();
  }

  lemma NoValue()
    ensures Value([]) == "" && Values([]) == []
  {}

  lemma {:induction false} NoWords(cfg: Config, t: Text)
    ensures Words(cfg, t) == [] <==> AllWhite(cfg, t)
  { if t != [] && White(cfg, t[0]) { NoWords(cfg, t[1..]); } }

  lemma StopBehind(cfg: Config, a: Text, b: Text)
    requires FirstStop(cfg, a) == |a|
    ensures FirstStop(cfg, a + b) == |a| + FirstStop(cfg, b)
  {
    assert (a + b)[|a|..] == b;
    FirstStopSkips(cfg, a + b, |a|);
  }

  lemma StopAt(cfg: Config, a: Text, b: Text, k: nat)
    requires k == FirstStop(cfg, a) < |a|
    ensures FirstStop(cfg, a + b) == k
  {
    FirstStopSkips(cfg, a + b, k);
    assert (a + b)[k..][0] == a[k];
  }

  lemma FieldsOfPiece(cfg: Config, t: Text, k: nat, hard: bool)
    requires k == FirstStop(cfg, t)
    ensures FieldsFrom(cfg, t, hard) ==
      var w := Words(cfg, t[..k]);
      if k == |t| then w + (if t == [] && hard then [[]] else [])
      else PieceThen(w, false, Hard(cfg, t[k]), k == 0 || White(cfg, t[k - 1]),
                     FieldsFrom(cfg, t[k + 1..], Hard(cfg, t[k])))
  {
    hide Words, FirstStop, FieldsFrom, FieldsBehind, PieceThen;
    FieldsStep(cfg, t, false, hard);
    BehindNothing(cfg, t, hard);
  }

  predicate BlankEnd(cfg: Config, x: Text) { x == [] || White(cfg, x[|x| - 1]) }

  /** The fields of the piece `x` and of what is behind its end at `m`. */
  function PieceFields(cfg: Config, x: Text, b: Text, m: nat, hard: bool): seq<Text>
    requires m <= |b|
  {
    var w := Words(cfg, x);
    if m == |b| then w + (if x == [] && hard then [[]] else [])
    else PieceThen(w, false, Hard(cfg, b[m]), BlankEnd(cfg, x), FieldsFrom(cfg, b[m + 1..], Hard(cfg, b[m])))
  }

  lemma PieceIs(cfg: Config, a: Text, b: Text, hard: bool)
    requires FirstStop(cfg, a) == |a|
    ensures var m := FirstStop(cfg, b); FieldsFrom(cfg, a + b, hard) == PieceFields(cfg, a + b[..m], b, m, hard)
  {
    hide Words, FirstStop, FieldsFrom, White, Hard, PieceThen;
    StopBehind(cfg, a, b);
    var t, m := a + b, FirstStop(cfg, b);
    var x := a + b[..m];
    Cut(a, b, m);
    if m < |b| {
      Cut(a, b, m + 1);
      CutCells(a, b, m);
    }
    assert x == t <==> m == |b|;
    FieldsOfPiece(cfg, t, |a| + m, hard);
  }

  lemma CutCells(a: Text, b: Text, m: nat)
    requires m < |b|
    ensures (a + b)[|a| + m] == b[m]
    ensures var x := a + b[..m]; |a| + m > 0 ==> x != [] && x[|x| - 1] == (a + b)[|a| + m - 1]
  {}

  /** The same in words: `v` are those of the piece, `r` those behind it. */
  function PieceWords(v: seq<string>, end: bool, hard: bool, extra: bool, r: seq<string>): seq<string> {
    if end || hard then v + (if extra then [""] else []) + r else (if v == [] then [""] else v) + r
  }

  lemma PieceValues(cfg: Config, x: Text, b: Text, m: nat, hard: bool)
    requires m <= |b|
    ensures Values(PieceFields(cfg, x, b, m, hard)) ==
      if m == |b| then PieceWords(Values(Words(cfg, x)), true, false, x == [] && hard, [])
      else PieceWords(Values(Words(cfg, x)), false, Hard(cfg, b[m]), BlankEnd(cfg, x),
                      Values(FieldsFrom(cfg, b[m + 1..], Hard(cfg, b[m]))))
    ensures Values(Words(cfg, x)) == [] <==> AllWhite(cfg, x)
  {
    hide Words, FieldsFrom, AllWhite, Hard, BlankEnd, Value;
    NoWords(cfg, x);
    EmptyField();
    var w := Words(cfg, x);
    if m == |b| {
      ValuesSplit(w, if x == [] && hard then [[]] else []);
    } else {
      var r := FieldsFrom(cfg, b[m + 1..], Hard(cfg, b[m]));
      var e: seq<Text> := if BlankEnd(cfg, x) then [[]] else [];
      ValuesSplit(w, e);
      ValuesSplit(w + e, r);
      ValuesSplit(if w == [] then [[]] else w, r);
    }
  }

  lemma EmptyField()
    ensures Values([[]]) == [""] && Values([]) == []
  {}

  lemma MoreWords(v: seq<string>, w: seq<string>, end: bool, hard: bool, extra: bool, extra1: bool, r: seq<string>)
    requires w == v ==> extra == extra1
    requires w != v ==> |w| == |v| + 1 && (v == [] ==> w == [""]) && (extra && !extra1 ==> w == v + [""])
    requires w != v ==> extra == extra1 || (extra && !extra1)
    ensures var p, q := PieceWords(v, end, hard, extra, r), PieceWords(w, end, hard, extra1, r);
      if w == v || (if end || hard then extra && !extra1 else v == []) then q == p else |q| == |p| + 1
  {
    if w == v + [""] { assert w + [] + r == v + [""] + r; }
  }

  lemma PieceWithPlaceholder(cfg: Config, a: Text, b: Text, hard: bool)
    requires FirstStop(cfg, a) == |a|
    ensures var v, w := Values(FieldsFrom(cfg, a + b, hard)), Values(FieldsFrom(cfg, a + [Placeholder] + b, hard));
      if AddsField(cfg, a, b, hard) then |w| == |v| + 1 else w == v
  {
    var p, m := [Placeholder], FirstStop(cfg, b);
    assert LastPiece(cfg, a) == a && AfterBoundary(cfg, a, hard) == hard && FirstStop(cfg, p) == 1;
    BlankEnds(cfg, a, b[..m]);
    hide Words, FirstStop, FieldsFrom, Values, AllWhite, Alone, LastPiece, PieceFields, AfterBoundary, BlankEnd, Hard;
    hide PieceWords;
    StopBehind(cfg, a, p);
    PieceIs(cfg, a, b, hard);
    PieceIs(cfg, a + p, b, hard);
    WordsWithPlaceholder(cfg, a, b[..m]);
    PieceValues(cfg, a + b[..m], b, m, hard);
    PieceValues(cfg, a + p + b[..m], b, m, hard);
    var x, u, end := a + b[..m], a + p + b[..m], m == |b|;
    MoreWords(Values(Words(cfg, x)), Values(Words(cfg, u)), end, !end && Hard(cfg, b[m]),
      if end then x == [] && hard else BlankEnd(cfg, x), if end then u == [] && hard else BlankEnd(cfg, u),
      if end then [] else Values(FieldsFrom(cfg, b[m + 1..], Hard(cfg, b[m]))));
  }

  lemma BlankEnds(cfg: Config, a: Text, y: Text)
    ensures y != [] ==> (BlankEnd(cfg, a + [Placeholder] + y) <==> BlankEnd(cfg, a + y))
    ensures y == [] ==> !BlankEnd(cfg, a + [Placeholder] + y) && (BlankEnd(cfg, a + y) <==> Alone(cfg, a, y))
    ensures a + [Placeholder] + y != [] && (a + y == [] ==> a == [] && y == [] && Alone(cfg, a, y))
  {
    if y == [] { assert a + [Placeholder] + y == a + [Placeholder] && a + y == a; }
  }

  lemma PieceEnds(cfg: Config, t: Text, u: Text, k: nat, hard: bool) returns (fs: seq<string>)
    requires k < |t| && k < |u| && k == FirstStop(cfg, t) == FirstStop(cfg, u)
    requires t[..k] == u[..k] && t[k] == u[k]
    ensures Values(FieldsFrom(cfg, t, hard)) == fs + Values(FieldsFrom(cfg, t[k + 1..], Hard(cfg, t[k])))
    ensures Values(FieldsFrom(cfg, u, hard)) == fs + Values(FieldsFrom(cfg, u[k + 1..], Hard(cfg, t[k])))
  {
    hide FirstStop, Words, FieldsFrom, Values, Hard, White;
    FieldsOfPiece(cfg, t, k, hard);
    FieldsOfPiece(cfg, u, k, hard);
    var w := Words(cfg, t[..k]);
    assert k > 0 ==> t[k - 1] == t[..k][k - 1] == u[k - 1];
    var e: seq<Text> := if k == 0 || White(cfg, t[k - 1]) then [[]] else [];
    var first := if Hard(cfg, t[k]) then w + e else if w == [] then [[]] else w;
    fs := Values(first);
    ValuesSplit(first, FieldsFrom(cfg, t[k + 1..], Hard(cfg, t[k])));
    ValuesSplit(first, FieldsFrom(cfg, u[k + 1..], Hard(cfg, t[k])));
  }

  lemma LaterPiece(cfg: Config, a: Text, b: Text, k: nat, hard: bool)
    requires k == FirstStop(cfg, a) < |a|
    ensures AddsField(cfg, a, b, hard) <==> AddsField(cfg, a[k + 1..], b, Hard(cfg, a[k]))
  {}

  /** A placeholder anywhere in a text is one field more, or nothing. */
  lemma {:induction false} FieldsWithPlaceholder(cfg: Config, a: Text, b: Text, hard: bool)
    ensures var v, w := Values(FieldsFrom(cfg, a + b, hard)), Values(FieldsFrom(cfg, a + [Placeholder] + b, hard));
      if AddsField(cfg, a, b, hard) then |w| == |v| + 1 else w == v
    decreases |a|
  {
    var p := [Placeholder];
    var t, u, k := a + b, a + p + b, FirstStop(cfg, a);
    if k < |a| {
      hide FirstStop, Words, FieldsFrom, Values, AddsField, Hard;
      StopAt(cfg, a, b, k);
      StopAt(cfg, a, p + b, k);
      assert a + (p + b) == u && t[..k] == a[..k] == u[..k] && t[k] == a[k] == u[k];
      assert t[k + 1..] == a[k + 1..] + b && u[k + 1..] == a[k + 1..] + p + b;
      FieldsWithPlaceholder(cfg, a[k + 1..], b, Hard(cfg, a[k]));
      LaterPiece(cfg, a, b, k, hard);
      var fs := PieceEnds(cfg, t, u, k, hard);
    } else {
      PieceWithPlaceholder(cfg, a, b, hard);
    }
  }

  // ----- Placeholders in doubt ----------------------------------------------------------------

  /** A word in stretches: cells that are meant and kept, and gaps, each of which is a placeholder that is
      meant and left out, or left in and not meant. */
  datatype Chunk = Sure(t: Text) | Gap

  function Without(cs: seq<Chunk>): Text {
    if cs == [] then [] else (if cs[0].Sure? then cs[0].t else []) + Without(cs[1..])
  }

  function With(cs: seq<Chunk>): Text {
    if cs == [] then [] else (if cs[0].Sure? then cs[0].t else [Placeholder]) + With(cs[1..])
  }

  lemma {:induction false} ChunksSplit(a: seq<Chunk>, b: seq<Chunk>)
    ensures With(a + b) == With(a) + With(b) && Without(a + b) == Without(a) + Without(b)
  {
    hide With, Without;
    NoChunks();
    if a == [] {
      assert a + b == b;
    } else {
      var c := a + b;
      assert c[0] == a[0] && c[1..] == a[1..] + b;
      ChunksSplit(a[1..], b);
      ChunksStep(a);
      ChunksStep(c);
    }
  }

  lemma OneChunk(c: Chunk)
    ensures With([c]) == (if c.Sure? then c.t else [Placeholder]) && Without([c]) == if c.Sure? then c.t else []
  {}

  function ParamChunk(p: string): Chunk { if p == "" then Gap else Sure(AsData(p, true)) }

  function ParamChunks(ps: seq<string>): seq<Chunk> {
    if ps == [] then [] else if |ps| == 1 then [ParamChunk(ps[0])]
    else [ParamChunk(ps[0])] + ([Sure([Boundary(true)])] + ParamChunks(ps[1..]))
  }

  function ContentChunks(env: Env, atoms: seq<Atom>): seq<Chunk> {
    if atoms == [] then []
    else (if atoms[0].Params? then ParamChunks(env.ps) else [Sure(KeptCells(env, atoms[0]))])
         + ContentChunks(env, atoms[1..])
  }

  /** Where the shell leaves one placeholder, the first gap is none, or there is one more stretch. */
  function Settled(cs: seq<Chunk>): seq<Chunk> {
    if cs == [] || cs[0].Gap? then [Sure([Placeholder])] + (if cs == [] then [] else cs[1..])
    else [cs[0]] + Settled(cs[1..])
  }

  function RegionChunks(env: Env, atoms: seq<Atom>, empty: bool): seq<Chunk> {
    if KeptContent(env, atoms) != [] then ContentChunks(env, atoms)
    else if !NoParams(env, atoms) then Settled(ContentChunks(env, atoms))
    else if empty then [Gap] else []
  }

  function WordChunks(env: Env, w: Word, empty: bool): seq<Chunk> {
    if w == [] then []
    else if w[0].Bare? then [Sure(BareCells(env, w[0].atom))] + WordChunks(env, w[1..], empty)
    else RegionChunks(env, w[0].atoms, empty) + WordChunks(env, w[1..], empty || NoParams(env, w[0].atoms))
  }

  lemma {:induction false} ParamsOfChunks(ps: seq<string>)
    ensures With(ParamChunks(ps)) == Parameters(ps) && Without(ParamChunks(ps)) == JoinCells(ps, true)
  {
    ParamsStep(ps);
    NoChunks();
    hide With, Without, AsData, ParamChunks, ParamChunk, Parameter, Parameters, JoinCells;
    if ps != [] {
      OneParameter(ps[0]);
      if |ps| > 1 {
        ParamsOfChunks(ps[1..]);
        OneChunk(Sure([Boundary(true)]));
        ChunksSplit([Sure([Boundary(true)])], ParamChunks(ps[1..]));
        ChunksSplit([ParamChunk(ps[0])], [Sure([Boundary(true)])] + ParamChunks(ps[1..]));
      }
    }
  }

  lemma OneParameter(p: string)
    ensures With([ParamChunk(p)]) == Parameter(p) && Without([ParamChunk(p)]) == AsData(p, true)
  { OneChunk(ParamChunk(p)); }

  lemma ParamsStep(ps: seq<string>)
    ensures ps == [] ==> ParamChunks(ps) == [] && Parameters(ps) == [] && JoinCells(ps, true) == []
    ensures |ps| == 1 ==>
      && ParamChunks(ps) == [ParamChunk(ps[0])]
      && Parameters(ps) == Parameter(ps[0]) && JoinCells(ps, true) == AsData(ps[0], true)
    ensures |ps| > 1 ==>
      && ParamChunks(ps) == [ParamChunk(ps[0])] + ([Sure([Boundary(true)])] + ParamChunks(ps[1..]))
      && Parameters(ps) == Parameter(ps[0]) + [Boundary(true)] + Parameters(ps[1..])
      && JoinCells(ps, true) == AsData(ps[0], true) + [Boundary(true)] + JoinCells(ps[1..], true)
  { hide AsData, Parameter, ParamChunk; }

  lemma {:induction false} ContentOfChunks(env: Env, atoms: seq<Atom>)
    ensures With(ContentChunks(env, atoms)) == MeantContent(env, atoms)
    ensures Without(ContentChunks(env, atoms)) == KeptContent(env, atoms)
  {
    if atoms != [] {
      var first := if atoms[0].Params? then ParamChunks(env.ps) else [Sure(KeptCells(env, atoms[0]))];
      ParamsOfChunks(env.ps);
      OneChunk(Sure(KeptCells(env, atoms[0])));
      hide With, Without, ParamChunks, Parameters, JoinCells, AsData, AsCells;
      ContentOfChunks(env, atoms[1..]);
      ChunksSplit(first, ContentChunks(env, atoms[1..]));
    }
  }

  lemma {:induction false} SettledIs(cs: seq<Chunk>)
    requires Without(cs) == []
    ensures Without(Settled(cs)) == [Placeholder]
    ensures With(Settled(cs)) == if With(cs) == [] then [Placeholder] else With(cs)
  {
    if cs != [] && cs[0].Sure? {
      SettledIs(cs[1..]);
      assert ([cs[0]] + Settled(cs[1..]))[1..] == Settled(cs[1..]);
    } else {
      var rest := if cs == [] then [] else cs[1..];
      assert ([Sure([Placeholder])] + rest)[1..] == rest;
    }
  }

  lemma {:induction false} NoParameters(env: Env, atoms: seq<Atom>)
    requires env.ps == []
    ensures MeantContent(env, atoms) == KeptContent(env, atoms)
  { if atoms != [] { NoParameters(env, atoms[1..]); } }

  lemma RegionOfChunks(env: Env, atoms: seq<Atom>, empty: bool)
    ensures var c := RegionChunks(env, atoms, empty);
      if env.ps == [] then With(c) == KeptRegion(env, atoms, empty) && Without(c) == MeantRegion(env, atoms)
      else Without(c) == KeptRegion(env, atoms, empty) && With(c) == MeantRegion(env, atoms)
  {
    hide KeptContent, MeantContent, ContentChunks, Settled;
    OneChunk(Gap);
    ContentOfChunks(env, atoms);
    MoreMeant(ContentChunks(env, atoms));
    if env.ps == [] { NoParameters(env, atoms); }
    if KeptContent(env, atoms) == [] { SettledIs(ContentChunks(env, atoms)); }
  }

  lemma {:induction false} MoreMeant(cs: seq<Chunk>)
    ensures |With(cs)| >= |Without(cs)| && (With(cs) == Without(cs) <==> Gap !in cs)
  {
    if cs != [] {
      MoreMeant(cs[1..]);
      assert cs == [cs[0]] + cs[1..];
      if cs[0].Sure? { Cancel(cs[0].t, With(cs[1..]), Without(cs[1..])); }
    }
  }

  lemma Cancel(a: Text, b: Text, c: Text)
    ensures a + b == a + c <==> b == c
  { assert (a + b)[|a|..] == b && (a + c)[|a|..] == c; }

  /** The kept and the meant cells of a word: without parameters the gaps are in excess, with parameters
      they are left out. */
  lemma {:induction false} WordOfChunks(env: Env, w: Word, empty: bool)
    ensures var c := WordChunks(env, w, empty);
      if env.ps == [] then With(c) == CellsKept(env, w, empty) && Without(c) == CellsOf(env, w)
      else Without(c) == CellsKept(env, w, empty) && With(c) == CellsOf(env, w)
  {
    if w != [] {
      hide With, Without, RegionChunks, KeptRegion, MeantRegion, BareCells;
      if w[0].Bare? {
        WordOfChunks(env, w[1..], empty);
        OneChunk(Sure(BareCells(env, w[0].atom)));
        ChunksSplit([Sure(BareCells(env, w[0].atom))], WordChunks(env, w[1..], empty));
      } else {
        var after := empty || NoParams(env, w[0].atoms);
        WordOfChunks(env, w[1..], after);
        RegionOfChunks(env, w[0].atoms, empty);
        ChunksSplit(RegionChunks(env, w[0].atoms, empty), WordChunks(env, w[1..], after));
      }
    } else {
      NoChunks();
    }
  }

  lemma ChunksStep(cs: seq<Chunk>)
    requires cs != []
    ensures With(cs) == (if cs[0].Sure? then cs[0].t else [Placeholder]) + With(cs[1..])
    ensures Without(cs) == (if cs[0].Sure? then cs[0].t else []) + Without(cs[1..])
  {}

  lemma NoChunks()
    ensures With([]) == [] && Without([]) == []
  {}

  /** The shell leaves the placeholders it should exactly for the words without gaps. */
  lemma KeptExactly(env: Env, w: Word)
    ensures CellsKept(env, w, false) == CellsOf(env, w) <==> Gap !in WordChunks(env, w, false)
  {
    hide WordChunks, CellsKept, CellsOf;
    WordOfChunks(env, w, false);
    MoreMeant(WordChunks(env, w, false));
  }

  // ----- Which gaps do harm -------------------------------------------------------------------

  /** No gap adds a field; `a` is the text before. */
  predicate Harmless(cfg: Config, a: Text, cs: seq<Chunk>)
    decreases |cs|
  {
    cs == [] ||
    if cs[0].Sure? then Harmless(cfg, a + cs[0].t, cs[1..])
    else !AddsField(cfg, a, Without(cs[1..]), false) && Harmless(cfg, a + [Placeholder], cs[1..])
  }

  lemma {:induction false} HarmlessExactly(cfg: Config, a: Text, cs: seq<Chunk>)
    ensures var v, w := Values(Fields(cfg, a + Without(cs))), Values(Fields(cfg, a + With(cs)));
      if Harmless(cfg, a, cs) then w == v else |w| > |v|
    decreases |cs|
  {
    NoChunks();
    hide FieldsFrom, Values, AddsField, With, Without;
    if cs != [] {
      var first := if cs[0].Sure? then cs[0].t else [Placeholder];
      var u, v := With(cs[1..]), Without(cs[1..]);
      ChunksStep(cs);
      assert a + (first + u) == a + first + u && a + (first + v) == a + first + v && a + ([] + v) == a + v;
      HarmlessExactly(cfg, a + first, cs[1..]);
      FieldsWithPlaceholder(cfg, a, v, false);
    }
  }
}
