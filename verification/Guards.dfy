/** Words that will be split on IFS: what the shell emits for one, with guards around its quoted
    regions, and the words it becomes. */
module WordGuards {
  import opened Markers
  import opened WordFields
  import opened WordEncoding

  /** The value of IFS and the positional parameters. */
  datatype Env = Env(ifs: string, ps: seq<string>)

  /** Text as it was typed, the result of an expansion, and `$@`. */
  datatype Atom = Typed(text: string) | Result(text: string) | Params

  datatype Part = Bare(atom: Atom) | Quotes(atoms: seq<Atom>)

  type Word = seq<Part>

  // ----- What is emitted ----------------------------------------------------------------------

  /** Typed text outside quotes: a byte that IFS holds stands in a guarded region of its own, with the
      placeholder if it looks like an opening guard. */
  function Literal(ifs: string, s: string): string {
    if s == [] then [] else LiteralByte(ifs, s[0]) + Literal(ifs, s[1..])
  }

  function LiteralByte(ifs: string, c: char): string {
    if c !in ifs then [c] else [QG_OPEN, c] + (if c == QG_OPEN then [QG_NULL] else []) + [QG_CLOSE]
  }

  function NonEmpty(ps: seq<string>): seq<string> {
    if ps == [] then [] else (if ps[0] == "" then [] else [ps[0]]) + NonEmpty(ps[1..])
  }

  function JoinWith(ps: seq<string>, sep: char): string {
    if ps == [] then [] else if |ps| == 1 then ps[0] else ps[0] + [sep] + JoinWith(ps[1..], sep)
  }

  /** `$@` outside quotes: IFS splits the parameters apart, or if it is empty boundaries do. */
  function BareParams(env: Env): string {
    if env.ifs == "" then Join(NonEmpty(env.ps)) else Escape(JoinWith(env.ps, env.ifs[0]))
  }

  function BareText(env: Env, a: Atom): string {
    match a case Typed(s) => Literal(env.ifs, s) case Result(s) => Escape(s) case Params => BareParams(env)
  }

  function QuotedText(env: Env, a: Atom): string {
    match a case Typed(s) => s case Result(s) => Escape(s) case Params => Join(env.ps)
  }

  function Content(env: Env, atoms: seq<Atom>): string {
    if atoms == [] then [] else QuotedText(env, atoms[0]) + Content(env, atoms[1..])
  }

  /** `"$@"` without parameters: it sets `at_expanded_empty`. */
  predicate NoParams(env: Env, atoms: seq<Atom>) { env.ps == [] && Params in atoms }

  /** A quoted region; `empty` is `at_expanded_empty` where it begins. */
  function Region(env: Env, atoms: seq<Atom>, empty: bool): string {
    var s := [QG_OPEN] + Content(env, atoms);
    s + (if s[|s| - 1] == QG_OPEN && (empty || NoParams(env, atoms)) == empty then [QG_NULL] else []) + [QG_CLOSE]
  }

  function Emitted(env: Env, w: Word, empty: bool): string {
    if w == [] then [] else
    match w[0]
    case Bare(a) => BareText(env, a) + Emitted(env, w[1..], empty)
    case Quotes(atoms) => Region(env, atoms, empty) + Emitted(env, w[1..], empty || NoParams(env, atoms))
  }

  /** `at_expanded_empty`, `at_field_boundary` and `at_quote_guard` behind the word. */
  predicate PartEmpty(env: Env, p: Part) { p.Quotes? && NoParams(env, p.atoms) }

  predicate AnyEmpty(env: Env, w: Word) { exists i :: 0 <= i < |w| && PartEmpty(env, w[i]) }

  predicate PartBounds(env: Env, p: Part) {
    match p
    case Bare(a) => a.Params? && env.ifs == "" && |NonEmpty(env.ps)| >= 2
    case Quotes(atoms) => Params in atoms && |env.ps| >= 2
  }

  predicate Bounds(env: Env, w: Word) { exists i :: 0 <= i < |w| && PartBounds(env, w[i]) }

  predicate AnyOf(ifs: string, s: string) { exists c :: c in s && c in ifs }

  predicate PartGuards(env: Env, p: Part) {
    match p case Bare(a) => a.Typed? && AnyOf(env.ifs, a.text) case Quotes(_) => true
  }

  predicate Guarded(env: Env, w: Word) { exists i :: 0 <= i < |w| && PartGuards(env, w[i]) }

  // ----- What is meant ------------------------------------------------------------------------

  /** Typed bytes stand for themselves; those of IFS do not separate. */
  function TypedCells(ifs: string, s: string): (t: Text)
    ensures |t| == |s|
  { seq(|s|, i requires 0 <= i < |s| => Cell(s[i], s[i] in ifs)) }

  /** The result of an expansion. */
  function AsData(s: string, prot: bool): (t: Text)
    ensures |t| == |s|
  { seq(|s|, i requires 0 <= i < |s| => Datum(s[i], prot)) }

  function JoinCells(ps: seq<string>, prot: bool): Text {
    if ps == [] then [] else if |ps| == 1 then AsData(ps[0], prot)
    else AsData(ps[0], prot) + [Boundary(prot)] + JoinCells(ps[1..], prot)
  }

  function BareCells(env: Env, a: Atom): Text {
    match a
    case Typed(s) => TypedCells(env.ifs, s)
    case Result(s) => AsData(s, false)
    case Params =>
      if env.ifs == "" then JoinCells(NonEmpty(env.ps), false) else AsData(JoinWith(env.ps, env.ifs[0]), false)
  }

  /** A parameter in quotes: an empty one is a field all the same. */
  function Parameter(p: string): Text { if p == "" then [Placeholder] else AsData(p, true) }

  function Parameters(ps: seq<string>): Text {
    if ps == [] then [] else if |ps| == 1 then Parameter(ps[0])
    else Parameter(ps[0]) + [Boundary(true)] + Parameters(ps[1..])
  }

  function MeantCells(env: Env, a: Atom): Text {
    match a case Typed(s) => AsCells(s, true) case Result(s) => AsData(s, true) case Params => Parameters(env.ps)
  }

  function MeantContent(env: Env, atoms: seq<Atom>): Text {
    if atoms == [] then [] else MeantCells(env, atoms[0]) + MeantContent(env, atoms[1..])
  }

  /** A region without data is an empty field all the same, unless it is so for want of parameters. */
  function MeantRegion(env: Env, atoms: seq<Atom>): Text {
    var t := MeantContent(env, atoms);
    if t == [] && !NoParams(env, atoms) then [Placeholder] else t
  }

  function CellsOf(env: Env, w: Word): Text {
    if w == [] then []
    else (if w[0].Bare? then BareCells(env, w[0].atom) else MeantRegion(env, w[0].atoms)) + CellsOf(env, w[1..])
  }

  // ----- What is kept -------------------------------------------------------------------------

  function KeptCells(env: Env, a: Atom): Text {
    match a case Typed(s) => AsCells(s, true) case Result(s) => AsData(s, true) case Params => JoinCells(env.ps, true)
  }

  function KeptContent(env: Env, atoms: seq<Atom>): Text {
    if atoms == [] then [] else KeptCells(env, atoms[0]) + KeptContent(env, atoms[1..])
  }

  /** The placeholder is for a region in which nothing is written, but for the first `"$@"` without
      parameters. */
  function KeptRegion(env: Env, atoms: seq<Atom>, empty: bool): Text {
    var t := KeptContent(env, atoms);
    if t == [] && (empty || !NoParams(env, atoms)) then [Placeholder] else t
  }

  /** The cells with the placeholders that the shell leaves. */
  function CellsKept(env: Env, w: Word, empty: bool): Text {
    if w == [] then []
    else if w[0].Bare? then BareCells(env, w[0].atom) + CellsKept(env, w[1..], empty)
    else KeptRegion(env, w[0].atoms, empty) + CellsKept(env, w[1..], empty || NoParams(env, w[0].atoms))
  }

  // ----- Guards and stripping -----------------------------------------------------------------

  /** The guards taken out, `depth` of them being open. */
  function Strip(s: string, depth: nat): Text {
    if s == [] then []
    else if s[0] == QG_OPEN then Strip(s[1..], depth + 1)
    else if s[0] == QG_CLOSE then Strip(s[1..], if depth > 0 then depth - 1 else 0)
    else [Cell(s[0], depth > 0)] + Strip(s[1..], depth)
  }

  method StripGuards(s: string) returns (plain: string, prot: seq<bool>)
    ensures |plain| == |prot| && Cells(plain, prot) == Strip(s, 0)
  {
    plain, prot := "", [];
    var depth: nat := 0;
    for r := 0 to |s|
      invariant |plain| == |prot| && Strip(s, 0) == Cells(plain, prot) + Strip(s[r..], depth)
    {
      assert s[r..][1..] == s[r + 1..];
      if s[r] == QG_OPEN {
        depth := depth + 1;
      } else if s[r] == QG_CLOSE {
        if depth > 0 { depth := depth - 1; }
      } else {
        assert Cells(plain + [s[r]], prot + [depth > 0]) == Cells(plain, prot) + [Cell(s[r], depth > 0)];
        plain, prot := plain + [s[r]], prot + [depth > 0];
      }
    }
  }

  predicate NoGuard(s: string) { QG_OPEN !in s && QG_CLOSE !in s }

  lemma {:induction false} StripData(d: string, rest: string, depth: nat)
    requires NoGuard(d)
    ensures Strip(d + rest, depth) == AsCells(d, depth > 0) + Strip(rest, depth)
  {
    if d == [] {
      assert d + rest == rest;
    } else {
      assert d + rest == [d[0]] + (d[1..] + rest);
      StripData(d[1..], rest, depth);
      assert AsCells(d, depth > 0) == [Cell(d[0], depth > 0)] + AsCells(d[1..], depth > 0);
    }
  }

  lemma StripQuoted(d: string, rest: string)
    requires NoGuard(d)
    ensures Strip([QG_OPEN] + d + [QG_CLOSE] + rest, 0) == AsCells(d, true) + Strip(rest, 0)
  {
    hide AsCells;
    var s := d + ([QG_CLOSE] + rest);
    assert [QG_OPEN] + d + [QG_CLOSE] + rest == [QG_OPEN] + s && ([QG_OPEN] + s)[1..] == s;
    StripData(d, [QG_CLOSE] + rest, 1);
    assert ([QG_CLOSE] + rest)[1..] == rest;
  }

  // ----- Stripping undoes guarding ------------------------------------------------------------

  lemma AsCellsSplit(a: string, b: string, prot: bool)
    ensures AsCells(a + b, prot) == AsCells(a, prot) + AsCells(b, prot)
  {}

  lemma EncodeOne(c: char, prot: bool)
    ensures EncodeCell(Datum(c, prot)) == AsCells(EscapeByte(c), prot)
  {}

  lemma {:induction false} EncodedText(s: string, prot: bool)
    ensures Encode(AsData(s, prot)) == AsCells(Escape(s), prot)
  {
    if s != [] {
      var t := AsData(s, prot);
      assert t[0] == Datum(s[0], prot) && t[1..] == AsData(s[1..], prot);
      assert Escape(s) == EscapeByte(s[0]) + Escape(s[1..]);
      assert Encode(t) == EncodeCell(t[0]) + Encode(t[1..]);
      hide Escape, EscapeByte, EncodeCell, Encode, AsCells, AsData;
      EncodedText(s[1..], prot);
      EncodeOne(s[0], prot);
      AsCellsSplit(EscapeByte(s[0]), Escape(s[1..]), prot);
    }
  }

  /** Typed bytes are written as they are. */
  lemma {:induction false} EncodedCells(t: Text)
    requires forall j :: 0 <= j < |t| ==> t[j].Cell?
    ensures Encode(t) == t
  { if t != [] { EncodedCells(t[1..]); } }

  lemma NoGuardIn(s: string)
    ensures NoGuard(Escape(s))
  { EscapedHasNoMarker(s); }

  lemma {:induction false} EncodedJoin(ps: seq<string>, prot: bool)
    ensures Encode(JoinCells(ps, prot)) == AsCells(Join(ps), prot) && NoGuard(Join(ps))
  {
    if ps != [] {
      hide Escape, AsCells, AsData;
      NoGuardIn(ps[0]);
      EncodedText(ps[0], prot);
      if |ps| > 1 {
        EncodedJoin(ps[1..], prot);
        var a, b := AsData(ps[0], prot), JoinCells(ps[1..], prot);
        assert Encode([Boundary(prot)]) == [Cell(SOH, prot)];
        EncodeSplits(a, [Boundary(prot)]);
        EncodeSplits(a + [Boundary(prot)], b);
        OneCell(SOH, prot);
        AsCellsSplit(Escape(ps[0]), [SOH], prot);
        AsCellsSplit(Escape(ps[0]) + [SOH], Join(ps[1..]), prot);
      }
    }
  }

  lemma OneCell(c: char, prot: bool)
    ensures AsCells([c], prot) == [Cell(c, prot)]
  {}

  lemma {:induction false} StripLiteral(ifs: string, s: string, rest: string)
    requires NoGuard(s)
    ensures Strip(Literal(ifs, s) + rest, 0) == TypedCells(ifs, s) + Strip(rest, 0)
  {
    if s == [] {
      assert Literal(ifs, s) + rest == rest;
    } else {
      hide Strip, TypedCells, LiteralByte;
      StripLiteral(ifs, s[1..], rest);
      var more := Literal(ifs, s[1..]) + rest;
      assert Literal(ifs, s) + rest == LiteralByte(ifs, s[0]) + more;
      StripByte(ifs, s[0], more);
      TypedStep(ifs, s);
    }
  }

  lemma TypedStep(ifs: string, s: string)
    requires s != []
    ensures TypedCells(ifs, s) == [Cell(s[0], s[0] in ifs)] + TypedCells(ifs, s[1..])
  {}

  lemma StripByte(ifs: string, c: char, rest: string)
    requires c != QG_OPEN && c != QG_CLOSE
    ensures Strip(LiteralByte(ifs, c) + rest, 0) == [Cell(c, c in ifs)] + Strip(rest, 0)
  {
    if c in ifs {
      StripQuoted([c], rest);
      assert [QG_OPEN] + [c] + [QG_CLOSE] + rest == LiteralByte(ifs, c) + rest;
    } else {
      StripData([c], rest, 0);
    }
  }

  /** No guard was typed. */
  predicate AtomClean(a: Atom) { a.Typed? ==> NoGuard(a.text) }

  predicate PartClean(p: Part) {
    match p case Bare(a) => AtomClean(a) case Quotes(atoms) => forall i :: 0 <= i < |atoms| ==> AtomClean(atoms[i])
  }

  predicate Clean(w: Word) { forall i :: 0 <= i < |w| ==> PartClean(w[i]) }

  lemma StripBare(env: Env, a: Atom, rest: string)
    requires AtomClean(a)
    ensures Strip(BareText(env, a) + rest, 0) == Encode(BareCells(env, a)) + Strip(rest, 0)
  {
    hide Strip, AsCells, AsData, Escape, Literal;
    match a
    case Typed(s) =>
      StripLiteral(env.ifs, s, rest);
      EncodedCells(TypedCells(env.ifs, s));
    case Result(s) =>
      NoGuardIn(s);
      EncodedText(s, false);
      StripData(Escape(s), rest, 0);
    case Params =>
      ParamsAreData(env);
      StripData(BareParams(env), rest, 0);
  }

  lemma ParamsAreData(env: Env)
    ensures NoGuard(BareParams(env)) && Encode(BareCells(env, Params)) == AsCells(BareParams(env), false)
  {
    hide Encode, AsCells, AsData, Escape, Join;
    var joined := if env.ifs == "" then "" else JoinWith(env.ps, env.ifs[0]);
    EncodedJoin(NonEmpty(env.ps), false);
    NoGuardIn(joined);
    EncodedText(joined, false);
  }

  lemma QuotedAtom(env: Env, a: Atom)
    requires AtomClean(a)
    ensures NoGuard(QuotedText(env, a)) && Encode(KeptCells(env, a)) == AsCells(QuotedText(env, a), true)
  {
    hide Encode, AsData, Escape;
    match a
    case Typed(s) => EncodedCells(AsCells(s, true));
    case Result(s) => NoGuardIn(s); EncodedText(s, true);
    case Params => EncodedJoin(env.ps, true);
  }

  lemma {:induction false} EncodedContent(env: Env, atoms: seq<Atom>)
    requires PartClean(Quotes(atoms))
    ensures NoGuard(Content(env, atoms))
    ensures Encode(KeptContent(env, atoms)) == AsCells(Content(env, atoms), true)
    ensures Content(env, atoms) == [] <==> KeptContent(env, atoms) == []
  {
    hide QuotedText, KeptCells, Encode, AsCells, AtomClean;
    if atoms == [] {
      assert Encode([]) == [] && AsCells([], true) == [] by { EncodedCells(AsCells([], true)); }
    } else {
      assert PartClean(Quotes(atoms[1..]));
      QuotedAtom(env, atoms[0]);
      EncodedContent(env, atoms[1..]);
      EncodeSplits(KeptCells(env, atoms[0]), KeptContent(env, atoms[1..]));
      AsCellsSplit(QuotedText(env, atoms[0]), Content(env, atoms[1..]), true);
      EncodedLength(KeptContent(env, atoms));
    }
    assert Encode([]) == [] by { EncodedCells([]); }
  }

  lemma StripRegion(env: Env, atoms: seq<Atom>, empty: bool, rest: string)
    requires PartClean(Quotes(atoms))
    ensures Strip(Region(env, atoms, empty) + rest, 0) == Encode(KeptRegion(env, atoms, empty)) + Strip(rest, 0)
  {
    hide Strip, Content, KeptContent, PartClean, AsCells;
    EncodedContent(env, atoms);
    var c := Content(env, atoms);
    var keep := c == [] && (empty || !NoParams(env, atoms));
    var d := if keep then [QG_NULL] else c;
    assert Region(env, atoms, empty) + rest == [QG_OPEN] + d + [QG_CLOSE] + rest;
    OneCell(QG_NULL, true);
    StripQuoted(d, rest);
  }

  /** Stripping undoes guarding: each byte has the quoting it had, and where an empty region was there is a
      placeholder. */
  lemma {:induction false} StripInvertsEmitted(env: Env, w: Word, empty: bool)
    requires Clean(w)
    ensures Strip(Emitted(env, w, empty), 0) == Encode(CellsKept(env, w, empty))
  {
    if w != [] {
      assert PartClean(w[0]);
      hide Strip, Encode, Region, KeptRegion, BareText, BareCells, PartClean;
      if w[0].Bare? {
        StripInvertsEmitted(env, w[1..], empty);
        StripBare(env, w[0].atom, Emitted(env, w[1..], empty));
        EncodeSplits(BareCells(env, w[0].atom), CellsKept(env, w[1..], empty));
      } else {
        var after := empty || NoParams(env, w[0].atoms);
        StripInvertsEmitted(env, w[1..], after);
        StripRegion(env, w[0].atoms, empty, Emitted(env, w[1..], after));
        EncodeSplits(KeptRegion(env, w[0].atoms, empty), CellsKept(env, w[1..], after));
      }
    }
  }

  lemma {:induction false} PlainLiteral(ifs: string, s: string)
    requires !AnyOf(ifs, s)
    ensures Literal(ifs, s) == s && TypedCells(ifs, s) == AsCells(s, false)
  {
    if s != [] {
      assert s[0] in s;
      PlainLiteral(ifs, s[1..]);
    }
  }

  lemma PlainBare(env: Env, a: Atom)
    requires a.Typed? ==> !AnyOf(env.ifs, a.text)
    ensures Encode(BareCells(env, a)) == AsCells(BareText(env, a), false)
  {
    hide AsData, Escape, Literal;
    match a
    case Typed(s) => PlainLiteral(env.ifs, s); EncodedCells(AsCells(s, false));
    case Result(s) => EncodedText(s, false);
    case Params => ParamsAreData(env);
  }

  /** A word in which no guard was opened is not stripped, and needs not be. */
  lemma {:induction false} UnguardedEmitted(env: Env, w: Word, empty: bool)
    requires !Guarded(env, w)
    ensures AsCells(Emitted(env, w, empty), false) == Encode(CellsKept(env, w, empty))
  {
    if w != [] {
      assert !PartGuards(env, w[0]);
      var rest := w[1..];
      assert !Guarded(env, rest) by {
        forall i | 0 <= i < |rest| ensures !PartGuards(env, rest[i]) { assert rest[i] == w[i + 1]; }
      }
      UnguardedEmitted(env, rest, empty);
      hide Encode, AsCells, BareText, BareCells;
      PlainBare(env, w[0].atom);
      EncodeSplits(BareCells(env, w[0].atom), CellsKept(env, rest, empty));
      AsCellsSplit(BareText(env, w[0].atom), Emitted(env, rest, empty), false);
    }
  }

  // ----- The words ----------------------------------------------------------------------------

  predicate Fits(ifs: string, s: string) { forall i :: 0 <= i < |s| ==> ByteFits(ifs, s[i]) }

  predicate PartFits(env: Env, p: Part) {
    p.Bare? ==>
      match p.atom
      case Typed(_) => true
      case Result(s) => Fits(env.ifs, s)
      case Params => env.ifs == "" || Fits(env.ifs, JoinWith(env.ps, env.ifs[0]))
  }

  /** The results that are split hold no byte that is encoded with a byte of IFS. */
  predicate WordFits(env: Env, w: Word) { forall i :: 0 <= i < |w| ==> PartFits(env, w[i]) }

  lemma {:induction false} JoinFits(cfg: Config, ps: seq<string>, prot: bool)
    requires (prot || cfg.ifs == "") && (|ps| >= 2 ==> cfg.bound)
    ensures Encodable(cfg, JoinCells(ps, prot))
  { if |ps| >= 2 { JoinFits(cfg, ps[1..], prot); } }

  lemma BareFits(cfg: Config, env: Env, a: Atom)
    requires cfg.ifs == env.ifs && PartFits(env, Bare(a)) && (PartBounds(env, Bare(a)) ==> cfg.bound)
    ensures Encodable(cfg, BareCells(env, a))
  { if a.Params? && env.ifs == "" { JoinFits(cfg, NonEmpty(env.ps), false); } }

  lemma {:induction false} ContentFits(cfg: Config, env: Env, atoms: seq<Atom>)
    requires cfg.ifs == env.ifs && (PartBounds(env, Quotes(atoms)) ==> cfg.bound)
    ensures Encodable(cfg, KeptContent(env, atoms))
  {
    if atoms != [] {
      assert Params in atoms[1..] ==> Params in atoms;
      ContentFits(cfg, env, atoms[1..]);
      if atoms[0].Params? { JoinFits(cfg, env.ps, true); }
    }
  }

  lemma {:induction false} KeptFits(cfg: Config, env: Env, w: Word, empty: bool)
    requires cfg.ifs == env.ifs && WordFits(env, w) && (Bounds(env, w) ==> cfg.bound)
    ensures Encodable(cfg, CellsKept(env, w, empty))
  {
    if w != [] {
      assert PartFits(env, w[0]) && (PartBounds(env, w[0]) ==> Bounds(env, w));
      hide PartFits, BareCells, KeptContent, CellFits, PartBounds;
      assert Bounds(env, w[1..]) ==> Bounds(env, w);
      if w[0].Bare? {
        BareFits(cfg, env, w[0].atom);
        KeptFits(cfg, env, w[1..], empty);
      } else {
        ContentFits(cfg, env, w[0].atoms);
        KeptFits(cfg, env, w[1..], empty || NoParams(env, w[0].atoms));
      }
    }
  }

  /** The word as the splitter gets it. */
  function Stripped(env: Env, w: Word): Text {
    if Guarded(env, w) then Strip(Emitted(env, w, false), 0) else AsCells(Emitted(env, w, false), false)
  }

  lemma StrippedIsKept(env: Env, w: Word)
    requires Guarded(env, w) ==> Clean(w)
    ensures Stripped(env, w) == Encode(CellsKept(env, w, false))
  {
    hide Strip, Emitted, Encode, AsCells, Guarded, Clean;
    if Guarded(env, w) { StripInvertsEmitted(env, w, false); } else { UnguardedEmitted(env, w, false); }
  }

  function ConfigOf(env: Env, w: Word): Config { Config(env.ifs, Bounds(env, w)) }

  /** What the shell makes of a word: stripped, split, decoded. */
  function WordsOf(env: Env, w: Word): seq<string> { DecodeAll(Split(ConfigOf(env, w), Stripped(env, w))) }

  /** What it should make of it: the fields of what is meant. */
  function WordsMeant(env: Env, w: Word): seq<string> { Values(Fields(Config(env.ifs, false), CellsOf(env, w))) }
}
