/** Field splitting of an expanded word.

    A word is a sequence of cells.  `Split` is the splitter's loop as a function; `Fields` says what
    the fields are; `Splitter` is the in-place loop itself. */
module WordFields {
  import opened CStrings
  import opened Markers

  /** A byte that stands for itself, and whether it was quoted.  A datum is a byte of the result of an
      expansion, which the shell escapes if need be.  The other two are no bytes of a word's data: the
      boundary between two parameters, and the placeholder of what is quoted and empty.  The shell keeps
      a boundary as the byte 0x01 and a placeholder as 0x05. */
  datatype Cell = Cell(c: char, prot: bool) | Datum(c: char, prot: bool) | Boundary(prot: bool) | Placeholder

  type Text = seq<Cell>

  /** `bound` is `at_field_boundary`: the 0x01 bytes of the word are boundaries. */
  datatype Config = Config(ifs: string, bound: bool)

  // ----- Classes of cells ---------------------------------------------------------------------

  predicate Separates(cfg: Config, x: Cell) { (x.Cell? || x.Datum?) && !x.prot && x.c in cfg.ifs }
  predicate White(cfg: Config, x: Cell) { Separates(cfg, x) && Space(x.c) }
  predicate Mark(cfg: Config, x: Cell) { Separates(cfg, x) && !Space(x.c) }
  predicate Hard(cfg: Config, x: Cell) { x.Boundary? || (x.Cell? && cfg.bound && x.c == SOH) }
  predicate Delimits(cfg: Config, x: Cell) { Separates(cfg, x) || Hard(cfg, x) }

  // ----- The loop as a function ---------------------------------------------------------------

  function WhiteRun(cfg: Config, t: Text): (k: nat)
    ensures k <= |t| && (k < |t| ==> !White(cfg, t[k])) && forall j :: 0 <= j < k ==> White(cfg, t[j])
  { if t != [] && White(cfg, t[0]) then 1 + WhiteRun(cfg, t[1..]) else 0 }

  function DataRun(cfg: Config, t: Text): (k: nat)
    ensures k <= |t| && (k < |t| ==> Delimits(cfg, t[k])) && forall j :: 0 <= j < k ==> !Delimits(cfg, t[j])
  { if t != [] && !Delimits(cfg, t[0]) then 1 + DataRun(cfg, t[1..]) else 0 }

  /** White space, then at most one other separator, then white space: its length, and whether there
      was such a separator. */
  function Delimiter(cfg: Config, t: Text): (r: (nat, bool))
    ensures r.0 <= |t| && (t != [] && Separates(cfg, t[0]) ==> r.0 > 0)
  {
    var k := WhiteRun(cfg, t);
    if k < |t| && Mark(cfg, t[k]) then (k + 1 + WhiteRun(cfg, t[k + 1..]), true) else (k, false)
  }

  /** The fields from the top of the loop on; `last` is `last_was_bound`. */
  function SplitFrom(cfg: Config, t: Text, last: bool): seq<Text>
    decreases |t|
  {
    if t == [] then (if last then [[]] else []) else
    var e := DataRun(cfg, t);
    if e == |t| then [t]
    else if Hard(cfg, t[e]) then [t[..e]] + SplitFrom(cfg, t[e + 1..], true)
    else
      var (d, saw) := Delimiter(cfg, t[e..]);
      (if saw || e > 0 then [t[..e]] else []) + SplitFrom(cfg, t[e + d..], false)
  }

  function Split(cfg: Config, t: Text): seq<Text> { SplitFrom(cfg, t[WhiteRun(cfg, t)..], false) }

  // ----- What the fields are ------------------------------------------------------------------

  /** The maximal runs of cells that are not white. */
  function Words(cfg: Config, t: Text): seq<Text>
    decreases |t|
  {
    if t == [] then []
    else if White(cfg, t[0]) then Words(cfg, t[1..])
    else var k := NonWhiteRun(cfg, t); [t[..k]] + Words(cfg, t[k..])
  }

  function NonWhiteRun(cfg: Config, t: Text): (k: nat)
    ensures k <= |t| && (k < |t| ==> White(cfg, t[k])) && forall j :: 0 <= j < k ==> !White(cfg, t[j])
    ensures t != [] && !White(cfg, t[0]) ==> k > 0
  { if t != [] && !White(cfg, t[0]) then 1 + NonWhiteRun(cfg, t[1..]) else 0 }

  /** The first cell that ends a field come what may. */
  function FirstStop(cfg: Config, t: Text): (k: nat)
    ensures k <= |t| && (k < |t| ==> Mark(cfg, t[k]) || Hard(cfg, t[k]))
    ensures forall j :: 0 <= j < k ==> !Mark(cfg, t[j]) && !Hard(cfg, t[j])
  { if t != [] && !Mark(cfg, t[0]) && !Hard(cfg, t[0]) then 1 + FirstStop(cfg, t[1..]) else 0 }

  /** A word is cut at every unquoted separator that is not white space and at every boundary.  Each
      piece contributes its words.  A separator ends at least one field, if need be an empty one; a
      boundary also ends the empty field behind white space or at the start of its piece; at the end
      of the word an empty field is dropped, unless a boundary put it there.  `hard` says that the
      piece follows a boundary. */
  function FieldsFrom(cfg: Config, t: Text, hard: bool): seq<Text>
    decreases |t|
  {
    var k := FirstStop(cfg, t);
    var w := Words(cfg, t[..k]);
    if k == |t| then w + (if t == [] && hard then [[]] else [])
    else if Hard(cfg, t[k]) then
      w + (if k == 0 || White(cfg, t[k - 1]) then [[]] else []) + FieldsFrom(cfg, t[k + 1..], true)
    else (if w == [] then [[]] else w) + FieldsFrom(cfg, t[k + 1..], false)
  }

  function Fields(cfg: Config, t: Text): seq<Text> { FieldsFrom(cfg, t, false) }

  // ----- The loop finds the fields ------------------------------------------------------------

  /** 0x01 is a boundary and a separator at once, and IFS also has white space. */
  predicate Ambiguous(cfg: Config) { cfg.bound && SOH in cfg.ifs && exists c :: c in cfg.ifs && Space(c) }

  /** No cell of the text is a boundary and a separator at once, or that does no harm. */
  predicate Separable(cfg: Config, t: Text) {
    !Ambiguous(cfg) || forall j :: 0 <= j < |t| ==> !(Hard(cfg, t[j]) && Separates(cfg, t[j]))
  }

  /** The fields from the middle of a piece on; `some` says that it has already contributed a word. */
  function FieldsBehind(cfg: Config, t: Text, some: bool, hard: bool): seq<Text> {
    var k := FirstStop(cfg, t);
    var w := Words(cfg, t[..k]);
    if k < |t| && !Hard(cfg, t[k]) then (if w == [] && !some then [[]] else w) + FieldsFrom(cfg, t[k + 1..], false)
    else FieldsFrom(cfg, t, hard)
  }

  lemma BehindNothing(cfg: Config, t: Text, hard: bool)
    ensures FieldsBehind(cfg, t, false, hard) == FieldsFrom(cfg, t, hard)
  {}

  lemma FirstStopSkips(cfg: Config, t: Text, k: nat)
    requires k <= |t| && forall j :: 0 <= j < k ==> !Mark(cfg, t[j]) && !Hard(cfg, t[j])
    ensures FirstStop(cfg, t) == k + FirstStop(cfg, t[k..])
  {
    if k > 0 { assert t[1..][k - 1..] == t[k..]; FirstStopSkips(cfg, t[1..], k - 1); }
    else { assert t[0..] == t; }
  }

  lemma WordsSkipWhite(cfg: Config, t: Text, k: nat)
    requires k <= |t| && forall j :: 0 <= j < k ==> White(cfg, t[j])
    ensures Words(cfg, t) == Words(cfg, t[k..])
  {
    if k > 0 { assert t[1..][k - 1..] == t[k..]; WordsSkipWhite(cfg, t[1..], k - 1); }
    else { assert t[0..] == t; }
  }

  lemma NonWhiteRunIs(cfg: Config, t: Text, e: nat)
    requires e <= |t| && (e < |t| ==> White(cfg, t[e])) && forall j :: 0 <= j < e ==> !White(cfg, t[j])
    ensures NonWhiteRun(cfg, t) == e
  {}

  /** A word of cells up to `e`, then white cells up to `w`. */
  lemma WordsAfterWord(cfg: Config, t: Text, e: nat, w: nat)
    requires e <= w <= |t| && (e < |t| ==> e < w)
    requires forall j :: 0 <= j < e ==> !White(cfg, t[j])
    requires forall j :: e <= j < w ==> White(cfg, t[j])
    ensures Words(cfg, t) == (if e > 0 then [t[..e]] else []) + Words(cfg, t[w..])
  {
    if e > 0 {
      NonWhiteRunIs(cfg, t, e);
      assert t[e..][w - e..] == t[w..];
      WordsSkipWhite(cfg, t[e..], w - e);
    } else {
      WordsSkipWhite(cfg, t, w);
    }
  }

  /** The words of a piece, what its end adds, and the fields behind it. */
  function PieceThen(words: seq<Text>, some: bool, hard: bool, white: bool, rest: seq<Text>): seq<Text> {
    if hard then words + (if white then [[]] else []) + rest else (if words == [] && !some then [[]] else words) + rest
  }

  lemma PieceThenShifts(first: seq<Text>, words: seq<Text>, some: bool, hard: bool, white: bool, rest: seq<Text>)
    ensures PieceThen(first + words, some, hard, white, rest)
         == first + PieceThen(words, some || first != [], hard, white, rest)
  {
    assert first == [] ==> first + words == words;
    assert first + (words + rest) == first + words + rest;
    var e: seq<Text> := [[]];
    assert first + (words + e + rest) == first + words + e + rest;
    assert first + (words + [] + rest) == first + words + [] + rest;
    assert first == [] ==> first + (e + rest) == e + rest;
  }

  lemma FieldsStep(cfg: Config, t: Text, some: bool, hard: bool)
    ensures var k := FirstStop(cfg, t); var w := Words(cfg, t[..k]);
      FieldsBehind(cfg, t, some, hard) ==
        if k == |t| then w + (if t == [] && hard then [[]] else [])
        else PieceThen(w, some, Hard(cfg, t[k]), k == 0 || White(cfg, t[k - 1]),
                       FieldsFrom(cfg, t[k + 1..], Hard(cfg, t[k])))
  { hide Words, FirstStop, White, Hard; }

  lemma PieceShifts(cfg: Config, t: Text, w: nat, n: nat, first: seq<Text>, some: bool, hard: bool)
    requires w <= n <= |t| && FirstStop(cfg, t) == n && FirstStop(cfg, t[w..]) == n - w && 0 < w
    requires Words(cfg, t[..n]) == first + Words(cfg, t[w..][..n - w]) && White(cfg, t[w - 1])
    ensures FieldsBehind(cfg, t, some, hard) == first + FieldsBehind(cfg, t[w..], some || first != [], false)
  {
    hide Words, FirstStop, White, Hard, FieldsFrom, FieldsBehind, PieceThen;
    FieldsStep(cfg, t, some, hard);
    FieldsStep(cfg, t[w..], some || first != [], false);
    if n < |t| {
      var u := t[w..];
      assert u[n - w] == t[n] && u[n - w + 1..] == t[n + 1..];
      assert n > w ==> u[n - w - 1] == t[n - 1];
      var v, h := Words(cfg, u[..n - w]), Hard(cfg, t[n]);
      PieceThenShifts(first, v, some, h, n == w || White(cfg, t[n - 1]), FieldsFrom(cfg, t[n + 1..], h));
    }
  }

  /** White space at the start of a piece is immaterial. */
  lemma LeadingWhite(cfg: Config, t: Text, k: nat)
    requires k <= |t| && forall j :: 0 <= j < k ==> White(cfg, t[j]) && !Hard(cfg, t[j])
    ensures FieldsFrom(cfg, t, false) == FieldsFrom(cfg, t[k..], false)
  {
    hide FieldsFrom, FieldsBehind, Words, FirstStop;
    BehindNothing(cfg, t, false);
    BehindNothing(cfg, t[k..], false);
    FirstStopSkips(cfg, t, k);
    var n := FirstStop(cfg, t);
    assert t[..n][k..] == t[k..][..n - k];
    WordsSkipWhite(cfg, t[..n], k);
    if k > 0 { PieceShifts(cfg, t, k, n, [], false, false); } else { assert t[0..] == t; }
  }

  /** One field and the white space behind it, in the middle of a piece. */
  lemma MiddleOfPiece(cfg: Config, t: Text, e: nat, w: nat, some: bool, hard: bool)
    requires 0 < w <= |t| && e < w && (w < |t| ==> !Mark(cfg, t[w]))
    requires forall j :: 0 <= j < e ==> !Delimits(cfg, t[j])
    requires forall j :: e <= j < w ==> White(cfg, t[j]) && !Hard(cfg, t[j])
    ensures FieldsBehind(cfg, t, some, hard)
         == (if e > 0 then [t[..e]] else []) + FieldsBehind(cfg, t[w..], some || e > 0, false)
  {
    hide FieldsFrom, FieldsBehind, Words;
    FirstStopSkips(cfg, t, w);
    var n := FirstStop(cfg, t);
    assert t[..n][w..] == t[w..][..n - w] && t[..n][..e] == t[..e];
    WordsAfterWord(cfg, t[..n], e, w);
    PieceShifts(cfg, t, w, n, if e > 0 then [t[..e]] else [], some, hard);
  }

  /** One field and the separator or boundary that ends it, white space in between. */
  lemma EndOfPiece(cfg: Config, t: Text, e: nat, w: nat, some: bool, hard: bool)
    requires e <= w < |t| && (Mark(cfg, t[w]) || (Hard(cfg, t[w]) && e == w))
    requires forall j :: 0 <= j < e ==> !Delimits(cfg, t[j])
    requires forall j :: e <= j < w ==> White(cfg, t[j]) && !Hard(cfg, t[j])
    ensures FirstStop(cfg, t) == w
    ensures Words(cfg, t[..w]) == if e > 0 then [t[..e]] else []
  {
    FirstStopSkips(cfg, t, w);
    assert t[w..][0] == t[w];
    assert t[..w][..e] == t[..e] && t[..w][w..] == [];
    WordsAfterWord(cfg, t[..w], e, w);
  }

  /** Where the delimiter at `e` begins and ends, and why white space in it is no boundary. */
  lemma DelimiterCells(cfg: Config, t: Text, e: nat) returns (w: nat)
    requires Separable(cfg, t) && e < |t| && Delimits(cfg, t[e]) && !Hard(cfg, t[e])
    ensures e <= w <= |t| && w == e + WhiteRun(cfg, t[e..]) && (w < |t| ==> !White(cfg, t[w]))
    ensures forall j :: e <= j < w ==> White(cfg, t[j]) && !Hard(cfg, t[j])
    ensures w < |t| && Mark(cfg, t[w]) ==> !Hard(cfg, t[w])
    ensures w == e ==> Mark(cfg, t[e])
  {
    w := e + WhiteRun(cfg, t[e..]);
    forall j | e <= j < w ensures White(cfg, t[j]) && !Hard(cfg, t[j]) { assert t[j] == t[e..][j - e]; }
    if w > e { assert t[e].c in cfg.ifs && Space(t[e].c); }
  }

  lemma SkippedWhite(cfg: Config, t: Text)
    ensures FieldsFrom(cfg, t, false) == FieldsFrom(cfg, t[WhiteRun(cfg, t)..], false)
  {
    var k := WhiteRun(cfg, t);
    forall j | 0 <= j < k ensures White(cfg, t[j]) && !Hard(cfg, t[j]) { assert t[j].c in cfg.ifs; }
    LeadingWhite(cfg, t, k);
  }

  lemma {:induction false} SplitFromIsFields(cfg: Config, t: Text, some: bool, last: bool)
    requires Separable(cfg, t)
    requires (last ==> !some) && (t != [] ==> (White(cfg, t[0]) ==> last) && (Mark(cfg, t[0]) ==> !some))
    ensures SplitFrom(cfg, t, last) == FieldsBehind(cfg, t, some, last)
    decreases |t|, 1
  {
    hide FieldsFrom, FieldsBehind, Words, FirstStop, White, Hard, Mark, Separates, Ambiguous;
    if t == [] {
      EmptyText(cfg, some, last);
    } else {
      var e := DataRun(cfg, t);
      if e == |t| {
        OneField(cfg, t, some, last);
      } else if Hard(cfg, t[e]) {
        HardEnds(cfg, t, e, some, last);
        SplitFromIsFields(cfg, t[e + 1..], false, true);
        BehindNothing(cfg, t[e + 1..], true);
      } else {
        SoftDelimiter(cfg, t, e, some, last);
      }
    }
  }

  lemma HardEnds(cfg: Config, t: Text, e: nat, some: bool, hard: bool)
    requires e < |t| && Hard(cfg, t[e]) && forall j :: 0 <= j < e ==> !Delimits(cfg, t[j])
    ensures FieldsBehind(cfg, t, some, hard) == [t[..e]] + FieldsFrom(cfg, t[e + 1..], true)
  {
    EndOfPiece(cfg, t, e, e, some, hard);
    HardPiece(cfg, t, e, some, hard);
  }

  lemma SplitSoft(cfg: Config, t: Text, e: nat, last: bool)
    requires e == DataRun(cfg, t) < |t| && !Hard(cfg, t[e])
    ensures var (d, saw) := Delimiter(cfg, t[e..]);
      SplitFrom(cfg, t, last) == (if saw || e > 0 then [t[..e]] else []) + SplitFrom(cfg, t[e + d..], false)
  { hide Hard, DataRun, Delimiter; }

  lemma DelimiterIs(cfg: Config, t: Text, e: nat, w: nat)
    requires e <= w <= |t| && w == e + WhiteRun(cfg, t[e..])
    ensures Delimiter(cfg, t[e..]) ==
      if w < |t| && Mark(cfg, t[w]) then (w - e + 1 + WhiteRun(cfg, t[w + 1..]), true) else (w - e, false)
  {
    hide WhiteRun, Mark;
    if w < |t| { assert t[e..][w - e] == t[w] && t[e..][w - e + 1..] == t[w + 1..]; }
  }

  lemma {:induction false} SoftDelimiter(cfg: Config, t: Text, e: nat, some: bool, last: bool)
    requires Separable(cfg, t) && e == DataRun(cfg, t) < |t| && !Hard(cfg, t[e])
    requires (last ==> !some) && (White(cfg, t[0]) ==> last) && (Mark(cfg, t[0]) ==> !some)
    ensures SplitFrom(cfg, t, last) == FieldsBehind(cfg, t, some, last)
    decreases |t|, 0
  {
    hide SplitFrom, FieldsFrom, FieldsBehind, Words, FirstStop, White, Hard, Mark, Separates, Ambiguous;
    hide Delimiter, DataRun, WhiteRun;
    var w := DelimiterCells(cfg, t, e);
    SplitSoft(cfg, t, e, last);
    DelimiterIs(cfg, t, e, w);
    if w < |t| && Mark(cfg, t[w]) {
      EndOfPiece(cfg, t, e, w, some, last);
      assert e == 0 ==> !some;
      MarkPiece(cfg, t, e, w, some, last);
      var u := t[w + 1..];
      SkippedWhite(cfg, u);
      assert u[WhiteRun(cfg, u)..] == t[w + 1 + WhiteRun(cfg, u)..];
      SplitFromIsFields(cfg, u[WhiteRun(cfg, u)..], false, false);
      BehindNothing(cfg, u[WhiteRun(cfg, u)..], false);
    } else {
      MiddleOfPiece(cfg, t, e, w, some, last);
      SplitFromIsFields(cfg, t[w..], some || e > 0, false);
    }
  }

  lemma EmptyText(cfg: Config, some: bool, hard: bool)
    ensures FieldsBehind(cfg, [], some, hard) == if hard then [[]] else []
  {}

  lemma OneField(cfg: Config, t: Text, some: bool, hard: bool)
    requires t != [] && forall j :: 0 <= j < |t| ==> !Delimits(cfg, t[j])
    ensures FieldsBehind(cfg, t, some, hard) == [t]
  {
    FirstStopSkips(cfg, t, |t|);
    assert t[..|t|] == t;
    WordsAfterWord(cfg, t, |t|, |t|);
  }

  lemma HardPiece(cfg: Config, t: Text, e: nat, some: bool, hard: bool)
    requires e < |t| && FirstStop(cfg, t) == e && Hard(cfg, t[e])
    requires Words(cfg, t[..e]) == (if e > 0 then [t[..e]] else [])
    requires e > 0 ==> !White(cfg, t[e - 1])
    ensures FieldsBehind(cfg, t, some, hard) == [t[..e]] + FieldsFrom(cfg, t[e + 1..], true)
  {}

  lemma MarkPiece(cfg: Config, t: Text, e: nat, w: nat, some: bool, hard: bool)
    requires e <= w < |t| && FirstStop(cfg, t) == w && !Hard(cfg, t[w])
    requires Words(cfg, t[..w]) == (if e > 0 then [t[..e]] else []) && (e == 0 ==> !some)
    ensures FieldsBehind(cfg, t, some, hard) == [t[..e]] + FieldsFrom(cfg, t[w + 1..], false)
  {}

  /** The splitter finds the fields. */
  lemma SplitIsFields(cfg: Config, t: Text)
    requires Separable(cfg, t)
    ensures Split(cfg, t) == Fields(cfg, t)
  {
    SkippedWhite(cfg, t);
    SplitFromIsFields(cfg, t[WhiteRun(cfg, t)..], false, false);
    BehindNothing(cfg, t[WhiteRun(cfg, t)..], false);
  }

  /** In a text whose boundaries are all quoted, as those of `"$@"` are, whatever IFS is. */
  lemma QuotedBoundariesSplit(cfg: Config, t: Text)
    requires forall j :: 0 <= j < |t| && Hard(cfg, t[j]) ==> t[j].prot
    ensures Split(cfg, t) == Fields(cfg, t)
  { SplitIsFields(cfg, t); }

  /** When 0x01 is a separator too and IFS has white space `w`, an unquoted 0x01 behind `w` is
      swallowed. */
  lemma AmbiguousFails(cfg: Config, w: char)
    requires cfg.bound && SOH in cfg.ifs && w in cfg.ifs && Space(w)
    ensures var t := [Cell('a', true), Cell(w, false), Cell(SOH, false)];
      Split(cfg, t) == [[t[0]]] && Fields(cfg, t) == [[t[0]], [], []]
  {
    var x, y, z := Cell('a', true), Cell(w, false), Cell(SOH, false);
    var t := [x, y, z];
    assert White(cfg, y) && Mark(cfg, z) && Hard(cfg, z) && !Delimits(cfg, x);
    assert t[1..] == [y, z] && [y, z][1..] == [z] && [z][1..] == [];
    assert t[0..] == t && DataRun(cfg, t) == 1;
    DelimiterIs(cfg, t, 1, 2);
    SplitSoft(cfg, t, 1, false);
    assert t[1 + 2..] == [] && t[..1] == [x];
    assert WhiteRun(cfg, t) == 0 && SplitFrom(cfg, [], false) == [];
    EndOfPieceAfterWhite(cfg, t);
  }

  lemma EndOfPieceAfterWhite(cfg: Config, t: Text)
    requires |t| == 3 && !Delimits(cfg, t[0]) && White(cfg, t[1]) && !Hard(cfg, t[1]) && Hard(cfg, t[2])
    ensures Fields(cfg, t) == [[t[0]], [], []]
  {
    FirstStopSkips(cfg, t, 2);
    assert t[2..][0] == t[2] && FirstStop(cfg, t) == 2;
    assert t[..2][..1] == [t[0]] && t[..2][2..] == [];
    WordsAfterWord(cfg, t[..2], 1, 2);
    assert Words(cfg, []) == [];
    assert Words(cfg, t[..2]) == [[t[0]]];
    assert t[3..] == [];
    EmptyText(cfg, false, true);
    var none: Text := [];
    assert FieldsFrom(cfg, t[3..], true) == [none];
    assert FieldsFrom(cfg, t, false) == [[t[0]]] + [none] + [none];
  }

  /** For which configurations the loop finds the fields of every text, quoted as it may be. */
  lemma SplitIsFieldsExactly(cfg: Config)
    ensures (forall t :: Split(cfg, t) == Fields(cfg, t)) <==> !Ambiguous(cfg)
  {
    if Ambiguous(cfg) {
      var w :| w in cfg.ifs && Space(w);
      AmbiguousFails(cfg, w);
      var t := [Cell('a', true), Cell(w, false), Cell(SOH, false)];
      assert Split(cfg, t) != Fields(cfg, t);
    } else {
      forall t ensures Split(cfg, t) == Fields(cfg, t) { SplitIsFields(cfg, t); }
    }
  }

  // ----- Nothing is lost ----------------------------------------------------------------------

  function Data(cfg: Config, t: Text): Text {
    if t == [] then [] else (if Delimits(cfg, t[0]) then [] else [t[0]]) + Data(cfg, t[1..])
  }

  function Flatten(fs: seq<Text>): Text { if fs == [] then [] else fs[0] + Flatten(fs[1..]) }

  lemma {:induction false} DataSplits(cfg: Config, a: Text, b: Text)
    ensures Data(cfg, a + b) == Data(cfg, a) + Data(cfg, b)
  {
    if a == [] { assert a + b == b; }
    else { assert (a + b)[1..] == a[1..] + b; DataSplits(cfg, a[1..], b); }
  }

  lemma {:induction false} AllData(cfg: Config, t: Text)
    requires forall j :: 0 <= j < |t| ==> !Delimits(cfg, t[j])
    ensures Data(cfg, t) == t
  { if t != [] { AllData(cfg, t[1..]); } }

  lemma {:induction false} NoData(cfg: Config, t: Text)
    requires forall j :: 0 <= j < |t| ==> Delimits(cfg, t[j])
    ensures Data(cfg, t) == []
  { if t != [] { NoData(cfg, t[1..]); } }

  lemma DataFrom(cfg: Config, t: Text, e: nat, d: nat)
    requires e <= d <= |t| && forall j :: 0 <= j < e ==> !Delimits(cfg, t[j])
    requires forall j :: e <= j < d ==> Delimits(cfg, t[j])
    ensures Data(cfg, t) == t[..e] + Data(cfg, t[d..])
  {
    assert t == t[..e] + (t[e..d] + t[d..]);
    DataSplits(cfg, t[..e], t[e..d] + t[d..]);
    DataSplits(cfg, t[e..d], t[d..]);
    AllData(cfg, t[..e]);
    NoData(cfg, t[e..d]);
  }

  /** In every configuration each byte that is no delimiter, and so each quoted byte that is no
      boundary, stands in exactly one field, in order. */
  lemma {:induction false} SplitKeepsData(cfg: Config, t: Text, last: bool)
    ensures Flatten(SplitFrom(cfg, t, last)) == Data(cfg, t)
    decreases |t|
  {
    hide Data, Hard, White, Mark, Delimiter, Flatten, DataRun, Delimits, SplitFrom;
    FlattenOne([]);
    if t == [] {
      NoData(cfg, t);
      SplitEnds(cfg, t, last);
    } else {
      var e := DataRun(cfg, t);
      if e == |t| {
        SplitEnds(cfg, t, last);
        AllData(cfg, t);
        FlattenOne(t);
      } else if Hard(cfg, t[e]) {
        SplitHard(cfg, t, e, last);
        DataFrom(cfg, t, e, e + 1);
        SplitKeepsData(cfg, t[e + 1..], true);
        FlattenCons(t[..e], SplitFrom(cfg, t[e + 1..], true));
      } else {
        var (d, saw) := Delimiter(cfg, t[e..]);
        SplitSoft(cfg, t, e, last);
        DelimiterDelimits(cfg, t, e);
        DelimiterMoves(cfg, t, e);
        DataFrom(cfg, t, e, e + d);
        SplitKeepsData(cfg, t[e + d..], false);
        FlattenCons(t[..e], SplitFrom(cfg, t[e + d..], false));
        assert e == 0 ==> t[..e] == [];
      }
    }
  }

  lemma SplitEnds(cfg: Config, t: Text, last: bool)
    requires DataRun(cfg, t) == |t|
    ensures SplitFrom(cfg, t, last) == if t == [] then (if last then [[]] else []) else [t]
  {}

  lemma DelimiterMoves(cfg: Config, t: Text, e: nat)
    requires e < |t| && Delimits(cfg, t[e]) && !Hard(cfg, t[e])
    ensures Delimiter(cfg, t[e..]).0 > 0
  { assert t[e..][0] == t[e]; }

  lemma FlattenOne(f: Text)
    ensures Flatten([f]) == f && Flatten([]) == []
  { assert [f][1..] == []; }

  lemma FlattenCons(f: Text, fs: seq<Text>)
    ensures Flatten([f] + fs) == f + Flatten(fs) && Flatten([] + fs) == Flatten(fs)
  { assert ([f] + fs)[1..] == fs && [] + fs == fs; }

  lemma DelimiterDelimits(cfg: Config, t: Text, e: nat)
    requires e < |t|
    ensures e + Delimiter(cfg, t[e..]).0 <= |t|
    ensures forall j :: e <= j < e + Delimiter(cfg, t[e..]).0 ==> Delimits(cfg, t[j])
  {
    var w := e + WhiteRun(cfg, t[e..]);
    DelimiterIs(cfg, t, e, w);
    var d := e + Delimiter(cfg, t[e..]).0;
    forall j | e <= j < d ensures Delimits(cfg, t[j]) {
      if j < w { assert t[j] == t[e..][j - e]; }
      else if j > w { assert t[j] == t[w + 1..][j - w - 1]; }
    }
  }

  lemma WordKeepsData(cfg: Config, t: Text)
    ensures Flatten(Split(cfg, t)) == Data(cfg, t)
  {
    var k := WhiteRun(cfg, t);
    SplitKeepsData(cfg, t[k..], false);
    DataFrom(cfg, t, 0, k);
  }

  // ----- The loop in place --------------------------------------------------------------------

  function Cells(s: string, prot: seq<bool>): (t: Text)
    requires |s| == |prot|
    ensures |t| == |s|
  { seq(|s|, i requires 0 <= i < |s| => Cell(s[i], prot[i])) }

  /** The byte a cell is kept as. */
  function Byte(x: Cell): char {
    match x case Cell(c, _) => c case Datum(c, _) => c case Boundary(_) => SOH case Placeholder => QG_NULL
  }

  function Chars(t: Text): (s: string)
    ensures |s| == |t|
  { seq(|t|, i requires 0 <= i < |t| => Byte(t[i])) }

  function DecodeAll(fs: seq<Text>): (ds: seq<string>)
    ensures |ds| == |fs|
  { seq(|fs|, i requires 0 <= i < |fs| => Decode(Chars(fs[i]))) }

  lemma DecodeAllSplits(a: seq<Text>, b: seq<Text>)
    ensures DecodeAll(a + b) == DecodeAll(a) + DecodeAll(b)
  {}

  lemma DecodeOne(f: Text, fs: seq<Text>)
    ensures DecodeAll([f] + fs) == [Decode(Chars(f))] + DecodeAll(fs) && DecodeAll([] + fs) == DecodeAll(fs)
  {
    DecodeAllSplits([f], fs);
    assert [] + fs == fs;
  }

  lemma SplitHard(cfg: Config, t: Text, e: nat, last: bool)
    requires e == DataRun(cfg, t) < |t| && Hard(cfg, t[e])
    ensures SplitFrom(cfg, t, last) == [t[..e]] + SplitFrom(cfg, t[e + 1..], true)
  { hide Hard, DataRun; }

  lemma HardStep(cfg: Config, t: Text, i: nat, e: nat, last: bool)
    requires i <= e < |t| && e == i + DataRun(cfg, t[i..]) && Hard(cfg, t[e])
    ensures SplitFrom(cfg, t[i..], last) == [t[i..e]] + SplitFrom(cfg, t[e + 1..], true)
  {
    hide Hard, DataRun, SplitFrom;
    var u := t[i..];
    assert u[e - i] == t[e] && u[..e - i] == t[i..e] && u[e - i + 1..] == t[e + 1..];
    SplitHard(cfg, u, e - i, last);
  }

  lemma SoftStep(cfg: Config, t: Text, i: nat, e: nat, w: nat, last: bool)
    requires i <= e <= w <= |t| && e == i + DataRun(cfg, t[i..]) < |t| && !Hard(cfg, t[e])
    requires w == e + WhiteRun(cfg, t[e..])
    ensures SplitFrom(cfg, t[i..], last) ==
      if w < |t| && Mark(cfg, t[w]) then [t[i..e]] + SplitFrom(cfg, t[w + 1 + WhiteRun(cfg, t[w + 1..])..], false)
      else (if e > i then [t[i..e]] else []) + SplitFrom(cfg, t[w..], false)
  {
    hide Hard, DataRun, WhiteRun, Mark, Delimiter, SplitFrom;
    var u := t[i..];
    assert u[e - i] == t[e] && u[..e - i] == t[i..e] && u[e - i..] == t[e..];
    SplitSoft(cfg, u, e - i, last);
    DelimiterIs(cfg, t, e, w);
    if w < |t| { assert u[w + 1 - i + WhiteRun(cfg, t[w + 1..])..] == t[w + 1 + WhiteRun(cfg, t[w + 1..])..]; }
    assert u[w - i..] == t[w..];
  }

  /** The word being split: a C string, its protection map, and the cells it started as. */
  class Splitter {
    const cfg: Config
    const copy: array<char>
    const prot: seq<bool>
    ghost const t: Text
    var fields: seq<string>

    constructor (cfg: Config, word: string, prot: seq<bool>)
      requires |word| == |prot| && '\0' !in word
      ensures this.cfg == cfg && t == Cells(word, prot) && fresh(copy) && Intact(0) && fields == []
    {
      this.cfg, this.prot, this.t, this.fields := cfg, prot, Cells(word, prot), [];
      copy := new char[|word| + 1](i => if 0 <= i < |word| then word[i] else '\0');
    }

    /** From `i` on nothing has been overwritten. */
    ghost predicate Intact(i: nat)
      reads copy
    {
      && copy.Length == |t| + 1 && |prot| == |t| && i <= |t| && copy[|t|] == '\0'
      && (forall j :: 0 <= j < |t| ==> t[j].Cell? && prot[j] == t[j].prot && t[j].c != '\0')
      && (forall j :: i <= j < |t| ==> copy[j] == t[j].c)
    }

    predicate IfsIs(i: nat)
      requires i < copy.Length && (copy[i] != '\0' ==> i < |prot|)
      reads copy
    { copy[i] != '\0' && !prot[i] && copy[i] in cfg.ifs }

    method SkipWhite(cp0: nat) returns (cp: nat)
      requires Intact(cp0)
      ensures cp0 <= cp <= |t| && cp == cp0 + WhiteRun(cfg, t[cp0..])
    {
      cp := cp0;
      while IfsIs(cp) && Space(copy[cp])
        invariant cp0 <= cp <= |t| && cp0 + WhiteRun(cfg, t[cp0..]) == cp + WhiteRun(cfg, t[cp..])
        decreases |t| - cp
      {
        assert t[cp..][1..] == t[cp + 1..];
        cp := cp + 1;
      }
    }

    method SkipData(cp0: nat) returns (cp: nat)
      requires Intact(cp0)
      ensures cp0 <= cp <= |t| && cp == cp0 + DataRun(cfg, t[cp0..])
    {
      cp := cp0;
      while copy[cp] != '\0' && !IfsIs(cp) && !(cfg.bound && copy[cp] == SOH)
        invariant cp0 <= cp <= |t| && cp0 + DataRun(cfg, t[cp0..]) == cp + DataRun(cfg, t[cp..])
        decreases |t| - cp
      {
        assert t[cp..][1..] == t[cp + 1..];
        cp := cp + 1;
      }
    }

    /** `*fend = 0; EMIT(fstart)`: the field is the C string that now starts at `fstart`. */
    method Emit(fstart: nat, fend: nat)
      requires Intact(fstart) && fstart <= fend <= |t|
      modifies this, copy
      ensures Intact(if fend < |t| then fend + 1 else fend)
      ensures fields == old(fields) + [Decode(Chars(t[fstart..fend]))]
    {
      copy[fend] := '\0';
      var s, p := "", fstart;
      while copy[p] != '\0'
        invariant fstart <= p <= fend && s == Chars(t[fstart..p])
        decreases fend - p
      {
        assert Chars(t[fstart..p + 1]) == Chars(t[fstart..p]) + [t[p].c];
        s := s + [copy[p]];
        p := p + 1;
      }
      var d := PpDecode(s);
      fields := fields + [d];
    }

    /** The loop of `expand_word_full`: the decoded fields of the word. */
    method Run()
      requires Intact(0) && fields == []
      modifies this, copy
      ensures fields == DecodeAll(Split(cfg, t))
    {
      hide SplitFrom, DataRun, WhiteRun, Decode;
      var cp := SkipWhite(0);
      assert t[0..] == t;
      var last := false;
      while copy[cp] != '\0'
        invariant cp <= |t| && Intact(cp)
        invariant DecodeAll(Split(cfg, t)) == fields + DecodeAll(SplitFrom(cfg, t[cp..], last))
        decreases |t| - cp
      {
        cp, last := Field(cp, last);
      }
      AtEnd(cfg, last);
      assert t[cp..] == [];
      if last { Emit(cp, cp); }
    }

    /** One turn of the loop. */
    method Field(cp0: nat, last0: bool) returns (cp: nat, last: bool)
      requires cp0 < |t| && Intact(cp0)
      modifies this, copy
      ensures cp0 < cp <= |t| && Intact(cp)
      ensures old(fields) + DecodeAll(SplitFrom(cfg, t[cp0..], last0))
           == fields + DecodeAll(SplitFrom(cfg, t[cp..], last))
    {
      hide SplitFrom, DataRun, WhiteRun, Decode;
      var fstart := cp0;
      cp := SkipData(cp0);
      var fend := cp;
      if cfg.bound && copy[cp] == SOH {
        HardStep(cfg, t, fstart, fend, last0);
        DecodeOne(t[fstart..fend], SplitFrom(cfg, t[fend + 1..], true));
        Emit(fstart, fend);
        return fend + 1, true;
      }
      last := false;
      if copy[cp] == '\0' {
        WholeField(cfg, t[fstart..], last0);
        assert t[fstart..fend] == t[fstart..] && t[cp..] == [];
        DecodeOne(t[fstart..], SplitFrom(cfg, [], false));
        if fend > fstart { Emit(fstart, fend); }
        return;
      }
      cp := Soft(fstart, fend, last0);
    }

    /** White space, at most one other separator, white space. */
    method SkipDelimiter(fend: nat) returns (cp: nat, saw: bool)
      requires fend < |t| && Intact(fend) && Delimits(cfg, t[fend]) && !Hard(cfg, t[fend])
      ensures var w := fend + WhiteRun(cfg, t[fend..]);
        && saw == (w < |t| && Mark(cfg, t[w]))
        && cp == (if saw then w + 1 + WhiteRun(cfg, t[w + 1..]) else w) && fend < cp <= |t|
    {
      hide DataRun, WhiteRun, Delimits, Hard;
      cp := SkipWhite(fend);
      SoftProgress(cfg, t, fend);
      saw := false;
      if IfsIs(cp) {
        saw := true;
        cp := SkipWhite(cp + 1);
      }
    }

    /** The delimiter behind the field `[fstart, fend)`, and the field. */
    method Soft(fstart: nat, fend: nat, ghost last0: bool) returns (cp: nat)
      requires fstart <= fend < |t| && Intact(fstart) && fend == fstart + DataRun(cfg, t[fstart..])
      requires Delimits(cfg, t[fend]) && !Hard(cfg, t[fend])
      modifies this, copy
      ensures fend < cp <= |t| && Intact(cp)
      ensures old(fields) + DecodeAll(SplitFrom(cfg, t[fstart..], last0))
           == fields + DecodeAll(SplitFrom(cfg, t[cp..], false))
    {
      hide SplitFrom, DataRun, WhiteRun, Decode, Delimits, Hard, Mark, DecodeAll, Chars;
      var saw;
      cp, saw := SkipDelimiter(fend);
      SoftDecoded(cfg, t, fstart, fend, fend + WhiteRun(cfg, t[fend..]), last0);
      ghost var before, rest := fields, DecodeAll(SplitFrom(cfg, t[cp..], false));
      if saw || fend > fstart {
        Emit(fstart, fend);
        Appended(before, Decode(Chars(t[fstart..fend])), rest);
      } else {
        assert [] + rest == rest;
      }
    }
  }

  lemma Appended(a: seq<string>, d: string, b: seq<string>)
    ensures a + ([d] + b) == a + [d] + b
  {}

  lemma SoftDecoded(cfg: Config, t: Text, i: nat, e: nat, w: nat, last: bool)
    requires i <= e <= w <= |t| && e == i + DataRun(cfg, t[i..]) < |t| && !Hard(cfg, t[e])
    requires w == e + WhiteRun(cfg, t[e..])
    ensures DecodeAll(SplitFrom(cfg, t[i..], last)) ==
      if w < |t| && Mark(cfg, t[w])
      then [Decode(Chars(t[i..e]))] + DecodeAll(SplitFrom(cfg, t[w + 1 + WhiteRun(cfg, t[w + 1..])..], false))
      else (if e > i then [Decode(Chars(t[i..e]))] else []) + DecodeAll(SplitFrom(cfg, t[w..], false))
  {
    hide SplitFrom, DataRun, WhiteRun, Decode, Hard, Mark, DecodeAll, Chars;
    SoftStep(cfg, t, i, e, w, last);
    if w < |t| && Mark(cfg, t[w]) {
      DecodeOne(t[i..e], SplitFrom(cfg, t[w + 1 + WhiteRun(cfg, t[w + 1..])..], false));
    } else {
      DecodeOne(t[i..e], SplitFrom(cfg, t[w..], false));
    }
  }

  lemma AtEnd(cfg: Config, last: bool)
    ensures DecodeAll(SplitFrom(cfg, [], last)) == if last then [Decode(Chars([]))] else []
  {}

  lemma WholeField(cfg: Config, t: Text, last: bool)
    requires t != [] && DataRun(cfg, t) == |t|
    ensures SplitFrom(cfg, t, last) == [t] + SplitFrom(cfg, [], false) && SplitFrom(cfg, [], false) == []
  {}

  lemma SoftProgress(cfg: Config, t: Text, e: nat)
    requires e < |t| && Delimits(cfg, t[e]) && !Hard(cfg, t[e])
    ensures var w := e + WhiteRun(cfg, t[e..]); w == e ==> Mark(cfg, t[e])
    ensures var w := e + WhiteRun(cfg, t[e..]); w < |t| ==> !White(cfg, t[w])
  {
    var k := WhiteRun(cfg, t[e..]);
    if e + k < |t| { assert t[e + k] == t[e..][k]; }
  }
}
