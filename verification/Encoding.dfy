/** Words that carry markers: splitting and decoding them, and the boundaries of "$@". */
module WordEncoding {
  import opened Markers
  import opened WordFields

  // ----- Splitting encoded text ---------------------------------------------------------------

  /** The byte separates, or is data, whether or not it is encoded. */
  predicate ByteFits(ifs: string, c: char) { Reserved(c) ==> PP_ESC !in ifs && c !in ifs && c + '@' !in ifs }

  predicate CellFits(cfg: Config, x: Cell) {
    match x
    case Cell(_, _) => true
    case Datum(c, prot) => prot || ByteFits(cfg.ifs, c)
    case Boundary(prot) => cfg.bound && (prot || SOH !in cfg.ifs)
    case Placeholder => true
  }

  predicate Encodable(cfg: Config, t: Text) { forall j :: 0 <= j < |t| ==> CellFits(cfg, t[j]) }

  function EncodeCell(x: Cell): Text {
    match x
    case Cell(_, _) => [x]
    case Datum(c, prot) => if Reserved(c) then [Cell(PP_ESC, prot), Cell(c + '@', prot)] else [Cell(c, prot)]
    case Boundary(prot) => [Cell(SOH, prot)]
    case Placeholder => [Cell(QG_NULL, true)]
  }

  /** The bytes that stand for the cells of a word. */
  function Encode(t: Text): Text { if t == [] then [] else EncodeCell(t[0]) + Encode(t[1..]) }

  lemma {:induction false} EncodeSplits(a: Text, b: Text)
    ensures Encode(a + b) == Encode(a) + Encode(b)
  {
    if a == [] { assert a + b == b; }
    else { assert (a + b)[1..] == a[1..] + b; EncodeSplits(a[1..], b); }
  }

  lemma DataRunIs(cfg: Config, t: Text, e: nat)
    requires e <= |t| && (e < |t| ==> Delimits(cfg, t[e])) && forall j :: 0 <= j < e ==> !Delimits(cfg, t[j])
    ensures DataRun(cfg, t) == e
  {}

  lemma WhiteRunIs(cfg: Config, t: Text, k: nat)
    requires k <= |t| && (k < |t| ==> !White(cfg, t[k])) && forall j :: 0 <= j < k ==> White(cfg, t[j])
    ensures WhiteRun(cfg, t) == k
  {}

  /** Data stays data when it is encoded, and white space stays white space. */
  lemma {:induction false} EncodedData(cfg: Config, t: Text)
    requires Encodable(cfg, t) && forall j :: 0 <= j < |t| ==> !Delimits(cfg, t[j])
    ensures forall j :: 0 <= j < |Encode(t)| ==> !Delimits(cfg, Encode(t)[j])
  {
    if t != [] {
      EncodedData(cfg, t[1..]);
      assert CellFits(cfg, t[0]);
      assert forall j :: 0 <= j < |EncodeCell(t[0])| ==> !Delimits(cfg, EncodeCell(t[0])[j]);
    }
  }

  lemma {:induction false} EncodedWhite(cfg: Config, t: Text)
    requires forall j :: 0 <= j < |t| ==> White(cfg, t[j])
    ensures |Encode(t)| == |t| && forall j :: 0 <= j < |t| ==> White(cfg, Encode(t)[j])
  { if t != [] { EncodedWhite(cfg, t[1..]); } }

  /** A delimiter stays one, and of its kind. */
  lemma EncodedDelimiterCell(cfg: Config, x: Cell)
    requires CellFits(cfg, x) && Delimits(cfg, x)
    ensures |EncodeCell(x)| == 1 && Delimits(cfg, EncodeCell(x)[0]) && (Hard(cfg, EncodeCell(x)[0]) <==> Hard(cfg, x))
  {}

  lemma EncodeStep(t: Text, k: nat)
    requires k <= |t|
    ensures Encode(t[k..]) == if k == |t| then [] else EncodeCell(t[k]) + Encode(t[k + 1..])
  { if k < |t| { assert t[k..][1..] == t[k + 1..]; } }

  lemma EncodedDataRun(cfg: Config, t: Text) returns (e: nat)
    requires Encodable(cfg, t)
    ensures e == DataRun(cfg, t) && Encode(t) == Encode(t[..e]) + Encode(t[e..])
    ensures DataRun(cfg, Encode(t)) == |Encode(t[..e])|
    ensures e < |t| ==> Delimits(cfg, t[e]) && Encode(t[e..]) == EncodeCell(t[e]) + Encode(t[e + 1..])
  {
    e := DataRun(cfg, t);
    assert t == t[..e] + t[e..];
    EncodeSplits(t[..e], t[e..]);
    EncodedData(cfg, t[..e]);
    if e < |t| { EncodedDelimiterCell(cfg, t[e]); }
    EncodeStep(t, e);
    DataRunIs(cfg, Encode(t), |Encode(t[..e])|);
  }

  lemma EncodedHead(cfg: Config, x: Cell)
    requires CellFits(cfg, x) && !White(cfg, x)
    ensures EncodeCell(x) != [] && !White(cfg, EncodeCell(x)[0]) && (Mark(cfg, EncodeCell(x)[0]) <==> Mark(cfg, x))
    ensures Mark(cfg, x) ==> |EncodeCell(x)| == 1
  {}

  lemma EncodedWhiteRun(cfg: Config, t: Text) returns (k: nat)
    requires Encodable(cfg, t)
    ensures k == WhiteRun(cfg, t) == WhiteRun(cfg, Encode(t))
    ensures k <= |Encode(t)| && Encode(t)[k..] == Encode(t[k..])
    ensures k < |t| <==> k < |Encode(t)|
    ensures k < |t| ==> (Mark(cfg, Encode(t)[k]) <==> Mark(cfg, t[k]))
    ensures k < |t| && Mark(cfg, t[k]) ==> Encode(t)[k + 1..] == Encode(t[k + 1..])
  {
    k := WhiteRun(cfg, t);
    hide Encode, EncodeCell, WhiteRun, CellFits, White, Mark;
    assert t == t[..k] + t[k..];
    EncodeSplits(t[..k], t[k..]);
    EncodedWhite(cfg, t[..k]);
    EncodeStep(t, k);
    if k < |t| { EncodedHead(cfg, t[k]); }
    WhiteRunIs(cfg, Encode(t), k);
  }

  function EncodeAll(fs: seq<Text>): (es: seq<Text>)
    ensures |es| == |fs|
  { seq(|fs|, i requires 0 <= i < |fs| => Encode(fs[i])) }

  lemma EncodeAllCons(f: Text, fs: seq<Text>)
    ensures EncodeAll([f] + fs) == [Encode(f)] + EncodeAll(fs) && EncodeAll([] + fs) == EncodeAll(fs)
  { assert [] + fs == fs; }

  lemma EncodedDelimiter(cfg: Config, t: Text) returns (d: nat, saw: bool)
    requires Encodable(cfg, t)
    ensures (d, saw) == Delimiter(cfg, t) == Delimiter(cfg, Encode(t))
    ensures d <= |Encode(t)| && Encode(t)[d..] == Encode(t[d..])
  {
    hide Encode, WhiteRun, Mark, CellFits;
    var k := EncodedWhiteRun(cfg, t);
    d, saw := k, false;
    if k < |t| && Mark(cfg, t[k]) {
      var u := t[k + 1..];
      var m := EncodedWhiteRun(cfg, u);
      d, saw := k + 1 + m, true;
      assert u[m..] == t[d..];
      assert Encode(t)[d..] == Encode(t)[k + 1..][m..];
    }
  }

  /** The encoding is transparent to the splitter. */
  lemma {:induction false} SplitFromEncoded(cfg: Config, t: Text, last: bool)
    requires Encodable(cfg, t)
    ensures SplitFrom(cfg, Encode(t), last) == EncodeAll(SplitFrom(cfg, t, last))
    decreases |t|
  {
    hide Encode, EncodeCell, DataRun, Delimiter, Separates, Hard, SplitFrom, CellFits;
    var e := EncodedDataRun(cfg, t);
    var s, n := Encode(t), |Encode(t[..e])|;
    if e == |t| {
      EncodedEnd(cfg, t, last);
    } else {
      assert s[..n] == Encode(t[..e]) && s[n..] == Encode(t[e..]);
      EncodedDelimiterCell(cfg, t[e]);
      assert s[n] == EncodeCell(t[e])[0];
      if Hard(cfg, t[e]) {
        SplitHard(cfg, s, n, last);
        SplitHard(cfg, t, e, last);
        assert s[n + 1..] == Encode(t[e + 1..]);
        SplitFromEncoded(cfg, t[e + 1..], true);
        EncodeAllCons(t[..e], SplitFrom(cfg, t[e + 1..], true));
      } else {
        var d, saw := EncodedDelimiter(cfg, t[e..]);
        SplitSoft(cfg, s, n, last);
        SplitSoft(cfg, t, e, last);
        DelimiterMoves(cfg, t, e);
        assert s[n + d..] == Encode(t[e..])[d..] && t[e..][d..] == t[e + d..];
        SplitFromEncoded(cfg, t[e + d..], false);
        EncodeAllCons(t[..e], SplitFrom(cfg, t[e + d..], false));
        assert n == 0 <==> e == 0 by { EncodedLength(t[..e]); }
      }
    }
  }

  lemma {:induction false} EncodedLength(t: Text)
    ensures |Encode(t)| >= |t|
  { if t != [] { EncodedLength(t[1..]); } }

  lemma EncodedEnd(cfg: Config, t: Text, last: bool)
    requires Encodable(cfg, t) && DataRun(cfg, t) == |t|
    ensures SplitFrom(cfg, Encode(t), last) == EncodeAll(SplitFrom(cfg, t, last))
  {
    var e := EncodedDataRun(cfg, t);
    assert t[..e] == t && t[e..] == [];
    EncodedLength(t);
    EncodeAllCons(t, []);
    EncodeAllCons([], []);
  }

  lemma SplitEncoded(cfg: Config, t: Text)
    requires Encodable(cfg, t)
    ensures Split(cfg, Encode(t)) == EncodeAll(Split(cfg, t))
  {
    var k := EncodedWhiteRun(cfg, t);
    SplitFromEncoded(cfg, t[k..], false);
  }

  // ----- Decoding a field ---------------------------------------------------------------------

  function CellValue(x: Cell): string { if x.Placeholder? then [] else [Byte(x)] }

  /** The data of a field. */
  function Value(t: Text): string { if t == [] then [] else CellValue(t[0]) + Value(t[1..]) }

  function Values(fs: seq<Text>): (vs: seq<string>)
    ensures |vs| == |fs|
  { seq(|fs|, i requires 0 <= i < |fs| => Value(fs[i])) }

  /** Of the bytes that stand for themselves, none is the placeholder, and the escape byte is last. */
  predicate Readable(t: Text) {
    forall j :: 0 <= j < |t| && t[j].Cell? ==> t[j].c != QG_NULL && (t[j].c == PP_ESC ==> j + 1 == |t|)
  }

  lemma CharsSplit(a: Text, b: Text)
    ensures Chars(a + b) == Chars(a) + Chars(b)
  {}

  /** A cell that is not an escape byte of its own. */
  lemma DecodeCell(x: Cell, rest: string)
    requires x.Cell? ==> x.c != PP_ESC
    ensures Decode(Chars(EncodeCell(x)) + rest)
         == (if x.Cell? && x.c == QG_NULL then [] else CellValue(x)) + Decode(rest)
  {
    var s := Chars(EncodeCell(x)) + rest;
    if x.Datum? {
      assert Chars(EncodeCell(x)) == EscapeByte(x.c);
      DecodeByte(x.c, rest);
    } else {
      assert s[1..] == rest;
    }
  }

  /** Decoding gives the data back and drops the placeholders. */
  lemma {:induction false} DecodeInvertsEncode(t: Text)
    requires Readable(t)
    ensures Decode(Chars(Encode(t))) == Value(t)
  {
    if t != [] {
      assert Readable(t[1..]);
      DecodeInvertsEncode(t[1..]);
      if t[0].Cell? && t[0].c == PP_ESC {
        LastEscape(t);
      } else {
        hide EncodeCell, Byte, Chars, Decode;
        CharsSplit(EncodeCell(t[0]), Encode(t[1..]));
        DecodeCell(t[0], Chars(Encode(t[1..])));
      }
    }
  }

  lemma LastEscape(t: Text)
    requires |t| == 1 && t[0].Cell?
    ensures Decode(Chars(Encode(t))) == (if t[0].c == QG_NULL then [] else [t[0].c]) && Value(t) == [t[0].c]
  {
    assert t[1..] == [] && Encode(t) == t && Chars(t) == [t[0].c] && [t[0].c][1..] == [];
  }

  /** What a byte weighs: a marker more than data, and the placeholder less than the other markers. */
  function Weight(s: string): nat { if s == [] then 0 else ByteWeight(s[0]) + Weight(s[1..]) }

  function ByteWeight(c: char): nat { if !Reserved(c) then 1 else if c == QG_NULL then 2 else 3 }

  lemma {:induction false} WeightSplits(a: string, b: string)
    ensures Weight(a + b) == Weight(a) + Weight(b)
  {
    if a == [] { assert a + b == b; }
    else { assert (a + b)[1..] == a[1..] + b; WeightSplits(a[1..], b); }
  }

  lemma WeightOne(c: char)
    ensures Weight([c]) == ByteWeight(c) && Weight([]) == 0
  {}

  /** What the escape byte makes of the cell behind it. */
  function Taken(g: Cell): string {
    var e := Chars(EncodeCell(g));
    [ClearBit6(e[0])] + e[1..]
  }

  lemma ValueStep(t: Text, k: nat)
    requires k < |t|
    ensures Value(t[k..]) == CellValue(t[k]) + Value(t[k + 1..])
  { assert t[k..][1..] == t[k + 1..]; }

  lemma CellItself(x: Cell)
    requires x.Cell?
    ensures EncodeCell(x) == [x] && Chars([x]) == [x.c] && CellValue(x) == [x.c]
  {}

  lemma EscapedTwo(t: Text)
    requires |t| > 1 && t[0].Cell?
    ensures Chars(Encode(t)) == [t[0].c] + (Chars(EncodeCell(t[1])) + Chars(Encode(t[2..])))
    ensures Value(t) == [t[0].c] + CellValue(t[1]) + Value(t[2..])
  {
    hide Encode, EncodeCell, Chars, Value, CellValue;
    var g, u := t[1], t[2..];
    EncodeStep(t, 0);
    EncodeStep(t, 1);
    ValueStep(t, 0);
    ValueStep(t, 1);
    CellItself(t[0]);
    assert t[0..] == t;
    CharsSplit([t[0]], EncodeCell(g) + Encode(u));
    CharsSplit(EncodeCell(g), Encode(u));
  }

  lemma EscapeDecodes(t: Text)
    requires |t| > 1 && t[0].Cell? && t[0].c == PP_ESC
    ensures Decode(Chars(Encode(t))) == Taken(t[1]) + Decode(Chars(Encode(t[2..])))
  {
    hide Encode, EncodeCell, Chars, Decode, ClearBit6, Value, CellValue;
    EscapedTwo(t);
    EscapedPair(t[1]);
    PairDecodes(Chars(EncodeCell(t[1])), Chars(Encode(t[2..])));
  }

  /** The escape byte takes what is behind it along: bytes get lost or changed. */
  lemma EscapeTakes(t: Text)
    requires |t| > 1 && t[0].Cell? && t[0].c == PP_ESC
    ensures Weight(Decode(Chars(Encode(t)))) + Weight(Value(t[2..]))
          < Weight(Value(t)) + Weight(Decode(Chars(Encode(t[2..]))))
  {
    hide Encode, Value, Decode, Chars, Taken, CellValue, Weight;
    EscapedTwo(t);
    EscapeDecodes(t);
    WeightSplits(Taken(t[1]), Decode(Chars(Encode(t[2..]))));
    WeightSplits([PP_ESC], CellValue(t[1]));
    WeightSplits([PP_ESC] + CellValue(t[1]), Value(t[2..]));
    WeightOne(PP_ESC);
    TakenWeight(t[1]);
  }

  lemma TakenWeight(g: Cell)
    ensures Weight(Taken(g)) < ByteWeight(PP_ESC) + Weight(CellValue(g))
  {
    EscapedPair(g);
    var e := Chars(EncodeCell(g));
    hide EncodeCell, Chars;
    WeightSplits([ClearBit6(e[0])], e[1..]);
    WeightOne(ClearBit6(e[0]));
    WeightOne(Byte(g));
    if |e| == 2 { assert e[1..] == [e[1]]; WeightOne(e[1]); } else { assert e[1..] == []; }
  }

  lemma PairDecodes(e: string, tail: string)
    requires 1 <= |e| <= 2 && (|e| == 2 ==> e[1] != PP_ESC && e[1] != QG_NULL)
    ensures Decode([PP_ESC] + (e + tail)) == [ClearBit6(e[0])] + e[1..] + Decode(tail)
  {
    var s := [PP_ESC] + (e + tail);
    assert Decode(s) == [ClearBit6(e[0])] + Decode(s[2..]);
    hide ClearBit6;
    assert s[2..] == e[1..] + tail;
    if |e| == 1 {
      assert e[1..] == [] && [] + tail == tail;
    } else {
      assert e[1..] == [e[1]] && ([e[1]] + tail)[1..] == tail;
    }
  }

  lemma EscapedPair(g: Cell)
    ensures var e := Chars(EncodeCell(g));
      && 1 <= |e| <= 2 && (|e| == 2 ==> e[1] != PP_ESC && e[1] != QG_NULL)
      && ByteWeight(ClearBit6(e[0])) + (if |e| == 2 then ByteWeight(e[1]) else 0)
         < ByteWeight(PP_ESC) + if g.Placeholder? then 0 else ByteWeight(Byte(g))
  {}

  lemma {:induction false} DecodedWeight(t: Text)
    ensures Weight(Decode(Chars(Encode(t)))) <= Weight(Value(t))
    ensures !Readable(t) ==> Weight(Decode(Chars(Encode(t)))) < Weight(Value(t))
    decreases |t|
  {
    if t == [] {
    } else if t[0].Cell? && t[0].c == PP_ESC {
      if |t| == 1 {
        LastEscape(t);
      } else {
        DecodedWeight(t[2..]);
        EscapeTakes(t);
      }
    } else {
      DecodedWeight(t[1..]);
      ReadableStep(t);
      hide EncodeCell, Chars, Decode, Readable, Weight;
      var rest := Chars(Encode(t[1..]));
      CharsSplit(EncodeCell(t[0]), Encode(t[1..]));
      DecodeCell(t[0], rest);
      WeightSplits([Byte(t[0])], Decode(rest));
      WeightSplits([], Decode(rest));
      WeightSplits(CellValue(t[0]), Value(t[1..]));
      WeightOne(Byte(t[0]));
    }
  }

  lemma ReadableStep(t: Text)
    requires t != [] && (t[0].Cell? ==> t[0].c != PP_ESC)
    ensures Readable(t[1..]) && (t[0].Cell? ==> t[0].c != QG_NULL) ==> Readable(t)
  {
    if !(Readable(t[1..]) && (t[0].Cell? ==> t[0].c != QG_NULL)) { return; }
    forall j | 0 <= j < |t| && t[j].Cell? ensures t[j].c != QG_NULL && (t[j].c == PP_ESC ==> j + 1 == |t|) {
      if j > 0 { assert t[j] == t[1..][j - 1]; }
    }
  }

  /** Exactly the readable fields are read. */
  lemma DecodeExactly(t: Text)
    ensures Decode(Chars(Encode(t))) == Value(t) <==> Readable(t)
  {
    hide Decode, Encode, Value;
    if Readable(t) { DecodeInvertsEncode(t); } else { DecodedWeight(t); }
  }

  /** The words that the shell makes of a text are its fields, exactly if all of these are readable. */
  lemma WordsAreFields(cfg: Config, t: Text)
    requires Encodable(cfg, t) && Separable(cfg, t)
    ensures |DecodeAll(Split(cfg, Encode(t)))| == |Fields(cfg, t)|
    ensures DecodeAll(Split(cfg, Encode(t))) == Values(Fields(cfg, t))
       <==> forall i :: 0 <= i < |Fields(cfg, t)| ==> Readable(Fields(cfg, t)[i])
  {
    hide Decode, Encode, Value, Readable, Split, Fields, Encodable, Separable;
    SplitEncoded(cfg, t);
    SplitIsFields(cfg, t);
    var fs := Fields(cfg, t);
    var ds := DecodeAll(EncodeAll(fs));
    forall i | 0 <= i < |fs| ensures ds[i] == Values(fs)[i] <==> Readable(fs[i]) { DecodeExactly(fs[i]); }
    if ds == Values(fs) { forall i | 0 <= i < |fs| ensures Readable(fs[i]) { assert ds[i] == Values(fs)[i]; } }
  }

  // ----- "$@" ---------------------------------------------------------------------------------

  /** What `"$@"` appends to a word, and the flags it sets. */
  datatype Expansion = Expansion(text: string, boundary: bool, empty: bool)

  /** The positional parameters, escaped, with a boundary between each two. */
  function Join(ps: seq<string>): string {
    if ps == [] then [] else if |ps| == 1 then Escape(ps[0]) else Escape(ps[0]) + [SOH] + Join(ps[1..])
  }

  lemma {:induction false} JoinSnoc(ps: seq<string>, p: string)
    requires ps != []
    ensures Join(ps + [p]) == Join(ps) + [SOH] + Escape(p)
  {
    hide Escape;
    if |ps| > 1 {
      JoinSnoc(ps[1..], p);
      assert (ps + [p])[1..] == ps[1..] + [p];
    } else {
      assert (ps + [p])[1..] == [p];
    }
  }

  /** Reserved bytes are escaped only when boundaries are emitted, or guards. */
  method ExpandAt(ps: seq<string>, guards: bool) returns (x: Expansion)
    ensures x.empty == (ps == []) && x.boundary == (|ps| >= 2)
    ensures x.text == if |ps| == 1 && !guards then ps[0] else Join(ps)
  {
    var out, boundary := "", false;
    var esc := |ps| >= 2 || guards;
    for i := 0 to |ps|
      invariant esc || i <= 1
      invariant out == if i == 1 && !esc then ps[0] else Join(ps[..i])
      invariant boundary == (i >= 2)
    {
      if i > 0 {
        out := out + [SOH];
        boundary := true;
        JoinSnoc(ps[..i], ps[i]);
        assert ps[..i + 1] == ps[..i] + [ps[i]];
      }
      out := out + (if esc then Escape(ps[i]) else ps[i]);
    }
    assert ps[..|ps|] == ps;
    x := Expansion(out, boundary, ps == []);
  }

  function Cut(s: string): seq<string> {
    if SOH !in s then [s] else var k := Index(s); [s[..k]] + Cut(s[k + 1..])
  }

  function Index(s: string): (k: nat)
    requires SOH in s
    ensures k < |s| && s[k] == SOH && SOH !in s[..k]
  {
    if s[0] == SOH then 0
    else
      assert SOH in s[1..];
      1 + Index(s[1..])
  }

  function Decoded(ss: seq<string>): (ds: seq<string>)
    ensures |ds| == |ss|
  { seq(|ss|, i requires 0 <= i < |ss| => Decode(ss[i])) }

  /** The fields of a word that is not split on IFS. */
  method BoundarySplit(x: Expansion) returns (words: seq<string>)
    ensures words == if x.boundary && SOH in x.text then Decoded(Cut(x.text))
                     else if x.empty && x.text == "" then [] else [x.text]
  {
    hide Cut, Decode, Decoded;
    if !x.boundary || SOH !in x.text {
      return if x.empty && x.text == "" then [] else [x.text];
    }
    words := [];
    var tok: nat, cp: nat := 0, 0;
    while cp < |x.text|
      invariant tok <= cp <= |x.text| && SOH !in x.text[tok..cp]
      invariant Decoded(Cut(x.text)) == words + Decoded(Cut(x.text[tok..]))
    {
      if x.text[cp] == SOH {
        CutHere(x.text[tok..], cp - tok);
        assert x.text[tok..][..cp - tok] == x.text[tok..cp] && x.text[tok..][cp - tok + 1..] == x.text[cp + 1..];
        var w := PpDecode(x.text[tok..cp]);
        words := words + [w];
        tok := cp + 1;
      } else {
        assert x.text[tok..cp + 1] == x.text[tok..cp] + [x.text[cp]];
      }
      cp := cp + 1;
    }
    assert x.text[tok..cp] == x.text[tok..];
    CutEnd(x.text[tok..]);
    var w := PpDecode(x.text[tok..]);
    words := words + [w];
  }

  lemma {:induction false} IndexIs(s: string, k: nat)
    requires k < |s| && s[k] == SOH && SOH !in s[..k]
    ensures Index(s) == k
  {
    if k > 0 {
      assert s[..k][0] == s[0];
      assert SOH !in s[1..][..k - 1] by { assert s[1..][..k - 1] == s[..k][1..]; }
      IndexIs(s[1..], k - 1);
    }
  }

  lemma CutEnd(s: string)
    requires SOH !in s
    ensures Decoded(Cut(s)) == [Decode(s)]
  {}

  lemma CutHere(s: string, k: nat)
    requires k < |s| && s[k] == SOH && SOH !in s[..k]
    ensures Decoded(Cut(s)) == [Decode(s[..k])] + Decoded(Cut(s[k + 1..]))
  {
    hide Decode, Index, Cut, Decoded;
    IndexIs(s, k);
    CutStep(s);
    DecodedCons(s[..k], Cut(s[k + 1..]));
  }

  lemma CutStep(s: string)
    ensures SOH in s ==> Cut(s) == [s[..Index(s)]] + Cut(s[Index(s) + 1..])
  { hide Index; }

  lemma DecodedCons(s: string, rest: seq<string>)
    ensures Decoded([s] + rest) == [Decode(s)] + Decoded(rest)
  { hide Decode; }

  lemma EscapedHasNoBoundary(p: string)
    ensures SOH !in Escape(p)
  { EscapedHasNoMarker(p); }

  lemma DecodedEscape(p: string)
    ensures Decode(Escape(p)) == p
  {
    DecodeInvertsEscape(p, []);
    assert Escape(p) + [] == Escape(p) && p + [] == p;
  }

  lemma {:induction false} CutInvertsJoin(ps: seq<string>)
    requires ps != []
    ensures Decoded(Cut(Join(ps))) == ps
  {
    hide Escape, Join, Cut, Decode, Decoded;
    EscapedHasNoBoundary(ps[0]);
    DecodedEscape(ps[0]);
    JoinStep(ps);
    if |ps| > 1 {
      var s, k := Join(ps), |Escape(ps[0])|;
      assert s[..k] == Escape(ps[0]) && s[k] == SOH && s[k + 1..] == Join(ps[1..]);
      CutHere(s, k);
      CutInvertsJoin(ps[1..]);
    } else {
      assert Join(ps) == Escape(ps[0]);
      CutWhole(Join(ps));
    }
  }

  lemma JoinStep(ps: seq<string>)
    ensures ps != [] ==> Join(ps) == Escape(ps[0]) + if |ps| == 1 then [] else [SOH] + Join(ps[1..])
  { hide Escape; }

  lemma CutWhole(s: string)
    requires SOH !in s
    ensures Decoded(Cut(s)) == [Decode(s)]
  { hide Decode; }

  /** `"$@"` expands to exactly the positional parameters, for every list of them: none for none,
      and empty strings and reserved bytes included. */
  method QuotedAt(ps: seq<string>) returns (words: seq<string>)
    ensures words == ps
  {
    var x := ExpandAt(ps, false);
    if |ps| >= 2 {
      CutInvertsJoin(ps);
      assert Join(ps)[|Escape(ps[0])|] == SOH;
    }
    words := BoundarySplit(x);
  }

  function AsCells(s: string, prot: bool): (t: Text)
    ensures |t| == |s|
  { seq(|s|, i requires 0 <= i < |s| => Cell(s[i], prot)) }

  function Quoted(s: string): (t: Text)
    ensures |t| == |s|
  { AsCells(s, true) }

  lemma QuotedSplits(a: string, b: string)
    ensures Quoted(a + b) == Quoted(a) + Quoted(b) && Chars(Quoted(a)) == a
  {}

  lemma QuotedEscape(cfg: Config, p: string)
    ensures forall j :: 0 <= j < |Escape(p)| ==> !Delimits(cfg, Quoted(Escape(p))[j])
    ensures Decode(Chars(Quoted(Escape(p)))) == p
  {
    EscapedHasNoBoundary(p);
    DecodedEscape(p);
    QuotedSplits(Escape(p), []);
  }

  lemma LastParameter(cfg: Config, p: string)
    ensures DecodeAll(SplitFrom(cfg, Quoted(Escape(p)), true)) == [p]
  {
    hide Escape, Decode;
    var t := Quoted(Escape(p));
    QuotedEscape(cfg, p);
    if t != [] {
      DataRunIs(cfg, t, |t|);
      WholeField(cfg, t, true);
      DecodeOne(t, []);
    } else {
      AtEnd(cfg, true);
    }
  }

  /** The same in a word that is split on IFS as well: there the parameters are quoted cells, and
      two or more of them come out as they are whatever IFS is. */
  lemma {:induction false} SplitKeepsParameters(cfg: Config, ps: seq<string>, last: bool)
    requires cfg.bound && ps != [] && (|ps| >= 2 || last)
    ensures DecodeAll(SplitFrom(cfg, Quoted(Join(ps)), last)) == ps
    decreases |ps|
  {
    hide Escape, Decode, SplitFrom, DataRun, Hard, Delimits;
    if |ps| == 1 {
      LastParameter(cfg, ps[0]);
    } else {
      var e, rest := Escape(ps[0]), Quoted(Join(ps[1..]));
      var t := Quoted(Join(ps));
      QuotedSplits(e, [SOH] + Join(ps[1..]));
      assert Join(ps) == e + ([SOH] + Join(ps[1..]));
      assert t[..|e|] == Quoted(e) && t[|e| + 1..] == rest && t[|e|] == Cell(SOH, true);
      QuotedEscape(cfg, ps[0]);
      BoundaryIsHard(cfg, true);
      DataRunIs(cfg, t, |e|);
      SplitHard(cfg, t, |e|, last);
      SplitKeepsParameters(cfg, ps[1..], true);
      DecodeOne(Quoted(e), SplitFrom(cfg, rest, true));
    }
  }

  lemma BoundaryIsHard(cfg: Config, prot: bool)
    requires cfg.bound
    ensures Hard(cfg, Cell(SOH, prot)) && Delimits(cfg, Cell(SOH, prot))
  {}

}
