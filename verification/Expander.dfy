/** The shell at work on a word that will be split: its buffer and flags, and the way from the word's
    parts to its words. */
module WordExpander {
  import opened CStrings
  import opened Markers
  import opened WordFields
  import opened WordEncoding
  import opened WordGuards
  import opened WordPlaceholders
  import opened WordMeaning

  class Expander {
    const env: Env
    var out: string
    var depth: nat          // quote_guard_depth
    var guarded: bool       // at_quote_guard
    var empty: bool         // at_expanded_empty
    var emptyAtOpen: bool   // qg_empty_at_open
    var bounds: bool        // at_field_boundary

    constructor (env: Env)
      ensures this.env == env && out == "" && depth == 0 && !guarded && !empty && !bounds
    {
      this.env, out, depth, guarded, empty, emptyAtOpen, bounds := env, "", 0, false, false, false, false;
    }

    method GuardOpen()
      modifies `out, `depth, `guarded, `emptyAtOpen
      ensures depth == old(depth) + 1
      ensures old(depth) == 0 ==> out == old(out) + [QG_OPEN] && guarded && emptyAtOpen == empty
      ensures old(depth) > 0 ==> out == old(out) && guarded == old(guarded) && emptyAtOpen == old(emptyAtOpen)
    {
      depth := depth + 1;
      if depth == 1 {
        out, guarded, emptyAtOpen := out + [QG_OPEN], true, empty;
      }
    }

    method GuardClose()
      modifies `out, `depth
      ensures depth == if old(depth) > 0 then old(depth) - 1 else 0
      ensures old(depth) != 1 ==> out == old(out)
      ensures old(depth) == 1 ==>
        var s := old(out);
        out == s + (if s != "" && s[|s| - 1] == QG_OPEN && empty == emptyAtOpen then [QG_NULL] else []) + [QG_CLOSE]
    {
      if depth > 0 {
        depth := depth - 1;
        if depth == 0 {
          if out != "" && out[|out| - 1] == QG_OPEN && empty == emptyAtOpen { out := out + [QG_NULL]; }
          out := out + [QG_CLOSE];
        }
      }
    }

    /** `emit_literal_char` outside quotes. */
    method EmitLiteralByte(c: char)
      requires depth == 0
      modifies `out, `depth, `guarded, `emptyAtOpen
      ensures depth == 0 && out == old(out) + LiteralByte(env.ifs, c) && guarded == (old(guarded) || c in env.ifs)
    {
      if c in env.ifs {
        GuardOpen();
        out := out + [c];
        GuardClose();
      } else {
        out := out + [c];
      }
    }

    method EmitLiteral(s: string)
      requires depth == 0
      modifies `out, `depth, `guarded, `emptyAtOpen
      ensures depth == 0 && out == old(out) + Literal(env.ifs, s)
      ensures guarded == (old(guarded) || AnyOf(env.ifs, s))
    {
      hide Literal, LiteralByte, AnyOf;
      AnyOfNothing(env.ifs);
      for i := 0 to |s|
        invariant depth == 0
        invariant guarded == (old(guarded) || AnyOf(env.ifs, s[..i]))
        invariant old(out) + Literal(env.ifs, s) == out + Literal(env.ifs, s[i..])
      {
        AnyOfSnoc(env.ifs, s, i);
        LiteralStep(env.ifs, s, i);
        Assoc(out, LiteralByte(env.ifs, s[i]), Literal(env.ifs, s[i + 1..]));
        EmitLiteralByte(s[i]);
      }
      LiteralEnd(env.ifs, s);
    }

    /** `$@` and `$*` outside quotes. */
    method EmitParams()
      modifies `out, `bounds
      ensures out == old(out) + BareParams(env)
      ensures bounds == (old(bounds) || (env.ifs == "" && |NonEmpty(env.ps)| >= 2))
    {
      if env.ifs != "" {
        out := out + Escape(JoinWith(env.ps, env.ifs[0]));
      } else {
        EmitBounded();
      }
    }

    /** With an empty IFS: boundaries between the parameters that are not empty. */
    method EmitBounded()
      modifies `out, `bounds
      ensures out == old(out) + Join(NonEmpty(env.ps)) && bounds == (old(bounds) || |NonEmpty(env.ps)| >= 2)
    {
      hide Join, Escape, NonEmpty;
      JoinNothing();
      var emitted := 0;
      for i := 0 to |env.ps|
        invariant out == old(out) + Join(NonEmpty(env.ps[..i])) && emitted == |NonEmpty(env.ps[..i])|
        invariant bounds == (old(bounds) || emitted >= 2)
      {
        JoinNonEmpty(env.ps, i);
        if env.ps[i] != "" {
          if emitted > 0 {
            out, bounds := out + [SOH], true;
          }
          out := out + Escape(env.ps[i]);
          emitted := emitted + 1;
        }
      }
      assert env.ps[..|env.ps|] == env.ps;
    }

    method EmitQuoted(a: Atom)
      requires depth > 0
      modifies `out, `empty, `bounds
      ensures out == old(out) + QuotedText(env, a)
      ensures empty == (old(empty) || (a.Params? && env.ps == []))
      ensures bounds == (old(bounds) || (a.Params? && |env.ps| >= 2))
    {
      match a
      case Typed(s) => out := out + s;
      case Result(s) => out := out + Escape(s);
      case Params =>
        var x := ExpandAt(env.ps, true);
        out, empty, bounds := out + x.text, empty || x.empty, bounds || x.boundary;
    }

    /** A quoted region, guards and all. */
    method EmitRegion(atoms: seq<Atom>)
      requires depth == 0
      modifies `out, `depth, `guarded, `empty, `emptyAtOpen, `bounds
      ensures depth == 0 && guarded && out == old(out) + Region(env, atoms, old(empty))
      ensures empty == (old(empty) || NoParams(env, atoms))
      ensures bounds == (old(bounds) || PartBounds(env, Quotes(atoms)))
    {
      hide Content, QuotedText;
      GuardOpen();
      for i := 0 to |atoms|
        invariant depth == 1 && guarded && emptyAtOpen == old(empty)
        invariant empty == (old(empty) || NoParams(env, atoms[..i]))
        invariant bounds == (old(bounds) || PartBounds(env, Quotes(atoms[..i])))
        invariant old(out) + ([QG_OPEN] + Content(env, atoms)) == out + Content(env, atoms[i..])
      {
        ContentStep(env, atoms, i);
        Assoc(out, QuotedText(env, atoms[i]), Content(env, atoms[i + 1..]));
        EmitQuoted(atoms[i]);
        assert atoms[..i + 1] == atoms[..i] + [atoms[i]];
      }
      ContentEnd(env, atoms);
      ghost var s := [QG_OPEN] + Content(env, atoms);
      assert out == old(out) + s && out[|out| - 1] == s[|s| - 1];
      GuardClose();
    }

    method EmitWord(w: Word)
      requires depth == 0
      modifies `out, `depth, `guarded, `empty, `emptyAtOpen, `bounds
      ensures depth == 0 && out == old(out) + Emitted(env, w, old(empty))
      ensures guarded == (old(guarded) || Guarded(env, w))
      ensures bounds == (old(bounds) || Bounds(env, w)) && empty == (old(empty) || AnyEmpty(env, w))
    {
      for i := 0 to |w|
        invariant depth == 0
        invariant guarded == (old(guarded) || exists j :: 0 <= j < i && PartGuards(env, w[j]))
        invariant bounds == (old(bounds) || exists j :: 0 <= j < i && PartBounds(env, w[j]))
        invariant empty == (old(empty) || exists j :: 0 <= j < i && PartEmpty(env, w[j]))
        invariant old(out) + Emitted(env, w, old(empty)) == out + Emitted(env, w[i..], empty)
      {
        EmitPart(w, i);
      }
    }

    method EmitPart(w: Word, i: nat)
      requires depth == 0 && i < |w|
      modifies `out, `depth, `guarded, `empty, `emptyAtOpen, `bounds
      ensures depth == 0 && guarded == (old(guarded) || PartGuards(env, w[i]))
      ensures bounds == (old(bounds) || PartBounds(env, w[i])) && empty == (old(empty) || PartEmpty(env, w[i]))
      ensures old(out) + Emitted(env, w[i..], old(empty)) == out + Emitted(env, w[i + 1..], empty)
    {
      hide Emitted, Region, Literal, Escape, BareParams, AnyOf, NoParams, PartBounds;
      NoBounds(env, w[i]);
      EmittedStep(env, w, i, empty);
      ghost var rest := Emitted(env, w[i + 1..], if w[i].Bare? then empty else empty || NoParams(env, w[i].atoms));
      Assoc(out, if w[i].Bare? then BareText(env, w[i].atom) else Region(env, w[i].atoms, empty), rest);
      match w[i]
      case Bare(a) =>
        match a {
          case Typed(s) => EmitLiteral(s);
          case Result(s) => out := out + Escape(s);
          case Params => EmitParams();
        }
      case Quotes(atoms) => EmitRegion(atoms);
    }
  }

  lemma Assoc(a: string, b: string, c: string)
    ensures a + (b + c) == a + b + c
  {}

  lemma AnyOfNothing(ifs: string)
    ensures !AnyOf(ifs, "")
  {}

  lemma JoinNothing()
    ensures NonEmpty([]) == [] && Join([]) == ""
  {}

  lemma LiteralEnd(ifs: string, s: string)
    ensures s[..|s|] == s && Literal(ifs, s[|s|..]) == ""
  {}

  lemma ContentEnd(env: Env, atoms: seq<Atom>)
    ensures atoms[..|atoms|] == atoms && Content(env, atoms[|atoms|..]) == []
  {}

  lemma NoBounds(env: Env, p: Part)
    ensures p.Bare? && !p.atom.Params? ==> !PartBounds(env, p)
    ensures p.Bare? && p.atom.Params? ==> (PartBounds(env, p) <==> env.ifs == "" && |NonEmpty(env.ps)| >= 2)
  {}

  lemma AnyOfSnoc(ifs: string, s: string, i: nat)
    requires i < |s|
    ensures AnyOf(ifs, s[..i + 1]) <==> AnyOf(ifs, s[..i]) || s[i] in ifs
  { assert s[..i + 1] == s[..i] + [s[i]]; }

  lemma LiteralStep(ifs: string, s: string, i: nat)
    requires i < |s|
    ensures Literal(ifs, s[i..]) == LiteralByte(ifs, s[i]) + Literal(ifs, s[i + 1..])
  { assert s[i..][1..] == s[i + 1..]; }

  lemma {:induction false} NonEmptySplits(a: seq<string>, b: seq<string>)
    ensures NonEmpty(a + b) == NonEmpty(a) + NonEmpty(b)
  {
    if a == [] { assert a + b == b; }
    else { assert (a + b)[1..] == a[1..] + b; NonEmptySplits(a[1..], b); }
  }

  lemma NonEmptySnoc(ps: seq<string>, i: nat)
    requires i < |ps|
    ensures NonEmpty(ps[..i + 1]) == NonEmpty(ps[..i]) + if ps[i] == "" then [] else [ps[i]]
  {
    assert ps[..i + 1] == ps[..i] + [ps[i]];
    NonEmptySplits(ps[..i], [ps[i]]);
  }

  lemma JoinNonEmpty(ps: seq<string>, i: nat)
    requires i < |ps|
    ensures var a, b := NonEmpty(ps[..i]), NonEmpty(ps[..i + 1]);
      if ps[i] == "" then b == a
      else |b| == |a| + 1 && Join(b) == if a == [] then Escape(ps[i]) else Join(a) + [SOH] + Escape(ps[i])
  {
    NonEmptySnoc(ps, i);
    var a := NonEmpty(ps[..i]);
    if a != [] { JoinSnoc(a, ps[i]); } else { assert [] + [ps[i]] == [ps[i]]; }
  }

  lemma ContentStep(env: Env, atoms: seq<Atom>, i: nat)
    requires i < |atoms|
    ensures Content(env, atoms[i..]) == QuotedText(env, atoms[i]) + Content(env, atoms[i + 1..])
  { assert atoms[i..][1..] == atoms[i + 1..]; }

  lemma EmittedStep(env: Env, w: Word, i: nat, empty: bool)
    requires i < |w|
    ensures Emitted(env, w[i..], empty) ==
      if w[i].Bare? then BareText(env, w[i].atom) + Emitted(env, w[i + 1..], empty)
      else Region(env, w[i].atoms, empty) + Emitted(env, w[i + 1..], empty || NoParams(env, w[i].atoms))
  { assert w[i..][1..] == w[i + 1..]; }

  // ----- From the parts to the words ----------------------------------------------------------

  /** The texts are C strings. */
  predicate AtomNoNul(a: Atom) { a.Params? || NoNul(a.text) }

  predicate PartNoNul(p: Part) {
    match p case Bare(a) => AtomNoNul(a) case Quotes(atoms) => forall i :: 0 <= i < |atoms| ==> AtomNoNul(atoms[i])
  }

  predicate WordNoNul(env: Env, w: Word) {
    && NoNul(env.ifs) && (forall i :: 0 <= i < |env.ps| ==> NoNul(env.ps[i]))
    && (forall i :: 0 <= i < |w| ==> PartNoNul(w[i]))
  }

  lemma {:induction false} EscapeNoNul(s: string)
    requires NoNul(s)
    ensures NoNul(Escape(s))
  { if s != [] { EscapeNoNul(s[1..]); } }

  lemma {:induction false} LiteralNoNul(ifs: string, s: string)
    requires NoNul(s)
    ensures NoNul(Literal(ifs, s))
  { if s != [] { LiteralNoNul(ifs, s[1..]); } }

  lemma {:induction false} JoinNoNul(ps: seq<string>)
    requires forall i :: 0 <= i < |ps| ==> NoNul(ps[i])
    ensures NoNul(Join(ps))
  {
    if ps != [] {
      EscapeNoNul(ps[0]);
      hide Escape;
      if |ps| > 1 { JoinNoNul(ps[1..]); }
    }
  }

  lemma {:induction false} JoinWithNoNul(ps: seq<string>, sep: char)
    requires sep != '\0' && forall i :: 0 <= i < |ps| ==> NoNul(ps[i])
    ensures NoNul(JoinWith(ps, sep))
  { if |ps| > 1 { JoinWithNoNul(ps[1..], sep); } }

  lemma {:induction false} NonEmptyNoNul(ps: seq<string>)
    requires forall i :: 0 <= i < |ps| ==> NoNul(ps[i])
    ensures forall i :: 0 <= i < |NonEmpty(ps)| ==> NoNul(NonEmpty(ps)[i])
  { if ps != [] { NonEmptyNoNul(ps[1..]); } }

  lemma BareNoNul(env: Env, a: Atom)
    requires WordNoNul(env, []) && AtomNoNul(a)
    ensures NoNul(BareText(env, a))
  {
    match a
    case Typed(s) => LiteralNoNul(env.ifs, s);
    case Result(s) => EscapeNoNul(s);
    case Params =>
      NonEmptyNoNul(env.ps);
      JoinNoNul(NonEmpty(env.ps));
      if env.ifs != "" {
        assert env.ifs[0] in env.ifs;
        JoinWithNoNul(env.ps, env.ifs[0]);
        EscapeNoNul(JoinWith(env.ps, env.ifs[0]));
      }
  }

  lemma {:induction false} ContentNoNul(env: Env, atoms: seq<Atom>)
    requires WordNoNul(env, []) && PartNoNul(Quotes(atoms))
    ensures NoNul(Content(env, atoms))
  {
    if atoms != [] {
      assert PartNoNul(Quotes(atoms[1..])) && AtomNoNul(atoms[0]);
      ContentNoNul(env, atoms[1..]);
      JoinNoNul(env.ps);
      if !atoms[0].Params? { EscapeNoNul(atoms[0].text); }
    }
  }

  lemma {:induction false} EmittedNoNul(env: Env, w: Word, empty: bool)
    requires WordNoNul(env, w)
    ensures NoNul(Emitted(env, w, empty))
  {
    if w != [] {
      assert PartNoNul(w[0]) && WordNoNul(env, w[1..]);
      hide BareText, Content, AtomNoNul;
      if w[0].Bare? {
        BareNoNul(env, w[0].atom);
        EmittedNoNul(env, w[1..], empty);
      } else {
        ContentNoNul(env, w[0].atoms);
        EmittedNoNul(env, w[1..], empty || NoParams(env, w[0].atoms));
      }
    }
  }

  lemma {:induction false} StripNoNul(s: string, depth: nat)
    requires NoNul(s)
    ensures forall i :: 0 <= i < |Strip(s, depth)| ==> Strip(s, depth)[i].Cell? && Strip(s, depth)[i].c != '\0'
  {
    if s != [] {
      StripNoNul(s[1..],
        if s[0] == QG_OPEN then depth + 1 else if s[0] == QG_CLOSE && depth > 0 then depth - 1 else depth);
    }
  }

  lemma UnstrippedNoNul(s: string)
    requires NoNul(s)
    ensures Cells(s, seq(|s|, _ => false)) == AsCells(s, false)
  {}

  /** The words of a word that is split: what `expand_word_full` does with it, whatever was typed. */
  method ExpandWord(env: Env, w: Word) returns (words: seq<string>)
    requires WordNoNul(env, w)
    ensures words == WordsOf(env, w)
    ensures WordFits(env, w) ==>
      (words == WordsMeant(env, w) <==>
        && NothingLost(env, w)
        && Unharmed(Config(env.ifs, false), CellsKept(env, w, false))
        && Harmless(Config(env.ifs, false), [], WordChunks(env, w, false)))
  {
    hide *;
    var e := new Expander(env);
    e.EmitWord(w);
    StartsEmpty(env, w);
    EmittedNoNul(env, w, false);
    StrippedIs(env, w);
    var plain, prot;
    if e.guarded {
      plain, prot := StripGuards(e.out);
      StripNoNul(e.out, 0);
      PlainNoNul(plain, prot);
    } else {
      UnstrippedNoNul(e.out);
      plain, prot := e.out, seq(|e.out|, _ => false);
      NulIs(plain);
    }
    var s := new Splitter(Config(env.ifs, e.bounds), plain, prot);
    s.Run();
    words := s.fields;
    WordsAre(env, w);
    if WordFits(env, w) { WordsMeantExactly(env, w); }
  }

  lemma NulIs(s: string)
    requires NoNul(s)
    ensures '\0' !in s
  {}

  lemma StrippedIs(env: Env, w: Word)
    ensures Stripped(env, w) ==
      if Guarded(env, w) then Strip(Emitted(env, w, false), 0) else AsCells(Emitted(env, w, false), false)
  {}

  lemma WordsAre(env: Env, w: Word)
    ensures WordsOf(env, w) == DecodeAll(Split(Config(env.ifs, Bounds(env, w)), Stripped(env, w)))
  {}

  lemma StartsEmpty(env: Env, w: Word)
    ensures "" + Emitted(env, w, false) == Emitted(env, w, false)
  {}

  lemma PlainNoNul(plain: string, prot: seq<bool>)
    requires |plain| == |prot|
    requires forall i :: 0 <= i < |plain| ==> Cells(plain, prot)[i].Cell? && Cells(plain, prot)[i].c != '\0'
    ensures '\0' !in plain
  {
    forall i | 0 <= i < |plain| ensures plain[i] != '\0' { assert Cells(plain, prot)[i].c == plain[i]; }
  }
}
