/** `parse_script` behind the lexer: the braces of a script are matched with a stack of 64 entries, and
    branches are resolved. */
module SedCompile {
  import opened Options
  import opened SedMachines

  // ----- Scripts as lists of tokens ---------------------------------------------------------------

  function Flatten(t: Script): (toks: seq<Token>)
    ensures |toks| == Size(t)
  {
    match t
    case End => []
    case One(a, op, rest) => [Act(a, op)] + Flatten(rest)
    case Block(a, body, rest) => [Open(a)] + Flatten(body) + [Close] + Flatten(rest)
  }

  /** `toks` holds `t` from `i` on. */
  predicate Spells(toks: seq<Token>, t: Script, i: nat)
    decreases t
  {
    match t
    case End => i <= |toks|
    case One(a, op, rest) => i < |toks| && toks[i] == Act(a, op) && Spells(toks, rest, i + 1)
    case Block(a, body, rest) =>
      var close := i + 1 + Size(body);
      && close < |toks| && toks[i] == Open(a) && Spells(toks, body, i + 1)
      && toks[close] == Close && Spells(toks, rest, close + 1)
  }

  lemma FlattenStep(t: Script)
    ensures match t
      case End => Flatten(t) == []
      case One(a, op, rest) => Flatten(t) == [Act(a, op)] + Flatten(rest)
      case Block(a, body, rest) => Flatten(t) == [Open(a)] + Flatten(body) + [Close] + Flatten(rest)
  {}

  lemma {:induction false} FlattenSpells(t: Script, toks: seq<Token>, i: nat)
    requires i + Size(t) <= |toks|
    ensures Spells(toks, t, i) <==> toks[i..i + Size(t)] == Flatten(t)
    decreases t
  {
    hide *;
    SizeStep(t);
    FlattenStep(t);
    SpellsStep(toks, t, i);
    match t {
      case End =>
      case One(a, op, rest) =>
        FlattenSpells(rest, toks, i + 1);
        CutsInTwo(toks, i, Act(a, op), Flatten(rest));
      case Block(a, body, rest) =>
        var close := i + 1 + Size(body);
        FlattenSpells(body, toks, i + 1);
        FlattenSpells(rest, toks, close + 1);
        CutsInFour(toks, i, Open(a), Flatten(body), Close, Flatten(rest));
    }
  }

  lemma SpellsStep(toks: seq<Token>, t: Script, i: nat)
    ensures t.End? ==> (Spells(toks, t, i) <==> i <= |toks|)
    ensures t.One? ==> (Spells(toks, t, i) <==> i < |toks| && toks[i] == Act(t.a, t.op) && Spells(toks, t.rest, i + 1))
    ensures t.Block? ==> var close := i + 1 + Size(t.body);
      (Spells(toks, t, i) <==>
        && close < |toks| && toks[i] == Open(t.a) && Spells(toks, t.body, i + 1)
        && toks[close] == Close && Spells(toks, t.rest, close + 1))
  {}

  lemma CutsInTwo(toks: seq<Token>, i: nat, x: Token, d: seq<Token>)
    requires i + 1 + |d| <= |toks|
    ensures toks[i..i + 1 + |d|] == [x] + d <==> toks[i] == x && toks[i + 1..i + 1 + |d|] == d
  {
    var s := toks[i..i + 1 + |d|];
    assert s == [toks[i]] + toks[i + 1..i + 1 + |d|];
    var u := [x] + d;
    assert u[0] == x && u[1..] == d;
    assert s[0] == toks[i] && s[1..] == toks[i + 1..i + 1 + |d|];
  }

  lemma CutsInFour(toks: seq<Token>, i: nat, x: Token, b: seq<Token>, y: Token, d: seq<Token>)
    requires i + 2 + |b| + |d| <= |toks|
    ensures toks[i..i + 2 + |b| + |d|] == [x] + b + [y] + d <==>
      && toks[i] == x && toks[i + 1..i + 1 + |b|] == b
      && toks[i + 1 + |b|] == y && toks[i + 2 + |b|..i + 2 + |b| + |d|] == d
  {
    var s, c := toks[i..i + 2 + |b| + |d|], i + 1 + |b|;
    assert s == [toks[i]] + toks[i + 1..c] + [toks[c]] + toks[c + 1..c + 1 + |d|];
    var u := [x] + b + [y] + d;
    assert u[0] == x && u[1..1 + |b|] == b && u[1 + |b|] == y && u[2 + |b|..] == d;
    assert s[0] == toks[i] && s[1 + |b|] == toks[c];
    assert s[1..1 + |b|] == toks[i + 1..c];
    assert s[2 + |b|..] == toks[c + 1..c + 1 + |d|];
  }

  /** The script from `i` on, up to an unmatched brace; and where it ends. */
  function Parse(toks: seq<Token>, i: nat): (r: (Script, nat))
    requires i <= |toks|
    ensures i <= r.1 <= |toks| && r.1 == i + Size(r.0) && Spells(toks, r.0, i)
    decreases |toks| - i
  {
    hide Spells, Size;
    if i == |toks| || toks[i].Close? then
      SpellsStep(toks, End, i);
      SizeStep(End);
      (End, i)
    else if toks[i].Act? then
      var (t, n) := Parse(toks, i + 1);
      SpellsStep(toks, One(toks[i].a, toks[i].op, t), i);
      SizeStep(One(toks[i].a, toks[i].op, t));
      (One(toks[i].a, toks[i].op, t), n)
    else
      var (body, close) := Parse(toks, i + 1);
      if close == |toks| || !toks[close].Close? then
        SpellsStep(toks, End, i);
        SizeStep(End);
        (End, i)
      else
        var (t, n) := Parse(toks, close + 1);
        SpellsStep(toks, Block(toks[i].a, body, t), i);
        SizeStep(Block(toks[i].a, body, t));
        (Block(toks[i].a, body, t), n)
  }

  // ----- Matching braces --------------------------------------------------------------------------

  datatype Linking = Linked(jumps: seq<Option<nat>>) | UnexpectedClose | UnmatchedOpen

  /** The loop of `parse_script`: `pend` are the blocks that are open; only the first 64 are remembered. */
  function Link(toks: seq<Token>, i: nat, pend: seq<nat>, jumps: seq<Option<nat>>): Linking
    requires i <= |toks| == |jumps| && forall k :: 0 <= k < |pend| ==> pend[k] < |toks|
    decreases |toks| - i
  {
    if i == |toks| then (if pend == [] then Linked(jumps) else UnmatchedOpen)
    else match toks[i]
    case Act(_, _) => Link(toks, i + 1, pend, jumps)
    case Open(_) => Link(toks, i + 1, pend + [i], jumps)
    case Close =>
      if pend == [] then UnexpectedClose else
      var d := |pend| - 1;
      Link(toks, i + 1, pend[..d], if d < 64 then jumps[pend[d] := Some(i)] else jumps)
  }

  /** `jumps` after the blocks of `t`. */
  function Jumps(t: Script, i: nat, d: nat, jumps: seq<Option<nat>>): (r: seq<Option<nat>>)
    requires i + Size(t) <= |jumps|
    ensures |r| == |jumps|
    ensures forall k :: 0 <= k < |jumps| && !(i <= k < i + Size(t)) ==> r[k] == jumps[k]
    decreases t
  {
    match t
    case End => jumps
    case One(_, _, rest) => Jumps(rest, i + 1, d, jumps)
    case Block(_, body, rest) =>
      var close := i + 1 + Size(body);
      var j := Jumps(body, i + 1, d + 1, jumps);
      Jumps(rest, close + 1, d, if d < 64 then j[i := Some(close)] else j)
  }

  lemma SizeStep(t: Script)
    ensures t.End? ==> Size(t) == 0
    ensures t.One? ==> Size(t) == 1 + Size(t.rest)
    ensures t.Block? ==> Size(t) == 2 + Size(t.body) + Size(t.rest)
  {}

  lemma LinkStep(toks: seq<Token>, i: nat, pend: seq<nat>, jumps: seq<Option<nat>>)
    requires i < |toks| == |jumps| && forall k :: 0 <= k < |pend| ==> pend[k] < |toks|
    ensures toks[i].Act? ==> Link(toks, i, pend, jumps) == Link(toks, i + 1, pend, jumps)
    ensures toks[i].Open? ==> Link(toks, i, pend, jumps) == Link(toks, i + 1, pend + [i], jumps)
    ensures toks[i].Close? && pend == [] ==> Link(toks, i, pend, jumps) == UnexpectedClose
    ensures toks[i].Close? && pend != [] ==> var d := |pend| - 1;
      Link(toks, i, pend, jumps) == Link(toks, i + 1, pend[..d], if d < 64 then jumps[pend[d] := Some(i)] else jumps)
  {}

  lemma LinkCloses(toks: seq<Token>, close: nat, pend: seq<nat>, i: nat, jumps: seq<Option<nat>>)
    requires i <= close < |toks| == |jumps| && toks[close].Close? && forall k :: 0 <= k < |pend| ==> pend[k] < |toks|
    ensures Link(toks, close, pend + [i], jumps)
         == Link(toks, close + 1, pend, if |pend| < 64 then jumps[i := Some(close)] else jumps)
  {
    hide Link;
    LinkStep(toks, close, pend + [i], jumps);
    assert (pend + [i])[..|pend|] == pend;
  }

  lemma {:induction false} LinkPasses(toks: seq<Token>, t: Script, i: nat, pend: seq<nat>, jumps: seq<Option<nat>>)
    requires |toks| == |jumps| && i + Size(t) <= |toks| && Spells(toks, t, i)
    requires forall k :: 0 <= k < |pend| ==> pend[k] < |toks|
    ensures Link(toks, i, pend, jumps) == Link(toks, i + Size(t), pend, Jumps(t, i, |pend|, jumps))
    decreases t
  {
    hide *;
    SizeStep(t);
    SpellsStep(toks, t, i);
    JumpsStep(t, i, |pend|, jumps);
    match t {
      case End =>
      case One(_, _, rest) =>
        LinkStep(toks, i, pend, jumps);
        LinkPasses(toks, rest, i + 1, pend, jumps);
      case Block(_, body, rest) =>
        var close := i + 1 + Size(body);
        var j := Jumps(body, i + 1, |pend| + 1, jumps);
        LinkStep(toks, i, pend, jumps);
        LinkPasses(toks, body, i + 1, pend + [i], jumps);
        LinkCloses(toks, close, pend, i, j);
        LinkPasses(toks, rest, close + 1, pend, if |pend| < 64 then j[i := Some(close)] else j);
    }
  }

  lemma JumpsStep(t: Script, i: nat, d: nat, jumps: seq<Option<nat>>)
    requires i + Size(t) <= |jumps|
    ensures t.End? ==> Jumps(t, i, d, jumps) == jumps
    ensures t.One? ==> Jumps(t, i, d, jumps) == Jumps(t.rest, i + 1, d, jumps)
    ensures t.Block? ==>
      var close := i + 1 + Size(t.body);
      var j := Jumps(t.body, i + 1, d + 1, jumps);
      Jumps(t, i, d, jumps) == Jumps(t.rest, close + 1, d, if d < 64 then j[i := Some(close)] else j)
  {}

  predicate Unset(jumps: seq<Option<nat>>, from: nat, to: nat) {
    forall k :: from <= k < to && k < |jumps| ==> jumps[k].None?
  }

  predicate Same(p: seq<Option<nat>>, q: seq<Option<nat>>, from: nat, to: nat) {
    |p| == |q| && forall k :: from <= k < to && k < |p| ==> p[k] == q[k]
  }

  /** What the jumps of a block say about its parts. */
  lemma BlockJumps(t: Script, i: nat, d: nat, jumps: seq<Option<nat>>, r: seq<Option<nat>>)
    requires t.Block? && i + Size(t) <= |jumps| && Unset(jumps, i, i + Size(t))
    requires Same(r, Jumps(t, i, d, jumps), i, i + Size(t))
    ensures var close := i + 1 + Size(t.body);
      var j := Jumps(t.body, i + 1, d + 1, jumps);
      var j1 := if d < 64 then j[i := Some(close)] else j;
      && r[i] == (if d < 64 then Some(close) else None)
      && Unset(jumps, i + 1, close) && Same(r, j, i + 1, close)
      && Unset(j1, close + 1, close + 1 + Size(t.rest))
      && Same(r, Jumps(t.rest, close + 1, d, j1), close + 1, close + 1 + Size(t.rest))
  {
    hide Jumps;
    JumpsStep(t, i, d, jumps);
  }

  predicate Carries(code: seq<Command>, toks: seq<Token>, jumps: seq<Option<nat>>) {
    && |code| == |toks| == |jumps|
    && forall k :: 0 <= k < |code| ==> code[k].tok == toks[k] && (toks[k].Open? ==> code[k].jump == jumps[k])
  }

  lemma PlacedStep(code: seq<Command>, toks: seq<Token>, r: seq<Option<nat>>, t: Script, i: nat, d: nat)
    requires Carries(code, toks, r) && Spells(toks, t, i) && i + Size(t) <= |code| == |r|
    ensures t.End? ==> Placed(code, t, i, d)
    ensures t.One? && Placed(code, t.rest, i + 1, d) ==> Placed(code, t, i, d)
    ensures t.Block? ==>
      var close := i + 1 + Size(t.body);
      ((r[i] == (if d < 64 then Some(close) else None) && Placed(code, t.body, i + 1, d + 1)
        && Placed(code, t.rest, close + 1, d)) ==> Placed(code, t, i, d))
  {}

  lemma OneJumps(t: Script, i: nat, d: nat, jumps: seq<Option<nat>>, r: seq<Option<nat>>)
    requires t.One? && i + Size(t) <= |jumps| && Unset(jumps, i, i + Size(t))
    requires Same(r, Jumps(t, i, d, jumps), i, i + Size(t))
    ensures Unset(jumps, i + 1, i + Size(t)) && Same(r, Jumps(t.rest, i + 1, d, jumps), i + 1, i + Size(t))
  {}

  /** The jumps are as `Placed` wants them. */
  lemma {:induction false} JumpsPlace(t: Script, i: nat, d: nat, jumps: seq<Option<nat>>, toks: seq<Token>,
                                      r: seq<Option<nat>>, code: seq<Command>)
    requires i + Size(t) <= |jumps| == |code| == |r| && Carries(code, toks, r) && Spells(toks, t, i)
    requires Unset(jumps, i, i + Size(t)) && Same(r, Jumps(t, i, d, jumps), i, i + Size(t))
    ensures Placed(code, t, i, d)
    decreases t
  {
    hide *;
    SizeStep(t);
    SpellsStep(toks, t, i);
    PlacedStep(code, toks, r, t, i, d);
    match t {
      case End =>
      case One(_, _, rest) =>
        OneJumps(t, i, d, jumps, r);
        JumpsPlace(rest, i + 1, d, jumps, toks, r, code);
      case Block(_, body, rest) =>
        BlockJumps(t, i, d, jumps, r);
        var close := i + 1 + Size(body);
        var j := Jumps(body, i + 1, d + 1, jumps);
        JumpsPlace(body, i + 1, d + 1, jumps, toks, r, code);
        JumpsPlace(rest, close + 1, d, if d < 64 then j[i := Some(close)] else j, toks, r, code);
    }
  }

  // ----- Which token lists are scripts ------------------------------------------------------------

  lemma ParseStep(toks: seq<Token>, i: nat)
    requires i <= |toks|
    ensures i == |toks| || toks[i].Close? ==> Parse(toks, i) == (End, i)
    ensures i < |toks| && toks[i].Act? ==> Parse(toks, i).1 == Parse(toks, i + 1).1
    ensures i < |toks| && toks[i].Open? ==>
      var close := Parse(toks, i + 1).1;
      Parse(toks, i).1 == if close == |toks| || !toks[close].Close? then i else Parse(toks, close + 1).1
  {}

  predicate Stuck(toks: seq<Token>, n: nat)
    requires n < |toks|
  {
    toks[n].Close? || (toks[n].Open? && (Parse(toks, n + 1).1 == |toks| || !toks[Parse(toks, n + 1).1].Close?))
  }

  /** The reading stops at the end, at a `}`, or at a `{` whose block does not end. */
  lemma {:induction false} ParseStops(toks: seq<Token>, i: nat)
    requires i <= |toks|
    ensures Parse(toks, i).1 < |toks| ==> Stuck(toks, Parse(toks, i).1)
    decreases |toks| - i
  {
    hide Spells;
    ParseStep(toks, i);
    if i < |toks| && !toks[i].Close? {
      ParseStops(toks, i + 1);
      var close := Parse(toks, i + 1).1;
      if toks[i].Open? && close < |toks| && toks[close].Close? { ParseStops(toks, close + 1); }
    }
  }

  function NoJumps(n: nat): seq<Option<nat>> { seq(n, i => None) }

  lemma {:induction false} LinkVerdict(toks: seq<Token>, i: nat, pend: seq<nat>, jumps: seq<Option<nat>>)
    requires i <= |toks| == |jumps| && forall k :: 0 <= k < |pend| ==> pend[k] < |toks|
    ensures var (t, n) := Parse(toks, i); var r := Link(toks, i, pend, jumps);
      && (n == |toks| ==> r == if pend == [] then Linked(Jumps(t, i, 0, jumps)) else UnmatchedOpen)
      && (n < |toks| && toks[n].Close? && pend == [] ==> r == UnexpectedClose)
      && (n < |toks| && toks[n].Open? ==> r == UnmatchedOpen)
    decreases |toks| - i
  {
    hide Parse, Link, Jumps, Spells;
    var (t, n) := Parse(toks, i);
    ParseFacts(toks, i);
    LinkPasses(toks, t, i, pend, jumps);
    var j := Jumps(t, i, |pend|, jumps);
    if n == |toks| {
      LinkEnds(toks, pend, j);
    } else {
      LinkStep(toks, n, pend, j);
      if toks[n].Open? {
        ParseStops(toks, i);
        ParseStops(toks, n + 1);
        LinkVerdict(toks, n + 1, pend + [n], j);
      }
    }
  }

  /** Which brace is wrong: the one at which the reading stops. */
  lemma BraceErrors(toks: seq<Token>)
    ensures var n := Parse(toks, 0).1; var r := Link(toks, 0, [], NoJumps(|toks|));
      && (r == UnexpectedClose <==> n < |toks| && toks[n].Close?)
      && (r == UnmatchedOpen <==> n < |toks| && toks[n].Open?)
  {
    hide Parse, Link, Jumps, Spells, NoJumps;
    NoJumpsUnset(|toks|);
    ParseStops(toks, 0);
    if Parse(toks, 0).1 < |toks| { StuckCases(toks, Parse(toks, 0).1); }
    LinkVerdict(toks, 0, [], NoJumps(|toks|));
  }

  lemma ParseFacts(toks: seq<Token>, i: nat)
    requires i <= |toks|
    ensures var (t, n) := Parse(toks, i); n == i + Size(t) <= |toks| && Spells(toks, t, i)
  {}

  lemma LinkEnds(toks: seq<Token>, pend: seq<nat>, jumps: seq<Option<nat>>)
    requires |toks| == |jumps| && forall k :: 0 <= k < |pend| ==> pend[k] < |toks|
    ensures Link(toks, |toks|, pend, jumps) == if pend == [] then Linked(jumps) else UnmatchedOpen
  {}

  /** The braces match exactly if the tokens are those of a script with nested blocks. */
  lemma LinkedIffScript(toks: seq<Token>)
    ensures Link(toks, 0, [], NoJumps(|toks|)).Linked? <==> exists t :: toks == Flatten(t)
  {
    hide *;
    NoJumpsUnset(|toks|);
    var (t, n) := Parse(toks, 0);
    ParseFacts(toks, 0);
    ParseStops(toks, 0);
    StuckCases(toks, n);
    LinkVerdict(toks, 0, [], NoJumps(|toks|));
    if n == |toks| {
      FlattenSpells(t, toks, 0);
      assert toks[0..n] == toks;
    }
    forall u | toks == Flatten(u) ensures Link(toks, 0, [], NoJumps(|toks|)).Linked? { ScriptLinks(u); }
  }

  lemma StuckCases(toks: seq<Token>, n: nat)
    ensures n < |toks| && Stuck(toks, n) ==> toks[n].Close? || toks[n].Open?
  {}

  lemma ScriptLinks(t: Script)
    ensures var toks := Flatten(t);
      Link(toks, 0, [], NoJumps(|toks|)) == Linked(Jumps(t, 0, 0, NoJumps(|toks|)))
  {
    hide *;
    var toks := Flatten(t);
    FlattenSize(t);
    NoJumpsUnset(|toks|);
    assert toks[0..Size(t)] == toks;
    FlattenSpells(t, toks, 0);
    LinkPasses(toks, t, 0, [], NoJumps(|toks|));
    LinkEnds(toks, [], Jumps(t, 0, 0, NoJumps(|toks|)));
  }

  lemma FlattenSize(t: Script)
    ensures |Flatten(t)| == Size(t)
  {}

  /** What the jumps make of a script. */
  lemma ScriptPlaced(t: Script, code: seq<Command>, jumps: seq<Option<nat>>)
    requires Link(Flatten(t), 0, [], NoJumps(|Flatten(t)|)) == Linked(jumps) && Carries(code, Flatten(t), jumps)
    ensures Placed(code, t, 0, 0) && |code| == Size(t)
  {
    hide *;
    var toks := Flatten(t);
    FlattenSize(t);
    NoJumpsUnset(|toks|);
    ScriptLinks(t);
    CarriesSizes(code, toks, jumps);
    assert toks[0..Size(t)] == toks;
    FlattenSpells(t, toks, 0);
    SameSelf(jumps, 0, Size(t));
    JumpsPlace(t, 0, 0, NoJumps(|toks|), toks, jumps, code);
  }

  lemma CarriesSizes(code: seq<Command>, toks: seq<Token>, jumps: seq<Option<nat>>)
    requires Carries(code, toks, jumps)
    ensures |code| == |toks| == |jumps|
  {}

  lemma SameSelf(jumps: seq<Option<nat>>, from: nat, to: nat)
    ensures Same(jumps, jumps, from, to)
  {}

  predicate ForwardIn(code: seq<Command>, from: nat, to: nat) {
    forall i :: from <= i < to && i < |code| ==>
      (code[i].tok.Open? && code[i].jump.Some? ==> i < code[i].jump.value < |code|)
  }

  lemma {:induction false} PlacedForward(t: Script, code: seq<Command>, i: nat, d: nat)
    requires Placed(code, t, i, d)
    ensures ForwardIn(code, i, i + Size(t))
    decreases t
  {
    match t {
      case End =>
      case One(_, _, rest) => PlacedForward(rest, code, i + 1, d);
      case Block(_, body, rest) =>
        PlacedForward(body, code, i + 1, d + 1);
        PlacedForward(rest, code, i + 2 + Size(body), d);
    }
  }

  lemma NoJumpsUnset(n: nat)
    ensures |NoJumps(n)| == n && Unset(NoJumps(n), 0, n)
  {}

  // ----- How deep blocks may be nested ------------------------------------------------------------

  lemma {:induction false} LegalTokens(t: Script)
    requires LegalScript(t)
    ensures AllLegal(Flatten(t))
    decreases t
  {
    match t {
      case End =>
      case One(_, _, rest) => LegalTokens(rest);
      case Block(_, body, rest) =>
        LegalTokens(body);
        LegalTokens(rest);
    }
  }

  /** Every script has a list that it is compiled to, its branches unresolved. */
  lemma Compilable(t: Script) returns (code: seq<Command>)
    requires LegalScript(t)
    ensures Placed(code, t, 0, 0) && |code| == Size(t) && Forward(code)
  {
    var toks := Flatten(t);
    var jumps := Jumps(t, 0, 0, NoJumps(|toks|));
    code := seq(|toks|, i requires 0 <= i < |toks| => Command(toks[i], jumps[i]));
    LegalTokens(t);
    hide Flatten, Placed, Size, Jumps, Link, NoJumps, LegalToken;
    ScriptLinks(t);
    ScriptPlaced(t, code, jumps);
    PlacedForward(t, code, 0, 0);
  }

  /** Each script with at most `k` blocks inside each other makes the same pass over a record as the
      list it is compiled to. */
  ghost predicate SameUpTo(env: Env, k: nat)
    requires Sound(env)
  {
    forall t, code, m ::
      LegalScript(t) && Forward(code) && Placed(code, t, 0, 0) && |code| == Size(t) && Depth(t) <= k ==>
        Segment(env, code, 0, m) == Run(env, t, 0, m)
  }

  /** 64 is the exact bound. */
  lemma DepthBound(env: Env, k: nat)
    requires Sound(env)
    ensures SameUpTo(env, k) <==> k <= 64
  {
    hide Segment, Run, Placed, Size, Depth, LegalScript, Forward;
    if k <= 64 {
      forall t, code, m |
        LegalScript(t) && Forward(code) && Placed(code, t, 0, 0) && |code| == Size(t) && Depth(t) <= k
        ensures Segment(env, code, 0, m) == Run(env, t, 0, m)
      {
        SegmentRuns(env, t, code, 0, 0, m);
        SegmentEnds(env, code, |code|);
      }
    } else {
      NestShape(64);
      var code := Compilable(Nest(64));
      var m := START.(linenum := 1);
      NestingLimit(env, 64, code, m);
    }
  }

  // ----- The parser -------------------------------------------------------------------------------

  predicate AllLegal(toks: seq<Token>) { forall k :: 0 <= k < |toks| ==> LegalToken(toks[k]) }

  function BranchLabel(k: Token): string {
    if k.Act? && k.op.Branch? then k.op.l
    else if k.Act? && k.op.BranchIf? then k.op.l
    else if k.Act? && k.op.BranchUnless? then k.op.l
    else ""
  }

  predicate IsLabel(k: Token, l: string) { k.Act? && k.op == Label(l) }

  lemma {:induction false} FirstLabelSame(code: seq<Command>, code1: seq<Command>, l: string, i: nat)
    requires i <= |code| == |code1| && forall k :: 0 <= k < |code| ==> code[k].tok == code1[k].tok
    ensures FirstLabel(code, l, i) == FirstLabel(code1, l, i)
    decreases |code| - i
  { if i < |code| { FirstLabelSame(code, code1, l, i + 1); } }

  lemma {:induction false} LabelMissing(code: seq<Command>, l: string, i: nat)
    requires i <= |code| && FirstLabel(code, l, i) == |code|
    ensures forall k :: i <= k < |code| ==> !IsLabel(code[k].tok, l)
    decreases |code| - i
  { if i < |code| { LabelMissing(code, l, i + 1); } }

  lemma LinkedCode(toks: seq<Token>, code: seq<Command>, jumps: seq<Option<nat>>)
    requires Link(toks, 0, [], NoJumps(|toks|)) == Linked(jumps) && |code| == |toks| == |jumps|
    requires forall k :: 0 <= k < |code| ==> code[k].tok == toks[k] && LegalToken(toks[k])
    requires forall k :: 0 <= k < |code| && BranchLabel(toks[k]) == "" ==> code[k].jump == jumps[k]
    ensures Forward(code)
    ensures forall t :: toks == Flatten(t) ==> Placed(code, t, 0, 0) && |code| == Size(t)
  {
    hide Link, Flatten, Placed, Size, NoJumps;
    assert Carries(code, toks, jumps);
    LinkedIffScript(toks);
    var u :| toks == Flatten(u);
    ScriptPlaced(u, code, jumps);
    PlacedForward(u, code, 0, 0);
    forall t | toks == Flatten(t) ensures Placed(code, t, 0, 0) && |code| == Size(t) { ScriptPlaced(t, code, jumps); }
  }

  /** Branches lead to the first label of their name. */
  predicate Resolved(code: seq<Command>, n: nat) {
    forall i :: 0 <= i < n && i < |code| && BranchLabel(code[i].tok) != "" ==>
      && FirstLabel(code, BranchLabel(code[i].tok), 0) < |code|
      && code[i].jump == Some(FirstLabel(code, BranchLabel(code[i].tok), 0))
  }

  datatype Parsed = Compiled(code: seq<Command>) | UnexpectedBrace | UnmatchedBrace | NoLabel(l: string)

  class Parser {
    const toks: seq<Token>
    const cmds: array<Command>
    const stack: array<nat>

    constructor (toks: seq<Token>)
      ensures this.toks == toks && cmds.Length == |toks| && stack.Length == 64
      ensures fresh(cmds) && fresh(stack) && cmds != stack as object
    {
      this.toks := toks;
      cmds := new Command[|toks|](_ => Command(Close, None));
      stack := new nat[64](_ => 0);
    }

    ghost predicate Holds(n: nat, jumps: seq<Option<nat>>)
      reads this, cmds
    {
      && n <= cmds.Length == |toks| == |jumps|
      && (forall k :: 0 <= k < n ==> cmds[k] == Command(toks[k], jumps[k]))
      && (forall k :: n <= k < cmds.Length ==> jumps[k].None?)
    }

    ghost predicate Stacked(pend: seq<nat>, n: nat)
      reads this, stack
    {
      && stack.Length == 64
      && (forall k :: 0 <= k < |pend| ==> pend[k] < n)
      && (forall k :: 0 <= k < |pend| && k < 64 ==> stack[k] == pend[k])
    }

    /** The loop over the script: commands are appended, and a `}` sets the jump of its `{`. */
    method LinkBlocks() returns (error: Option<Parsed>, ghost jumps: seq<Option<nat>>)
      requires cmds.Length == |toks| && stack.Length == 64 && cmds != stack as object
      modifies cmds, stack
      ensures var r := Link(toks, 0, [], NoJumps(|toks|));
        match r
        case UnexpectedClose => error == Some(UnexpectedBrace)
        case UnmatchedOpen => error == Some(UnmatchedBrace)
        case Linked(j) => error == None && jumps == j && Holds(|toks|, j)
    {
      hide Link;
      var i, depth: nat := 0, 0;
      ghost var pend: seq<nat> := [];
      jumps := NoJumps(|toks|);
      NoJumpsUnset(|toks|);
      while i < |toks|
        invariant i <= |toks| == |jumps| && depth == |pend| && Holds(i, jumps) && Stacked(pend, i)
        invariant Link(toks, i, pend, jumps) == Link(toks, 0, [], NoJumps(|toks|))
      {
        LinkStep(toks, i, pend, jumps);
        cmds[i] := Command(toks[i], None);
        match toks[i] {
          case Open(_) =>
            if depth < 64 { stack[depth] := i; }
            depth := depth + 1;
            pend := pend + [i];
          case Close =>
            if depth == 0 { return Some(UnexpectedBrace), jumps; }
            depth := depth - 1;
            if depth < 64 {
              cmds[stack[depth]] := cmds[stack[depth]].(jump := Some(i));
              jumps := jumps[pend[depth] := Some(i)];
            }
            pend := pend[..depth];
          case Act(_, _) =>
        }
        i := i + 1;
      }
      LinkEnds(toks, pend, jumps);
      error := if depth > 0 then Some(UnmatchedBrace) else None;
    }

    /** The targets of branches. */
    method ResolveBranches() returns (missing: Option<string>)
      modifies cmds
      ensures forall k :: 0 <= k < cmds.Length ==> cmds[k].tok == old(cmds[k].tok)
      ensures forall k :: 0 <= k < cmds.Length && BranchLabel(cmds[k].tok) == "" ==> cmds[k] == old(cmds[k])
      ensures missing.None? ==> Resolved(cmds[..], cmds.Length)
      ensures missing.Some? ==> missing.value != "" && FirstLabel(cmds[..], missing.value, 0) == cmds.Length
      ensures missing.Some? ==> exists k :: 0 <= k < cmds.Length && BranchLabel(cmds[k].tok) == missing.value
    {
      ghost var code := cmds[..];
      var i := 0;
      while i < cmds.Length
        invariant 0 <= i <= cmds.Length
        invariant forall k :: 0 <= k < cmds.Length ==> cmds[k].tok == code[k].tok
        invariant forall k :: 0 <= k < cmds.Length && (k >= i || BranchLabel(code[k].tok) == "") ==> cmds[k] == code[k]
        invariant forall k :: 0 <= k < i && BranchLabel(code[k].tok) != "" ==>
          var dest := FirstLabel(code, BranchLabel(code[k].tok), 0); dest < |code| && cmds[k].jump == Some(dest)
      {
        var l := BranchLabel(cmds[i].tok);
        if l != "" {
          var dest := 0;
          while dest < cmds.Length && !IsLabel(cmds[dest].tok, l)
            invariant 0 <= dest <= cmds.Length && FirstLabel(code, l, dest) == FirstLabel(code, l, 0)
          { dest := dest + 1; }
          if dest == cmds.Length {
            FirstLabelSame(code, cmds[..], l, 0);
            return Some(l);
          }
          cmds[i] := cmds[i].(jump := Some(dest));
        }
        i := i + 1;
      }
      forall l ensures FirstLabel(cmds[..], l, 0) == FirstLabel(code, l, 0) { FirstLabelSame(code, cmds[..], l, 0); }
      missing := None;
    }

    /** `parse_script`. */
    method ParseScript() returns (r: Parsed)
      requires cmds.Length == |toks| && stack.Length == 64 && cmds != stack as object
      requires AllLegal(toks)
      modifies cmds, stack
      ensures r.UnexpectedBrace? || r.UnmatchedBrace? <==> forall t :: toks != Flatten(t)
      ensures var n := Parse(toks, 0).1;
        && (r.UnexpectedBrace? <==> n < |toks| && toks[n].Close?)
        && (r.UnmatchedBrace? <==> n < |toks| && toks[n].Open?)
      ensures forall t :: r.Compiled? && toks == Flatten(t) ==> Placed(r.code, t, 0, 0) && |r.code| == Size(t)
      ensures r.Compiled? ==> Forward(r.code) && Resolved(r.code, |r.code|) && |r.code| == |toks|
      ensures r.NoLabel? ==> r.l != "" && exists k :: 0 <= k < |toks| && BranchLabel(toks[k]) == r.l
      ensures r.NoLabel? ==> forall k :: 0 <= k < |toks| ==> !IsLabel(toks[k], r.l)
    {
      hide Link, Parse, Flatten, Placed, Size, Forward, Resolved, FirstLabel, BranchLabel, IsLabel, NoJumps;
      var error, jumps := LinkBlocks();
      LinkedIffScript(toks);
      BraceErrors(toks);
      if error.Some? { return error.value; }
      label linked:
      var missing := ResolveBranches();
      if missing.Some? {
        LabelMissing(cmds[..], missing.value, 0);
        assert forall k :: 0 <= k < |toks| ==> cmds[..][k].tok == toks[k];
        return NoLabel(missing.value);
      }
      var code := cmds[..];
      LinkedCode(toks, code, jumps);
      r := Compiled(code);
    }
  }
}
