/** The quote-aware scanners of the shell: where a `${...}` ends, where a double-quoted region ends
    for the scanner that skips it, and where it ends for the expander that walks it.

    Each scanner is a loop over a cursor and a function that says where the cursor goes. */
module Scanners {
  import opened CStrings

  predicate SpecialVar(c: char) {
    c == '@' || c == '*' || c == '#' || c == '?' || c == '-' || c == '$' || c == '!' || c == '0'
  }

  // ----- The constructs inside ----------------------------------------------------------------

  /** Up to the next `c`. */
  function RunTo(s: string, p: nat, c: char): (q: nat)
    requires p <= |s|
    ensures p <= q <= |s| && (q < |s| ==> s[q] == c)
    decreases |s| - p
  { if p == |s| || s[p] == c then p else RunTo(s, p + 1, c) }

  /** Past the closing byte, if there is one. */
  function Past(s: string, p: nat, c: char): (q: nat)
    requires p <= |s|
    ensures p <= q <= |s|
  { if At(s, p) == c && p < |s| then p + 1 else p }

  /** Up to the next `c` that no backslash escapes: inside backquotes and inside the double quotes of
      a command. */
  function EscapedRunTo(s: string, p: nat, c: char): (q: nat)
    requires p <= |s|
    ensures p <= q <= |s| && (q < |s| ==> s[q] == c)
    decreases |s| - p
  {
    if p == |s| || s[p] == c then p
    else if s[p] == '\\' && p + 1 < |s| then EscapedRunTo(s, p + 2, c)
    else EscapedRunTo(s, p + 1, c)
  }

  /** Past the parenthesis that brings the depth of `$((...))` to zero. */
  function ParensEnd(s: string, p: nat, d: nat): (q: nat)
    requires p <= |s|
    ensures p <= q <= |s|
    decreases |s| - p
  {
    if p == |s| || d == 0 then p
    else ParensEnd(s, p + 1, if s[p] == '(' then d + 1 else if s[p] == ')' then d - 1 else d)
  }

  /** The scan of a command substitution: parentheses, and whether it is inside `case ... esac`,
      which it tells from the words at command position. */
  datatype Command = Command(depth: nat, prev: char, cases: nat, kw: string, atCmd: bool, wordCmd: bool)

  const COMMAND_START := Command(1, '(', 0, "", true, false)

  function Word(m: Command, c: char): (r: Command)
    ensures r.depth == m.depth && r.prev == m.prev
  {
    if NameStart(c) then
      var w := if m.kw == "" then m.atCmd else m.wordCmd;
      if |m.kw| < 7 then m.(kw := m.kw + [c], wordCmd := w) else m.(wordCmd := false)
    else
      var cases := if m.kw == "case" && m.wordCmd then m.cases + 1
                   else if m.kw == "esac" && m.wordCmd && m.cases > 0 then m.cases - 1 else m.cases;
      var at := if m.kw != "" then false else m.atCmd;
      m.(kw := "", cases := cases,
         atCmd := if c in ";\n&|(" then true else if c != ' ' && c != '\t' then false else at)
  }

  function CommandEnd(s: string, p: nat, m0: Command): (q: nat)
    requires p <= |s|
    ensures p <= q <= |s|
    decreases |s| - p
  {
    if p == |s| || m0.depth == 0 then p else
    var c := s[p];
    var m := Word(m0, c);
    if c == '#' && m.prev in " \t\n(;&|" then CommandEnd(s, RunTo(s, p + 1, '\n'), m.(prev := '#')) else
    var n := m.(prev := c);
    if c == '\\' then CommandEnd(s, if p + 1 < |s| then p + 2 else p + 1, n)
    else if c == '\'' then CommandEnd(s, Past(s, RunTo(s, p + 1, c), c), n)
    else if c == '"' then CommandEnd(s, Past(s, EscapedRunTo(s, p + 1, c), c), n)
    else if c == '(' && n.cases == 0 then CommandEnd(s, p + 1, n.(depth := n.depth + 1))
    else if c == ')' && n.cases == 0 then (if n.depth == 1 then p else CommandEnd(s, p + 1, n.(depth := n.depth - 1)))
    else CommandEnd(s, p + 1, n)
  }

  // ----- Where ${...} ends --------------------------------------------------------------------

  /** Where `$...` at `p` is over: `$((...))`, `$(...)` and `${...}` are skipped whole. */
  function DollarEnd(s: string, p: nat): (q: nat)
    requires p < |s| && s[p] == '$'
    ensures p < q <= |s|
    decreases |s| - p, 0
  {
    if At(s, p + 1) == '{' then Past(s, Braced(s, p + 2, false), '}')
    else if At(s, p + 1) == '(' && At(s, p + 2) == '(' then ParensEnd(s, p + 3, 2)
    else if At(s, p + 1) == '(' then Past(s, CommandEnd(s, p + 2, COMMAND_START), ')')
    else p + 1
  }

  /** `scan_braced_end`, `dq` being `inner_dq`: the closing brace, or the end of the string. */
  function Braced(s: string, p: nat, dq: bool): (q: nat)
    requires p <= |s|
    ensures p <= q <= |s|
    decreases |s| - p, 1
  {
    if p == |s| then p
    else if s[p] == '\\' then Braced(s, if p + 1 < |s| then p + 2 else p + 1, dq)
    else if s[p] == '\'' && !dq then Braced(s, Past(s, RunTo(s, p + 1, '\''), '\''), dq)
    else if s[p] == '"' then Braced(s, p + 1, !dq)
    else if s[p] == '$' then Braced(s, DollarEnd(s, p), dq)
    else if s[p] == '`' then Braced(s, Past(s, EscapedRunTo(s, p + 1, '`'), '`'), dq)
    else if s[p] == '}' && !dq then p
    else Braced(s, p + 1, dq)
  }

  // ----- Where "..." ends ---------------------------------------------------------------------

  /** `skip_dquote_end`: past the closing quote, or the end of the string. */
  function SkipQuoted(s: string, p: nat): (q: nat)
    requires p <= |s|
    ensures p <= q <= |s|
    decreases |s| - p
  {
    if p == |s| then p
    else if s[p] == '"' then p + 1
    else if s[p] == '\\' then SkipQuoted(s, if p + 1 < |s| then p + 2 else p + 1)
    else if s[p] == '$' then SkipQuoted(s, DollarEnd(s, p))
    else if s[p] == '`' then SkipQuoted(s, Past(s, EscapedRunTo(s, p + 1, '`'), '`'))
    else SkipQuoted(s, p + 1)
  }

  /** What one turn of `expand_into` consumes at the `$` at `p`, variables included. */
  function ExpandDollar(s: string, p: nat): (q: nat)
    requires p < |s| && s[p] == '$'
    ensures p < q <= |s|
  {
    var c := At(s, p + 1);
    if p + 1 == |s| then p + 1
    else if c == '(' || c == '{' then DollarEnd(s, p)
    else if c == '@' || c == '*' || SpecialVar(c) then p + 2
    else if NameStart(c) then NameEnd(s, p + 1)
    else if Digit(c) then p + 2
    else p + 1
  }

  /** Where the walk of `expand_into` over a double-quoted region stops: at the closing quote, or at
      the end of the string. */
  function WalkQuoted(s: string, p: nat): (q: nat)
    requires p <= |s|
    ensures p <= q <= |s|
    decreases |s| - p
  {
    if p == |s| || s[p] == '"' then p
    else if s[p] == '\\' then (if p + 1 == |s| then p + 1 else WalkQuoted(s, p + 2))
    else if s[p] == '$' then WalkQuoted(s, ExpandDollar(s, p))
    else if s[p] == '`' then WalkQuoted(s, Past(s, EscapedRunTo(s, p + 1, '`'), '`'))
    else WalkQuoted(s, p + 1)
  }

  /** The walk comes to a `$$` with `{` or `(` behind it. */
  predicate MeetsPidBrace(s: string, p: nat)
    requires p <= |s|
    decreases |s| - p
  {
    if p == |s| || s[p] == '"' then false
    else if s[p] == '\\' then p + 1 < |s| && MeetsPidBrace(s, p + 2)
    else if s[p] == '$' then
      (At(s, p + 1) == '$' && (At(s, p + 2) == '{' || At(s, p + 2) == '(')) || MeetsPidBrace(s, ExpandDollar(s, p))
    else if s[p] == '`' then MeetsPidBrace(s, Past(s, EscapedRunTo(s, p + 1, '`'), '`'))
    else MeetsPidBrace(s, p + 1)
  }

  lemma {:induction false} SkipNames(s: string, p: nat, q: nat)
    requires p <= q <= |s| && forall j :: p <= j < q ==> NameChar(s[j])
    ensures SkipQuoted(s, p) == SkipQuoted(s, q)
    decreases q - p
  { if p < q { SkipNames(s, p + 1, q); } }

  /** The skipper passes by what the expander consumes as a variable. */
  lemma SkipDollar(s: string, p: nat)
    requires p < |s| && s[p] == '$' && NoNul(s)
    requires !(At(s, p + 1) == '$' && (At(s, p + 2) == '{' || At(s, p + 2) == '('))
    ensures SkipQuoted(s, p) == SkipQuoted(s, ExpandDollar(s, p))
  {
    var c := At(s, p + 1);
    if p + 1 < |s| && c != '(' && c != '{' {
      if c == '$' {
        assert DollarEnd(s, p + 1) == p + 2;
      } else if NameStart(c) {
        SkipNames(s, p + 1, NameEnd(s, p + 1));
      }
    }
  }

  /** The two agree: the expander stops exactly at the quote that the skipper steps past. */
  lemma {:induction false} ScannersAgree(s: string, p: nat)
    requires p <= |s| && NoNul(s) && !MeetsPidBrace(s, p)
    ensures SkipQuoted(s, p) == if WalkQuoted(s, p) < |s| then WalkQuoted(s, p) + 1 else |s|
    decreases |s| - p
  {
    if p < |s| && s[p] != '"' {
      if s[p] == '\\' {
        if p + 1 < |s| { ScannersAgree(s, p + 2); }
      } else if s[p] == '$' {
        SkipDollar(s, p);
        ScannersAgree(s, ExpandDollar(s, p));
      } else if s[p] == '`' {
        ScannersAgree(s, Past(s, EscapedRunTo(s, p + 1, '`'), '`'));
      } else {
        ScannersAgree(s, p + 1);
      }
    }
  }

  /** The region that stops the walk ends at a quote, or the string does. */
  lemma {:induction false} WalkStopsAtQuote(s: string, p: nat)
    requires p <= |s|
    ensures WalkQuoted(s, p) < |s| ==> s[WalkQuoted(s, p)] == '"'
    decreases |s| - p
  {
    if p < |s| && s[p] != '"' {
      if s[p] == '\\' { if p + 1 < |s| { WalkStopsAtQuote(s, p + 2); } }
      else if s[p] == '$' { WalkStopsAtQuote(s, ExpandDollar(s, p)); }
      else if s[p] == '`' { WalkStopsAtQuote(s, Past(s, EscapedRunTo(s, p + 1, '`'), '`')); }
      else { WalkStopsAtQuote(s, p + 1); }
    }
  }

  // ----- Where the two disagree ---------------------------------------------------------------

  /** Past the quote at `q`, if the string goes on there. */
  function After(s: string, q: nat): nat { if q < |s| then q + 1 else |s| }

  predicate Agree(s: string, p: nat)
    requires p <= |s|
  { SkipQuoted(s, p) == After(s, WalkQuoted(s, p)) }

  /** The first `$$` before `{` or `(` that the walk comes to. */
  function FirstPid(s: string, p: nat): (f: nat)
    requires p <= |s| && MeetsPidBrace(s, p)
    ensures p <= f && f + 2 < |s| && s[f] == '$' && s[f + 1] == '$' && (s[f + 2] == '{' || s[f + 2] == '(')
    decreases |s| - p
  {
    if s[p] == '\\' then FirstPid(s, p + 2)
    else if s[p] == '$' then
      (if At(s, p + 1) == '$' && (At(s, p + 2) == '{' || At(s, p + 2) == '(') then p
       else FirstPid(s, ExpandDollar(s, p)))
    else if s[p] == '`' then FirstPid(s, Past(s, EscapedRunTo(s, p + 1, '`'), '`'))
    else FirstPid(s, p + 1)
  }

  /** Where the next turn of the walk begins. */
  function Turn(s: string, p: nat): (q: nat)
    requires p < |s|
    ensures p < q <= |s|
  {
    if s[p] == '\\' then (if p + 1 == |s| then p + 1 else p + 2)
    else if s[p] == '$' then ExpandDollar(s, p)
    else if s[p] == '`' then Past(s, EscapedRunTo(s, p + 1, '`'), '`')
    else p + 1
  }

  predicate PidBraceAt(s: string, p: nat) {
    At(s, p) == '$' && At(s, p + 1) == '$' && (At(s, p + 2) == '{' || At(s, p + 2) == '(')
  }

  lemma SkipTurn(s: string, p: nat)
    requires p < |s| && s[p] != '"' && !PidBraceAt(s, p) && NoNul(s)
    ensures SkipQuoted(s, p) == SkipQuoted(s, Turn(s, p))
  {
    if s[p] == '$' { SkipDollar(s, p); }
  }

  lemma WalkTurn(s: string, p: nat)
    requires p < |s| && s[p] != '"' && !PidBraceAt(s, p) && MeetsPidBrace(s, p)
    ensures WalkQuoted(s, p) == WalkQuoted(s, Turn(s, p))
    ensures MeetsPidBrace(s, Turn(s, p)) && FirstPid(s, p) == FirstPid(s, Turn(s, p))
  { hide DollarEnd, EscapedRunTo, ExpandDollar, Past; }

  lemma AtFirstPid(s: string, p: nat)
    requires p <= |s| && MeetsPidBrace(s, p)
    ensures p < |s| && s[p] != '"' && (PidBraceAt(s, p) ==> FirstPid(s, p) == p)
  { hide DollarEnd, EscapedRunTo, ExpandDollar, Past; }

  /** Up to there the two go together; there the expander reads `$$`, and the skipper goes past the
      construct that begins with the second `$`. */
  lemma {:induction false} ToFirstPid(s: string, p: nat)
    requires p <= |s| && NoNul(s) && MeetsPidBrace(s, p)
    ensures var f := FirstPid(s, p);
      SkipQuoted(s, p) == SkipQuoted(s, DollarEnd(s, f + 1)) && WalkQuoted(s, p) == WalkQuoted(s, f + 2)
    decreases |s| - p
  {
    hide SkipQuoted, WalkQuoted, MeetsPidBrace, FirstPid, DollarEnd, Turn, PidBraceAt;
    AtFirstPid(s, p);
    if PidBraceAt(s, p) {
      AtPid(s, p);
    } else {
      SkipTurn(s, p);
      WalkTurn(s, p);
      ToFirstPid(s, Turn(s, p));
    }
  }

  lemma AtPid(s: string, f: nat)
    requires f + 2 < |s| && s[f] == '$' && s[f + 1] == '$'
    ensures SkipQuoted(s, f) == SkipQuoted(s, DollarEnd(s, f + 1)) && WalkQuoted(s, f) == WalkQuoted(s, f + 2)
  {
    assert DollarEnd(s, f) == f + 1 && ExpandDollar(s, f) == f + 2;
  }

  /** When the two agree.  Behind the last `$$` of that kind it is a question to the skipper alone. */
  lemma ScannersAgreeExactly(s: string, p: nat)
    requires p <= |s| && NoNul(s)
    ensures Agree(s, p) <==>
      (MeetsPidBrace(s, p) ==>
        var f := FirstPid(s, p); SkipQuoted(s, DollarEnd(s, f + 1)) == After(s, WalkQuoted(s, f + 2)))
    ensures MeetsPidBrace(s, p) && !MeetsPidBrace(s, FirstPid(s, p) + 2) ==>
      var f := FirstPid(s, p); Agree(s, p) <==> SkipQuoted(s, DollarEnd(s, f + 1)) == SkipQuoted(s, f + 2)
  {
    hide SkipQuoted, WalkQuoted, MeetsPidBrace, FirstPid, DollarEnd;
    if MeetsPidBrace(s, p) {
      ToFirstPid(s, p);
      if !MeetsPidBrace(s, FirstPid(s, p) + 2) { ScannersAgree(s, FirstPid(s, p) + 2); }
    } else {
      ScannersAgree(s, p);
    }
  }

  lemma SkipMoves(s: string, p: nat)
    requires p < |s|
    ensures SkipQuoted(s, p) > p
  {}

  /** When the walk meets a quote inside the construct that the skipper goes past, they agree only if
      the string ends with that quote and the construct has no end. */
  lemma QuoteInside(s: string, p: nat)
    requires p <= |s| && NoNul(s) && MeetsPidBrace(s, p)
    requires WalkQuoted(s, FirstPid(s, p) + 2) < DollarEnd(s, FirstPid(s, p) + 1)
    ensures Agree(s, p) <==> WalkQuoted(s, FirstPid(s, p) + 2) + 1 == DollarEnd(s, FirstPid(s, p) + 1) == |s|
  {
    hide SkipQuoted, WalkQuoted, MeetsPidBrace, FirstPid, DollarEnd;
    ToFirstPid(s, p);
    var q := DollarEnd(s, FirstPid(s, p) + 1);
    if q < |s| { SkipMoves(s, q); } else { assert SkipQuoted(s, q) == q; }
  }

  /** A byte at which the walk of a quoted region does more than go on. */
  predicate Special(c: char) { c == '"' || c == '\\' || c == '$' || c == '`' }

  lemma {:induction false} WalkOn(s: string, p: nat, q: nat)
    requires p <= q <= |s| && forall j :: p <= j < q ==> !Special(s[j])
    ensures WalkQuoted(s, p) == WalkQuoted(s, q)
    decreases q - p
  { if p < q { WalkOn(s, p + 1, q); } }

  /** When nothing special is inside the construct, they are together again behind it. */
  lemma PlainInside(s: string, p: nat)
    requires p <= |s| && NoNul(s) && MeetsPidBrace(s, p)
    requires var f := FirstPid(s, p); forall j :: f + 2 <= j < DollarEnd(s, f + 1) ==> !Special(s[j])
    ensures Agree(s, p) <==> Agree(s, DollarEnd(s, FirstPid(s, p) + 1))
  {
    hide SkipQuoted, WalkQuoted, MeetsPidBrace, FirstPid, DollarEnd;
    ToFirstPid(s, p);
    var f := FirstPid(s, p);
    assert DollarEnd(s, f + 1) >= f + 2;
    WalkOn(s, f + 2, DollarEnd(s, f + 1));
  }

  lemma TurnWalks(s: string, p: nat)
    requires p < |s| && s[p] != '"'
    ensures WalkQuoted(s, p) == WalkQuoted(s, Turn(s, p))
  { hide DollarEnd, EscapedRunTo, ExpandDollar, Past; }

  /** Where the walk from `p` is when it has come to `q` or beyond, or to a quote before. */
  function WalkTo(s: string, p: nat, q: nat): (r: nat)
    requires p <= |s| && q <= |s|
    ensures p <= r <= |s| && (r < q ==> s[r] == '"')
    decreases |s| - p
  { if p >= q || s[p] == '"' then p else WalkTo(s, Turn(s, p), q) }

  lemma {:induction false} WalkToWalks(s: string, p: nat, q: nat)
    requires p <= |s| && q <= |s|
    ensures WalkQuoted(s, p) == WalkQuoted(s, WalkTo(s, p, q))
    decreases |s| - p
  {
    hide WalkQuoted, Turn;
    if p < q && s[p] != '"' {
      TurnWalks(s, p);
      WalkToWalks(s, Turn(s, p), q);
    }
  }

  /** From each construct that follows a `$$` the walk comes to its end, or to a quote inside; it does not
      run over the end in a backquote, an escape or a construct of its own. */
  predicate Simple(s: string, p: nat)
    requires p <= |s|
    decreases |s| - p
  {
    MeetsPidBrace(s, p) ==>
      var f := FirstPid(s, p);
      var q := DollarEnd(s, f + 1);
      var k := WalkTo(s, f + 2, q);
      k < q || (k == q && Simple(s, q))
  }

  /** It does not come to a quote inside, but for one that ends the string. */
  predicate QuotesOutside(s: string, p: nat)
    requires p <= |s|
    decreases |s| - p
  {
    MeetsPidBrace(s, p) ==>
      var f := FirstPid(s, p);
      var q := DollarEnd(s, f + 1);
      var k := WalkTo(s, f + 2, q);
      if k < q then k + 1 == q == |s| else QuotesOutside(s, q)
  }

  /** For such strings that is exactly when the two agree. */
  lemma {:induction false} SimpleExactly(s: string, p: nat)
    requires p <= |s| && NoNul(s) && Simple(s, p)
    ensures Agree(s, p) <==> QuotesOutside(s, p)
    decreases |s| - p
  {
    hide SkipQuoted, WalkQuoted, MeetsPidBrace, FirstPid, DollarEnd, WalkTo;
    if MeetsPidBrace(s, p) {
      var f := FirstPid(s, p);
      var q := DollarEnd(s, f + 1);
      var k := WalkTo(s, f + 2, q);
      WalkToWalks(s, f + 2, q);
      if k < q {
        WalkStops(s, k);
        QuoteInside(s, p);
      } else {
        ToFirstPid(s, p);
        SimpleExactly(s, q);
      }
    } else {
      ScannersAgree(s, p);
    }
  }

  /** One turn of the skipper. */
  function SkipOn(s: string, p: nat): (q: nat)
    requires p < |s|
    ensures p < q <= |s|
  {
    if s[p] == '\\' then (if p + 1 < |s| then p + 2 else p + 1)
    else if s[p] == '$' then DollarEnd(s, p)
    else if s[p] == '`' then Past(s, EscapedRunTo(s, p + 1, '`'), '`')
    else p + 1
  }

  lemma SkipOnSkips(s: string, p: nat)
    requires p < |s| && s[p] != '"'
    ensures SkipQuoted(s, p) == SkipQuoted(s, SkipOn(s, p))
  { hide DollarEnd, EscapedRunTo, Past; }

  /** The skipper being at `i` and the expander at `j`: the one that is behind goes on.  They are in step if
      they come together and part at no `$$`, and out of step if one meets a quote behind the other. */
  predicate InStep(s: string, i: nat, j: nat)
    requires i <= |s| && j <= |s|
    decreases 2 * |s| - i - j
  {
    if i == j then
      MeetsPidBrace(s, i) ==> var f := FirstPid(s, i); InStep(s, DollarEnd(s, f + 1), f + 2)
    else if i < j then
      (if s[i] == '"' then i + 1 == |s| else InStep(s, SkipOn(s, i), j))
    else
      (if s[j] == '"' then j + 1 == i == |s| else InStep(s, i, Turn(s, j)))
  }

  /** For all strings, that is exactly when the two agree. */
  lemma {:induction false} InStepExactly(s: string, i: nat, j: nat)
    requires i <= |s| && j <= |s| && NoNul(s)
    ensures SkipQuoted(s, i) == After(s, WalkQuoted(s, j)) <==> InStep(s, i, j)
    decreases 2 * |s| - i - j
  {
    hide SkipQuoted, WalkQuoted, MeetsPidBrace, FirstPid, DollarEnd, SkipOn, Turn;
    if i == j {
      if MeetsPidBrace(s, i) {
        ToFirstPid(s, i);
        InStepExactly(s, DollarEnd(s, FirstPid(s, i) + 1), FirstPid(s, i) + 2);
      } else {
        ScannersAgree(s, i);
      }
    } else if i < j {
      if s[i] == '"' {
        SkipStops(s, i);
      } else {
        SkipOnSkips(s, i);
        InStepExactly(s, SkipOn(s, i), j);
      }
    } else if s[j] == '"' {
      WalkStops(s, j);
      if i < |s| { SkipMoves(s, i); } else { SkipEnds(s); }
    } else {
      TurnWalks(s, j);
      InStepExactly(s, i, Turn(s, j));
    }
  }

  lemma SkipStops(s: string, k: nat)
    requires k < |s| && s[k] == '"'
    ensures SkipQuoted(s, k) == k + 1
  {}

  lemma SkipEnds(s: string)
    ensures SkipQuoted(s, |s|) == |s|
  {}

  lemma WalkStops(s: string, k: nat)
    requires k < |s| && s[k] == '"'
    ensures WalkQuoted(s, k) == k
  {}

  /** The expander reads `$$` and a brace, the skipper `${` and its word. */
  lemma PidBraceDisagrees()
    ensures var s := "$${x\"}\""; MeetsPidBrace(s, 0) && WalkQuoted(s, 0) == 4 && SkipQuoted(s, 0) == 7
  {
    var s := "$${x\"}\"";
    assert Braced(s, 6, true) == 7;
    assert Braced(s, 5, true) == 7;
    assert Braced(s, 4, false) == 7;
    assert Braced(s, 3, false) == 7;
    assert DollarEnd(s, 1) == 7;
    assert SkipQuoted(s, 1) == 7;
    assert WalkQuoted(s, 3) == 4;
  }

  /** The same without the quote inside: they agree. */
  lemma PidBraceAgrees()
    ensures var s := "$${x}\""; MeetsPidBrace(s, 0) && WalkQuoted(s, 0) == 5 && SkipQuoted(s, 0) == 6
  {
    var s := "$${x}\"";
    assert Braced(s, 4, false) == 4;
    assert Braced(s, 3, false) == 4;
    assert DollarEnd(s, 1) == 5;
    assert SkipQuoted(s, 1) == 6;
    assert WalkQuoted(s, 4) == 5;
    assert WalkQuoted(s, 3) == 5;
  }

  // ----- Printing a ${...} body ---------------------------------------------------------------

  datatype Items = Nil | Cons(head: Item, tail: Items)

  datatype Item =
    | Lit(c: char)
    | Esc(c: char)
    | Single(text: string)
    | Double(inside: Items)
    | Tick(parts: seq<TickPart>)
    | Nested(body: Items)
    | Arith(text: string)

  /** Inside backquotes: a byte, or an escaped one. */
  datatype TickPart = TickPart(c: char, escaped: bool)

  function TickText(parts: seq<TickPart>): string {
    if parts == [] then []
    else (if parts[0].escaped then ['\\', parts[0].c] else [parts[0].c]) + TickText(parts[1..])
  }

  function Print(items: Items): string
    decreases items, 1
  { match items case Nil => [] case Cons(x, rest) => PrintItem(x) + Print(rest) }

  function PrintItem(x: Item): (t: string)
    ensures t != []
    decreases x, 0
  {
    match x
    case Lit(c) => [c]
    case Esc(c) => ['\\', c]
    case Single(t) => ['\''] + (t + ['\''])
    case Double(inside) => ['"'] + (Print(inside) + ['"'])
    case Tick(parts) => ['`'] + (TickText(parts) + ['`'])
    case Nested(body) => ['$', '{'] + (Print(body) + ['}'])
    case Arith(t) => ['$', '(', '('] + (t + [')', ')'])
  }

  /** The depth of `$((...))` after `t`, if no prefix of `t` closes it. */
  function Depth(t: string, d: nat): nat {
    if t == [] || d == 0 then d
    else Depth(t[1..], if t[0] == '(' then d + 1 else if t[0] == ')' then d - 1 else d)
  }

  /** Items that may stand in a body, or (`dq`) in a double-quoted part of one; `next` is the byte
      behind them.  A literal `$` must not run into `{` or `(`. */
  predicate Fits(items: Items, dq: bool, next: char) {
    match items
    case Nil => true
    case Cons(x, rest) =>
      Fits(rest, dq, next) && FitsItem(x, dq, if rest.Nil? then next else Print(rest)[0])
  }

  predicate FitsItem(x: Item, dq: bool, next: char) {
    match x
    case Lit(c) =>
      && c != '\0' && c != '\\' && c != '"' && c != '`'
      && (!dq ==> c != '\'' && c != '}')
      && (c == '$' ==> next != '{' && next != '(')
    case Esc(c) => true
    case Single(t) => !dq && '\'' !in t
    case Double(inside) => !dq && Fits(inside, true, '"')
    case Tick(parts) => forall k :: 0 <= k < |parts| && !parts[k].escaped ==> parts[k].c != '`' && parts[k].c != '\\'
    case Nested(body) => Fits(body, false, '}')
    case Arith(t) => Depth(t, 2) == 2
  }

  lemma {:induction false} RunsTo(s: string, p: nat, t: string, c: char)
    requires Has(s, p, t) && c !in t && At(s, p + |t|) == c && p + |t| < |s|
    ensures RunTo(s, p, c) == p + |t|
    decreases |t|
  {
    if t != [] {
      HasAt(s, p, t, 0);
      assert t == t[..1] + t[1..];
      HasSplit(s, p, t[..1], t[1..]);
      RunsTo(s, p + 1, t[1..], c);
    }
  }

  lemma EscapedStep(s: string, p: nat, escaped: bool)
    requires p < |s| && s[p] != '`' && (escaped ==> s[p] == '\\' && p + 1 < |s|) && (!escaped ==> s[p] != '\\')
    ensures EscapedRunTo(s, p, '`') == EscapedRunTo(s, if escaped then p + 2 else p + 1, '`')
  {}

  lemma TickNothing(s: string, p: nat)
    requires Has(s, p, TickText([]))
    ensures p <= |s| && (At(s, p) == '`' ==> EscapedRunTo(s, p, '`') == p)
  {}

  lemma {:induction false} TickRuns(s: string, p: nat, parts: seq<TickPart>)
    requires Has(s, p, TickText(parts)) && FitsItem(Tick(parts), false, ' ')
    ensures p + |TickText(parts)| <= |s|
    ensures At(s, p + |TickText(parts)|) == '`' ==> EscapedRunTo(s, p, '`') == p + |TickText(parts)|
    decreases |parts|
  {
    if parts == [] {
      TickNothing(s, p);
    } else {
      var h := if parts[0].escaped then ['\\', parts[0].c] else [parts[0].c];
      assert TickText(parts) == h + TickText(parts[1..]) && h[0] != '`';
      hide Has, TickText, EscapedRunTo;
      HasSplit(s, p, h, TickText(parts[1..]));
      HasAt(s, p, h, 0);
      TickRuns(s, p + |h|, parts[1..]);
      EscapedStep(s, p, parts[0].escaped);
    }
  }

  lemma {:induction false} ParensRun(s: string, p: nat, t: string, d: nat)
    requires Has(s, p, t) && d > 0 && Depth(t, d) > 0
    ensures p + |t| <= |s| && ParensEnd(s, p, d) == ParensEnd(s, p + |t|, Depth(t, d))
    decreases |t|
  {
    if t != [] {
      HasAt(s, p, t, 0);
      assert t == t[..1] + t[1..];
      HasSplit(s, p, t[..1], t[1..]);
      ParensRun(s, p + 1, t[1..], if t[0] == '(' then d + 1 else if t[0] == ')' then d - 1 else d);
    }
  }

  lemma PrintNothing(s: string, p: nat)
    requires p <= |s|
    ensures Print(Nil) == "" && Has(s, p, "")
  {}

  /** The scan passes over printed items and is then where it would be without them. */
  lemma {:induction false} ScanPasses(items: Items, dq: bool, s: string, p: nat)
    requires Has(s, p, Print(items)) && p + |Print(items)| < |s| && Fits(items, dq, s[p + |Print(items)|])
    ensures Braced(s, p, dq) == Braced(s, p + |Print(items)|, dq)
    decreases items, 2
  {
    hide Braced, PrintItem, FitsItem, Has;
    PrintNothing(s, p);
    if items.Cons? {
      var x, rest := items.head, items.tail;
      HasSplit(s, p, PrintItem(x), Print(rest));
      var q := p + |PrintItem(x)|;
      if rest.Cons? { HasAt(s, q, Print(rest), 0); }
      ScanPassesItem(x, dq, s, p);
      ScanPasses(rest, dq, s, q);
    }
  }

  lemma {:induction false} ScanPassesItem(x: Item, dq: bool, s: string, p: nat)
    requires Has(s, p, PrintItem(x)) && p + |PrintItem(x)| < |s| && FitsItem(x, dq, s[p + |PrintItem(x)|])
    ensures Braced(s, p, dq) == Braced(s, p + |PrintItem(x)|, dq)
    decreases x, 1
  {
    hide Has, Braced, Print, Depth, TickText, Fits;
    match x
    case Lit(c) => PassesLit(c, dq, s, p);
    case Esc(c) => PassesEsc(c, dq, s, p);
    case Single(t) => PassesSingle(t, s, p);
    case Double(inside) => PassesDouble(inside, s, p);
    case Tick(parts) => PassesTick(parts, dq, s, p);
    case Nested(body) => PassesNested(body, dq, s, p);
    case Arith(t) => PassesArith(t, dq, s, p);
  }

  lemma PassesLit(c: char, dq: bool, s: string, p: nat)
    requires Has(s, p, [c]) && p + 1 < |s| && FitsItem(Lit(c), dq, s[p + 1])
    ensures Braced(s, p, dq) == Braced(s, p + 1, dq)
  { HasAt(s, p, [c], 0); }

  lemma PassesEsc(c: char, dq: bool, s: string, p: nat)
    requires Has(s, p, ['\\', c])
    ensures p + 2 <= |s| && Braced(s, p, dq) == Braced(s, p + 2, dq)
  { HasAt(s, p, ['\\', c], 0); HasAt(s, p, ['\\', c], 1); }

  /** Text between an opening and a closing token. */
  lemma Between(s: string, p: nat, o: string, t: string, c: string)
    requires Has(s, p, o + (t + c))
    ensures p + |o| + |t| + |c| <= |s| && Has(s, p, o) && Has(s, p + |o|, t) && Has(s, p + |o| + |t|, c)
    ensures forall k :: 0 <= k < |o| ==> s[p + k] == o[k]
    ensures forall k :: 0 <= k < |c| ==> s[p + |o| + |t| + k] == c[k]
  {
    HasSplit(s, p, o, t + c);
    HasSplit(s, p + |o|, t, c);
    forall k | 0 <= k < |o| ensures s[p + k] == o[k] { HasAt(s, p, o, k); }
    forall k | 0 <= k < |c| ensures s[p + |o| + |t| + k] == c[k] { HasAt(s, p + |o| + |t|, c, k); }
  }

  lemma PassesSingle(t: string, s: string, p: nat)
    requires Has(s, p, ['\''] + (t + ['\''])) && '\'' !in t
    ensures p + |t| + 2 <= |s| && Braced(s, p, false) == Braced(s, p + |t| + 2, false)
  {
    hide Has;
    var q := ['\''];
    Between(s, p, q, t, q);
    assert s[p] == q[0] && s[p + 1 + |t| + 0] == q[0];
    RunsTo(s, p + 1, t, '\'');
  }

  lemma {:induction false} PassesDouble(inside: Items, s: string, p: nat)
    requires Has(s, p, ['"'] + (Print(inside) + ['"'])) && Fits(inside, true, '"')
    ensures p + |Print(inside)| + 2 <= |s| && Braced(s, p, false) == Braced(s, p + |Print(inside)| + 2, false)
    decreases inside, 3
  {
    hide Has, Fits, Print;
    var q := ['"'];
    Between(s, p, q, Print(inside), q);
    assert s[p] == q[0] && s[p + 1 + |Print(inside)| + 0] == q[0];
    ScanPasses(inside, true, s, p + 1);
  }

  lemma PassesTick(parts: seq<TickPart>, dq: bool, s: string, p: nat)
    requires Has(s, p, ['`'] + (TickText(parts) + ['`'])) && FitsItem(Tick(parts), dq, ' ')
    ensures p + |TickText(parts)| + 2 <= |s| && Braced(s, p, dq) == Braced(s, p + |TickText(parts)| + 2, dq)
  {
    hide Has, TickText;
    var q := ['`'];
    Between(s, p, q, TickText(parts), q);
    assert s[p] == q[0] && s[p + 1 + |TickText(parts)| + 0] == q[0];
    TickRuns(s, p + 1, parts);
  }

  lemma {:induction false} PassesNested(body: Items, dq: bool, s: string, p: nat)
    requires Has(s, p, ['$', '{'] + (Print(body) + ['}'])) && Fits(body, false, '}')
    ensures p + |Print(body)| + 3 <= |s| && Braced(s, p, dq) == Braced(s, p + |Print(body)| + 3, dq)
    decreases body, 3
  {
    hide Has, Fits, Print;
    var o, c := ['$', '{'], ['}'];
    Between(s, p, o, Print(body), c);
    var e := p + 2 + |Print(body)|;
    assert s[p + 0] == o[0] && s[p + 1] == o[1] && s[e + 0] == c[0];
    ScanPasses(body, false, s, p + 2);
    assert Braced(s, e, false) == e;
    assert DollarEnd(s, p) == e + 1;
  }

  lemma PassesArith(t: string, dq: bool, s: string, p: nat)
    requires Has(s, p, ['$', '(', '('] + (t + [')', ')'])) && Depth(t, 2) == 2
    ensures p + |t| + 5 <= |s| && Braced(s, p, dq) == Braced(s, p + |t| + 5, dq)
  {
    hide Has, Depth;
    var o, c := ['$', '(', '('], [')', ')'];
    Between(s, p, o, t, c);
    var e := p + 3 + |t|;
    assert s[p + 0] == o[0] && s[p + 1] == o[1] && s[p + 2] == o[2] && s[e + 0] == c[0] && s[e + 1] == c[1];
    ParensRun(s, p + 3, t, 2);
    assert ParensEnd(s, e + 1, 1) == ParensEnd(s, e + 2, 0) == e + 2;
    assert DollarEnd(s, p) == e + 2;
  }

  /** The scanner inverts printing: behind a printed body and `}`, whatever comes next, it returns
      exactly the position of that `}`. */
  lemma ScannerInvertsPrinting(items: Items, suffix: string)
    requires Fits(items, false, '}')
    ensures Braced(Print(items) + "}" + suffix, 0, false) == |Print(items)|
  {
    var n := |Print(items)|;
    var s := Print(items) + "}" + suffix;
    assert s[0..n] == Print(items) && s[n] == '}';
    ScanPasses(items, false, s, 0);
  }

  // ----- The loops ----------------------------------------------------------------------------

  method FindByte(s: string, p0: nat, c: char) returns (p: nat)
    requires p0 <= |s|
    ensures p == RunTo(s, p0, c)
  {
    p := p0;
    while p < |s| && s[p] != c
      invariant p <= |s| && RunTo(s, p, c) == RunTo(s, p0, c)
    {
      p := p + 1;
    }
  }

  method FindUnescaped(s: string, p0: nat, c: char) returns (p: nat)
    requires p0 <= |s|
    ensures p == EscapedRunTo(s, p0, c)
  {
    p := p0;
    while p < |s| && s[p] != c
      invariant p <= |s| && EscapedRunTo(s, p, c) == EscapedRunTo(s, p0, c)
    {
      p := if s[p] == '\\' && p + 1 < |s| then p + 2 else p + 1;
    }
  }

  method SkipParens(s: string, p0: nat) returns (p: nat)
    requires p0 <= |s|
    ensures p == ParensEnd(s, p0, 2)
  {
    p := p0;
    var d: nat := 2;
    while p < |s| && d > 0
      invariant p <= |s| && ParensEnd(s, p, d) == ParensEnd(s, p0, 2)
    {
      if s[p] == '(' { d := d + 1; } else if s[p] == ')' { d := d - 1; }
      p := p + 1;
    }
  }

  /** `cmdsubst_body_end`. */
  method CmdsubstBodyEnd(s: string, p0: nat) returns (p: nat)
    requires p0 <= |s|
    ensures p == CommandEnd(s, p0, COMMAND_START)
  {
    hide Word, EscapedRunTo, RunTo, CommandEnd;
    p := p0;
    var m := COMMAND_START;
    while p < |s| && m.depth > 0
      invariant p <= |s| && CommandEnd(s, p, m) == CommandEnd(s, p0, COMMAND_START)
      decreases |s| - p
    {
      CommandTurn(s, p, m);
      var c := s[p];
      m := Word(m, c);
      if c == '#' && m.prev in " \t\n(;&|" {
        p := FindByte(s, p + 1, '\n');
        m := m.(prev := '#');
        continue;
      }
      m := m.(prev := c);
      if c == '\\' {
        p := if p + 1 < |s| then p + 2 else p + 1;
      } else if c == '\'' {
        p := FindByte(s, p + 1, c);
        if p < |s| { p := p + 1; }
      } else if c == '"' {
        p := FindUnescaped(s, p + 1, c);
        if p < |s| { p := p + 1; }
      } else {
        if c == '(' && m.cases == 0 { m := m.(depth := m.depth + 1); }
        if c == ')' && m.cases == 0 {
          if m.depth == 1 { return; }
          m := m.(depth := m.depth - 1);
        }
        p := p + 1;
      }
    }
    CommandOver(s, p, m);
  }

  lemma CommandOver(s: string, p: nat, m: Command)
    requires p <= |s| && (p == |s| || m.depth == 0)
    ensures CommandEnd(s, p, m) == p
  {}

  lemma CommandTurn(s: string, p: nat, m0: Command)
    requires p < |s| && m0.depth > 0
    ensures
      var c, m := s[p], Word(m0, s[p]);
      var n := m.(prev := c);
      CommandEnd(s, p, m0) ==
        if c == '#' && m.prev in " \t\n(;&|" then CommandEnd(s, RunTo(s, p + 1, '\n'), m.(prev := '#'))
        else if c == '\\' then CommandEnd(s, if p + 1 < |s| then p + 2 else p + 1, n)
        else if c == '\'' then CommandEnd(s, Past(s, RunTo(s, p + 1, c), c), n)
        else if c == '"' then CommandEnd(s, Past(s, EscapedRunTo(s, p + 1, c), c), n)
        else if c == '(' && n.cases == 0 then CommandEnd(s, p + 1, n.(depth := n.depth + 1))
        else if c == ')' && n.cases == 0 then
          (if n.depth == 1 then p else CommandEnd(s, p + 1, n.(depth := n.depth - 1)))
        else CommandEnd(s, p + 1, n)
  { hide Word, EscapedRunTo, RunTo, Past; }

  /** The `$` cases that the three scanners share. */
  method SkipDollarConstruct(s: string, p0: nat) returns (p: nat)
    requires p0 < |s| && s[p0] == '$'
    ensures p == DollarEnd(s, p0)
    decreases |s| - p0, 0
  {
    if At(s, p0 + 1) == '{' {
      p := ScanBracedEnd(s, p0 + 2);
      if p < |s| && s[p] == '}' { p := p + 1; }
    } else if At(s, p0 + 1) == '(' && At(s, p0 + 2) == '(' {
      p := SkipParens(s, p0 + 3);
    } else if At(s, p0 + 1) == '(' {
      p := CmdsubstBodyEnd(s, p0 + 2);
      if p < |s| && s[p] == ')' { p := p + 1; }
    } else {
      p := p0 + 1;
    }
  }

  /** `scan_braced_end`; its argument `outer_dq` has no effect and is left out. */
  method ScanBracedEnd(s: string, p0: nat) returns (p: nat)
    requires p0 <= |s|
    ensures p == Braced(s, p0, false)
    decreases |s| - p0, 1
  {
    hide DollarEnd;
    p := p0;
    var innerDq := false;
    while p < |s|
      invariant p0 <= p <= |s| && Braced(s, p, innerDq) == Braced(s, p0, false)
      decreases |s| - p
    {
      if s[p] == '\\' {
        p := if p + 1 < |s| then p + 2 else p + 1;
      } else if s[p] == '\'' && !innerDq {
        p := FindByte(s, p + 1, '\'');
        if p < |s| { p := p + 1; }
      } else if s[p] == '"' {
        innerDq := !innerDq;
        p := p + 1;
      } else if s[p] == '$' {
        p := SkipDollarConstruct(s, p);
      } else if s[p] == '`' {
        p := FindUnescaped(s, p + 1, '`');
        if p < |s| { p := p + 1; }
      } else if s[p] == '}' && !innerDq {
        return;
      } else {
        p := p + 1;
      }
    }
  }

  /** `skip_dquote_end`. */
  method SkipDquoteEnd(s: string, p0: nat) returns (p: nat)
    requires p0 <= |s|
    ensures p == SkipQuoted(s, p0)
  {
    hide DollarEnd;
    p := p0;
    while p < |s|
      invariant p <= |s| && SkipQuoted(s, p) == SkipQuoted(s, p0)
      decreases |s| - p
    {
      if s[p] == '"' { return p + 1; }
      if s[p] == '\\' {
        p := if p + 1 < |s| then p + 2 else p + 1;
      } else if s[p] == '$' {
        p := SkipDollarConstruct(s, p);
      } else if s[p] == '`' {
        p := FindUnescaped(s, p + 1, '`');
        if p < |s| { p := p + 1; }
      } else {
        p := p + 1;
      }
    }
  }

  /** The cursor of `expand_into` in a double-quoted region that is neither a here-document nor the
      word of a `${v-word}`; no variable is unbound. */
  method ExpandQuoted(s: string, p0: nat) returns (p: nat)
    requires p0 <= |s|
    ensures p == WalkQuoted(s, p0)
  {
    hide DollarEnd, WalkQuoted, EscapedRunTo;
    p := p0;
    while p < |s| && s[p] != '"'
      invariant p <= |s| && WalkQuoted(s, p) == WalkQuoted(s, p0)
      decreases |s| - p
    {
      TurnWalks(s, p);
      if s[p] == '\\' {
        p := if p + 1 < |s| then p + 2 else p + 1;
      } else if s[p] == '$' {
        var c := At(s, p + 1);
        if p + 1 == |s| {
          p := p + 1;
        } else if c == '(' || c == '{' {
          p := SkipDollarConstruct(s, p);
        } else if c == '@' || c == '*' || SpecialVar(c) || Digit(c) {
          p := p + 2;
        } else if NameStart(c) {
          var q := p + 1;
          while q < |s| && NameChar(s[q])
            invariant p + 1 <= q <= |s| && NameEnd(s, q) == NameEnd(s, p + 1)
          {
            q := q + 1;
          }
          p := q;
        } else {
          p := p + 1;
        }
      } else if s[p] == '`' {
        p := FindUnescaped(s, p + 1, '`');
        if p < |s| { p := p + 1; }
      } else {
        p := p + 1;
      }
    }
    WalkEnds(s, p);
  }

  lemma WalkEnds(s: string, p: nat)
    requires p <= |s| && (p < |s| ==> s[p] == '"')
    ensures WalkQuoted(s, p) == p
  {}

  /** A double-quoted region as `expand_into` handles it: the walk over its inside, and the jump of
      the outer cursor.  They end at the same quote exactly when the two scanners agree. */
  method QuotedRegion(s: string, p: nat) returns (stop: nat, next: nat)
    requires p <= |s| && NoNul(s)
    ensures stop <= |s| && (stop < |s| ==> s[stop] == '"')
    ensures next == (if stop < |s| then stop + 1 else |s|) <==> Agree(s, p)
    ensures MeetsPidBrace(s, p) || Agree(s, p)
  {
    stop := ExpandQuoted(s, p);
    next := SkipDquoteEnd(s, p);
    if !MeetsPidBrace(s, p) { ScannersAgree(s, p); }
    WalkStopsAtQuote(s, p);
  }
}
