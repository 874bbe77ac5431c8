/** Arithmetic expressions as trees.

    `Expr` is a concrete syntax tree, with its layout and its redundant parentheses; `Text` prints one and
    `Eval` is its value, given without reference to any text.  The main theorem says that the parser inverts
    the printer. */
module ArithTrees {
  import opened Arith
  import opened CStrings
  import opened Options

  // ----- Syntax trees, printing and evaluation ------------------------------------------------

  /** A concrete syntax tree.  `lead` is the white space before a primary, `ws` the white space
      before the token that follows it. */
  datatype Expr =
    | Num(lead: string, digits: string)
    | Var(lead: string, name: string)
    | Pre(lead: string, up: bool, ws: string, name: string)
    | Post(lead: string, name: string, ws: string, up: bool)
    | Unary(lead: string, uop: UnOp, arg: Expr)
    | Paren(lead: string, inner: Expr, ws: string)
    | Assign(lead: string, name: string, ws: string, aop: AssignOp, rhs: Expr)
    | Bin(l: Expr, ws: string, op: Op, r: Expr)
    | Cond(c: Expr, ws: string, t: Expr, ws2: string, f: Expr)

  function Twice(up: bool): string { if up then "++" else "--" }

  function Text(e: Expr): string
    decreases e, 1
  {
    if e.Bin? then Text(e.l) + (e.ws + (OpText(e.op) + Text(e.r)))
    else if e.Cond? then Text(e.c) + (e.ws + ("?" + (Text(e.t) + (e.ws2 + (":" + Text(e.f))))))
    else e.lead + Body(e)
  }

  /** A primary without its leading white space. */
  function Body(e: Expr): (t: string)
    requires !e.Bin? && !e.Cond?
    decreases e, 0
  {
    match e
    case Num(_, digits) => digits
    case Var(_, name) => name
    case Pre(_, up, ws, name) => Twice(up) + (ws + name)
    case Post(_, name, ws, up) => name + (ws + Twice(up))
    case Unary(_, op, arg) => [UnText(op)] + Text(arg)
    case Paren(_, inner, ws) => "(" + (Text(inner) + (ws + ")"))
    case Assign(_, name, ws, op, rhs) => name + (ws + (AssignText(op) + Text(rhs)))
  }

  /** The tightest nonterminal that derives the tree. */
  function Prec(e: Expr): nat {
    if e.Bin? then Level(e.op) else if e.Cond? || e.Assign? then 1 else 11
  }

  predicate Blanks(w: string) { forall i :: 0 <= i < |w| ==> Blank(w[i]) }
  predicate Name(n: string) { n != [] && NameStart(n[0]) && forall i :: 0 <= i < |n| ==> NameChar(n[i]) }
  predicate Literal(t: string) { t != [] && Digit(t[0]) && LiteralEnd(t, 0) == |t| }

  /** A `+` or `-` must not touch an equal sign of its operand, or the two would be one token. */
  predicate Apart(c: char, t: string) { (c == '+' || c == '-') ==> At(t, 0) != c }

  predicate WellFormed(e: Expr) {
    match e
    case Num(lead, digits) => Blanks(lead) && Literal(digits)
    case Var(lead, name) => Blanks(lead) && Name(name)
    case Pre(lead, _, ws, name) => Blanks(lead) && Blanks(ws) && Name(name)
    case Post(lead, name, ws, _) => Blanks(lead) && Blanks(ws) && Name(name)
    case Unary(lead, op, arg) =>
      Blanks(lead) && WellFormed(arg) && Prec(arg) == 11 && Apart(UnText(op), Text(arg))
    case Paren(lead, inner, ws) => Blanks(lead) && Blanks(ws) && WellFormed(inner)
    case Assign(lead, name, ws, _, rhs) =>
      Blanks(lead) && Blanks(ws) && Name(name) && WellFormed(rhs) && Prec(rhs) >= 1
    case Bin(l, ws, op, r) =>
      Blanks(ws) && WellFormed(l) && WellFormed(r) && Prec(l) >= Level(op) && Prec(r) > Level(op)
      && Apart(OpText(op)[0], Text(r))
    case Cond(c, ws, t, ws2, f) =>
      Blanks(ws) && Blanks(ws2) && WellFormed(c) && WellFormed(t) && WellFormed(f)
      && Prec(c) >= 2 && Prec(t) >= 1 && Prec(f) >= 1
  }

  function Lift(x: Value, sh: Shell): Evaluated {
    match x case Val(v) => Done(v, sh) case Fail(f) => Abort(f)
  }

  /** The value of a tree: operands from left to right, every one of them, effects included. */
  function Eval(e: Expr, sh: Shell): Evaluated {
    match e
    case Num(_, digits) => Done(if digits == [] then 0 else LiteralValue(digits), sh)
    case Var(_, name) => Lift(Read(sh, name), sh)
    case Pre(_, up, _, name) =>
      Bump(sh, name, if name in sh.vars then sh.vars[name] else 0, if up then 1 else -1, false)
    case Post(_, name, _, up) =>
      (match Read(sh, name)
       case Fail(f) => Abort(f)
       case Val(v) => Bump(sh, name, v, if up then 1 else -1, true))
    case Unary(_, op, arg) =>
      (match Eval(arg, sh)
       case Abort(f) => Abort(f)
       case Done(v, sh1) => Lift(ApplyUnary(op, v), sh1))
    case Paren(_, inner, _) => Eval(inner, sh)
    case Assign(_, name, _, op, rhs) =>
      if op != Set && Read(sh, name).Fail? then Abort(Unbound) else
      var cur := if name in sh.vars then sh.vars[name] else 0;
      (match Eval(rhs, sh)
       case Abort(f) => Abort(f)
       case Done(v, sh1) =>
         match ApplyAssign(op, cur, v)
         case Fail(f) => Abort(f)
         case Val(w) => Done(w, Store(sh1, name, w)))
    case Bin(l, _, op, r) =>
      (match Eval(l, sh)
       case Abort(f) => Abort(f)
       case Done(a, sh1) =>
         match Eval(r, sh1)
         case Abort(f) => Abort(f)
         case Done(b, sh2) => Lift(Apply(op, a, b), sh2))
    case Cond(c, _, t, _, f) =>
      (match Eval(c, sh)
       case Abort(x) => Abort(x)
       case Done(b, sh1) =>
         match Eval(t, sh1)
         case Abort(x) => Abort(x)
         case Done(v, sh2) =>
           match Eval(f, sh2)
           case Abort(x) => Abort(x)
           case Done(w, sh3) => Done(if b != 0 then v else w, sh3))
  }

  // ----- Reading back what was printed --------------------------------------------------------

  lemma SkipBlanks(s: string, i: nat, w: string)
    requires Has(s, i, w) && Blanks(w)
    ensures SkipWs(s, i) == SkipWs(s, i + |w|)
    decreases |w|
  {
    if w != [] {
      HasAt(s, i, w, 0);
      HasSplit(s, i, w[..1], w[1..]);
      assert w == w[..1] + w[1..];
      SkipBlanks(s, i + 1, w[1..]);
    }
  }

  lemma SkipStays(s: string, i: nat)
    requires i <= |s| && !Blank(At(s, i))
    ensures SkipWs(s, i) == i
  {}

  lemma NameReads(s: string, i: nat, n: string)
    requires Has(s, i, n) && !NameChar(At(s, i + |n|))
    requires forall k :: 0 <= k < |n| ==> NameChar(n[k])
    ensures NameEnd(s, i) == i + |n| && s[i..NameEnd(s, i)] == n
    decreases |n|
  {
    if n != [] {
      HasAt(s, i, n, 0);
      assert n == n[..1] + n[1..];
      HasSplit(s, i, n[..1], n[1..]);
      NameReads(s, i + 1, n[1..]);
    }
  }

  lemma DigitsRead(s: string, i: nat, t: string, k: nat, base: nat)
    requires Has(s, i, t) && base <= 16 && k <= |t|
    requires DigitValue(At(s, i + |t|)) >= base || DigitsEnd(t, k, base) < |t|
    ensures DigitsEnd(s, i + k, base) == i + DigitsEnd(t, k, base)
    decreases |t| - k
  {
    if k < |t| {
      HasAt(s, i, t, k);
      if DigitValue(t[k]) < base { DigitsRead(s, i, t, k + 1, base); }
    }
  }

  /** A literal that ends where its text ends is read whole when no name character follows. */
  lemma LiteralReads(s: string, i: nat, t: string)
    requires Has(s, i, t) && Literal(t) && !NameChar(At(s, i + |t|))
    ensures At(s, i) == t[0] && i < |s| && LiteralEnd(s, i) == i + |t| && s[i..i + |t|] == t
  {
    HasAt(s, i, t, 0);
    forall k | 0 <= k < |t| ensures At(s, i + k) == t[k] { HasAt(s, i, t, k); }
    if HexAt(t, 0) {
      DigitsRead(s, i, t, 2, 16);
    } else if t[0] == '0' {
      DigitsRead(s, i, t, 0, 8);
      if |t| == 1 { assert !NameChar(At(s, i + 1)); }
      else { assert DigitValue(t[1]) < 8; }
    } else {
      DigitsRead(s, i, t, 0, 10);
    }
  }

  /** What follows at `j` does not extend an operand, nor an expression of nonterminal `l`: after
      white space there is no postfix or assignment operator and no operator tighter than `l`. */
  predicate Follow(s: string, j: nat, l: nat)
    requires j <= |s|
  {
    var k := SkipWs(s, j);
    && !NameChar(At(s, j)) && At(s, j) != '$'
    && AssignAt(s, k).None? && !((At(s, k) == '+' || At(s, k) == '-') && At(s, k + 1) == At(s, k))
    && (l <= 1 ==> At(s, k) != '?')
    && forall m :: l < m <= 10 && 2 <= m ==> OpAt(m, s, k).None?
  }

  predicate Starter(c: char) {
    Blank(c) || NameChar(c) || c == '(' || c == '+' || c == '-' || c == '!' || c == '~'
  }

  lemma {:induction false} TextStarts(e: Expr)
    requires WellFormed(e)
    ensures Text(e) != [] && Starter(Text(e)[0])
  {
    if e.Bin? { TextStarts(e.l); } else if e.Cond? { TextStarts(e.c); }
  }

  /** The operator at `k`, seen through the characters its recognition looks at. */
  predicate OpChars(s: string, k: nat, op: Op)
  {
    var o := OpText(op);
    && At(s, k) == o[0]
    && (|o| == 2 ==> At(s, k + 1) == o[1] && Starter(At(s, k + 2)))
    && (|o| == 1 ==> Starter(At(s, k + 1)) && ((op == Add || op == Sub) ==> At(s, k + 1) != o[0]))
  }

  lemma OpRecognised(s: string, k: nat, op: Op)
    requires k <= |s| && OpChars(s, k, op)
    ensures OpAt(Level(op), s, k) == Some(op)
    ensures forall m :: Level(op) < m <= 10 && 2 <= m ==> OpAt(m, s, k).None?
    ensures AssignAt(s, k).None? && !((At(s, k) == '+' || At(s, k) == '-') && At(s, k + 1) == At(s, k))
    ensures !Blank(At(s, k)) && !NameChar(At(s, k)) && At(s, k) != '$' && At(s, k) != '?'
  {
    match op
    case Comma => case LogOr => case LogAnd => case Or => case Xor => case And =>
    case Le => case Ge => case Lt => case Gt => case Eq => case Ne => case Shl => case Shr =>
    case Add => case Sub => case Mul => case Div => case Mod =>
  }

  lemma OpStands(s: string, k: nat, op: Op, t: string)
    requires Has(s, k, OpText(op) + t) && t != [] && Starter(t[0]) && Apart(OpText(op)[0], t)
    ensures k + |OpText(op)| + |t| <= |s| && OpChars(s, k, op) && Has(s, k + |OpText(op)|, t)
  {
    hide Has;
    var o := OpText(op);
    HasSplit(s, k, o, t);
    HasAt(s, k, o, 0);
    if |o| == 2 { HasAt(s, k, o, 1); }
    HasAt(s, k + |o|, t, 0);
  }

  /** White space in front of a token is skipped. */
  lemma BlanksThenToken(s: string, j: nat, ws: string, t: string)
    requires Has(s, j, ws + t) && Blanks(ws) && !Blank(At(s, j + |ws|))
    ensures j + |ws| + |t| <= |s| && SkipWs(s, j) == j + |ws| && Has(s, j + |ws|, t)
    ensures if ws == [] then |ws| == 0 else Blank(At(s, j))
  {
    hide Has;
    HasSplit(s, j, ws, t);
    if ws != [] { HasAt(s, j, ws, 0); }
    SkipBlanks(s, j, ws);
    SkipStays(s, j + |ws|);
  }

  /** After an operand, an operator is recognised by its own nonterminal and by no tighter one. */
  lemma OpFollows(s: string, j: nat, ws: string, op: Op, t: string)
    requires Blanks(ws) && Has(s, j, ws + (OpText(op) + t))
    requires t != [] && Starter(t[0]) && Apart(OpText(op)[0], t)
    ensures SkipWs(s, j) == j + |ws| && OpAt(Level(op), s, j + |ws|) == Some(op)
    ensures Follow(s, j, Level(op)) && Has(s, j + |ws| + |OpText(op)|, t)
  {
    hide Has, OpAt, OpText, OpChars, AssignAt, Apply;
    HasSplit(s, j, ws, OpText(op) + t);
    OpStands(s, j + |ws|, op, t);
    OpRecognised(s, j + |ws|, op);
    BlanksThenToken(s, j, ws, OpText(op) + t);
  }

  lemma PunctFollows(s: string, j: nat, ws: string, c: char, rest: string)
    requires Blanks(ws) && Has(s, j, ws + ([c] + rest)) && (c == '?' || c == ':' || c == ')')
    ensures SkipWs(s, j) == j + |ws| && At(s, j + |ws|) == c
    ensures Follow(s, j, if c == '?' then 2 else 0) && Has(s, j + |ws| + 1, rest)
  {
    hide Has;
    HasSplit(s, j, ws, [c] + rest);
    HasSplit(s, j + |ws|, [c], rest);
    HasAt(s, j + |ws|, [c], 0);
    BlanksThenToken(s, j, ws, [c] + rest);
  }

  /** Where `arith_primary` stops: a variable and an assignment also skip the white space behind. */
  function PrimaryEnd(e: Expr, s: string, j: nat): (k: nat)
    requires j <= |s|
    ensures j <= k <= |s| && SkipWs(s, k) == SkipWs(s, j)
  {
    if e.Var? || e.Assign? then SkipStays(s, SkipWs(s, j)); SkipWs(s, j)
    else if e.Unary? then PrimaryEnd(e.arg, s, j)
    else j
  }

  /** Nonterminal `l` with `e` behind it: a loop is still running, the others have returned. */
  function Resume(l: nat, e: Expr, s: string, j: nat, r: Evaluated): Outcome
    requires j <= |s| && l <= 11
  {
    match r
    case Abort(f) => Stop(f)
    case Done(v, sh) =>
      if l == 11 then Ok(v, PrimaryEnd(e, s, j), sh)
      else if l == 1 then Ok(v, SkipWs(s, j), sh)
      else Loop(l, s, j, v, sh)
  }

  lemma LoopSkips(l: nat, s: string, j: nat, k: nat, v: int, sh: Shell)
    requires j <= |s| && k <= |s| && l <= 10 && l != 1 && SkipWs(s, j) == SkipWs(s, k)
    ensures Loop(l, s, j, v, sh) == Loop(l, s, k, v, sh)
  { hide Parse, OpAt, Apply; }

  /** One nonterminal up. */
  lemma Climb(l: nat, e: Expr, s: string, i: nat, j: nat, sh: Shell)
    requires l <= 10 && i <= |s| && j <= |s| && Follow(s, j, l)
    requires Parse(l + 1, s, i, sh) == Resume(l + 1, e, s, j, Eval(e, sh))
    ensures Parse(l, s, i, sh) == Resume(l, e, s, j, Eval(e, sh))
  {
    var k := SkipWs(s, j);
    SkipStays(s, k);
    match Eval(e, sh)
    case Abort(_) =>
    case Done(v, sh1) =>
      if l == 10 {
        LoopSkips(10, s, j, PrimaryEnd(e, s, j), v, sh1);
      } else if l == 0 {
        LoopSkips(0, s, j, k, v, sh1);
      } else {
        assert OpAt(l + 1, s, k).None?;
        assert Loop(l + 1, s, j, v, sh1) == Ok(v, k, sh1);
        if l != 1 { LoopSkips(l, s, j, k, v, sh1); }
      }
  }

  /** Where the text `e` ends when it starts at `i`. */
  function End(i: nat, e: Expr): nat { i + |Text(e)| }

  /** The parser, at any nonterminal that derives the tree, reads back its value and its effects
      and goes on exactly behind its text. */
  lemma {:induction false} ParseTree(e: Expr, l: nat, s: string, i: nat, sh: Shell)
    requires WellFormed(e) && l <= 11 && (Prec(e) >= l || e.Assign?)
    requires Has(s, i, Text(e)) && Follow(s, End(i, e), l) && (e.Assign? ==> Follow(s, End(i, e), 1))
    ensures Parse(l, s, i, sh) == Resume(l, e, s, End(i, e), Eval(e, sh))
    decreases e, 13 - l
  {
    hide Has, Parse, Loop, Ternary, Primary, Operand;
    var j := End(i, e);
    if l < 11 && (Prec(e) > l || e.Assign?) {
      ParseTree(e, l + 1, s, i, sh);
      Climb(l, e, s, i, j, sh);
    } else if e.Bin? {
      ParseBin(e, s, i, sh);
    } else if e.Cond? {
      ParseCond(e, s, i, sh);
    } else {
      ParsePrimary(e, s, i, sh);
      ParseIsPrimary(s, i, sh);
    }
  }

  lemma LoopStops(l: nat, s: string, j: nat, v: int, sh: Shell)
    requires j <= |s| && l <= 10 && l != 1 && OpAt(l, s, SkipWs(s, j)).None?
    ensures Loop(l, s, j, v, sh) == Ok(v, SkipWs(s, j), sh)
  {}

  lemma LoopStep(l: nat, s: string, j: nat, op: Op, a: int, sh: Shell)
    requires j <= |s| && l == Level(op) && OpAt(l, s, SkipWs(s, j)) == Some(op)
    ensures Loop(l, s, j, a, sh) ==
      match Parse(l + 1, s, SkipWs(s, j) + |OpText(op)|, sh)
      case Stop(f) => Stop(f)
      case Ok(b, p, sh1) =>
        match Apply(op, a, b)
        case Fail(f) => Stop(f)
        case Val(v) => Loop(l, s, p, v, sh1)
  {}

  /** A nonterminal above `l` has returned by the time an expression of level `l` follows. */
  lemma Returned(l: nat, e: Expr, s: string, j: nat, v: int, sh: Shell)
    requires j <= |s| && l <= 10 && l != 1 && Follow(s, j, l)
    ensures var o := Resume(l + 1, e, s, j, Done(v, sh));
      o.Ok? && o.v == v && o.sh == sh && o.pos <= |s| && SkipWs(s, o.pos) == SkipWs(s, j)
  {
    SkipStays(s, SkipWs(s, j));
    if 1 <= l < 10 { LoopStops(l + 1, s, j, v, sh); }
  }

  lemma FollowTightens(s: string, j: nat)
    requires j <= |s| && Follow(s, j, 0)
    ensures Follow(s, j, 1)
  {}

  lemma BinParts(e: Expr)
    requires e.Bin? && WellFormed(e)
    ensures Text(e) == Text(e.l) + (e.ws + (OpText(e.op) + Text(e.r))) && Blanks(e.ws)
    ensures WellFormed(e.l) && WellFormed(e.r) && Prec(e.l) >= Level(e.op) && Prec(e.r) > Level(e.op)
    ensures Apart(OpText(e.op)[0], Text(e.r))
  {}

  lemma CondParts(e: Expr)
    requires e.Cond? && WellFormed(e)
    ensures Text(e) == Text(e.c) + (e.ws + ("?" + (Text(e.t) + (e.ws2 + (":" + Text(e.f))))))
    ensures Blanks(e.ws) && WellFormed(e.c) && Prec(e.c) >= 2
  {}

  /** Where the three parts of an infix expression stand. */
  lemma BinLayout(e: Expr, s: string, i: nat)
    requires e.Bin? && WellFormed(e) && Has(s, i, Text(e))
    ensures WellFormed(e.l) && WellFormed(e.r) && Prec(e.l) >= Level(e.op) && Prec(e.r) > Level(e.op)
    ensures Has(s, i, Text(e.l)) && End(i, e.l) <= |s| && Follow(s, End(i, e.l), Level(e.op))
    ensures e.l.Assign? ==> Follow(s, End(i, e.l), 1)
    ensures OpAt(Level(e.op), s, SkipWs(s, End(i, e.l))) == Some(e.op)
    ensures var i2 := SkipWs(s, End(i, e.l)) + |OpText(e.op)|; Has(s, i2, Text(e.r)) && End(i2, e.r) == End(i, e)
  {
    hide Has, OpAt, OpText, AssignAt, Follow, Text, WellFormed, Apart, Blanks;
    BinParts(e);
    HasSplit(s, i, Text(e.l), e.ws + (OpText(e.op) + Text(e.r)));
    TextStarts(e.r);
    OpFollows(s, End(i, e.l), e.ws, e.op, Text(e.r));
    if e.l.Assign? { FollowTightens(s, End(i, e.l)); }
  }

  lemma EvalBin(e: Expr, sh: Shell)
    requires e.Bin?
    ensures Eval(e, sh) ==
      match Eval(e.l, sh)
      case Abort(f) => Abort(f)
      case Done(a, sh1) => EvalRight(e, a, sh1)
  {}

  lemma {:induction false} ParseBin(e: Expr, s: string, i: nat, sh: Shell)
    requires e.Bin? && WellFormed(e) && Has(s, i, Text(e)) && Follow(s, End(i, e), Prec(e))
    ensures Parse(Prec(e), s, i, sh) == Resume(Prec(e), e, s, End(i, e), Eval(e, sh))
    decreases e, 1
  {
    hide Has, Parse, Loop, Ternary, Primary, Operand, Eval, EvalRight, Follow, OpAt, OpText, Apply, Text, WellFormed;
    BinLayout(e, s, i);
    EvalBin(e, sh);
    var n, j := Level(e.op), End(i, e.l);
    ParseTree(e.l, n, s, i, sh);
    match Eval(e.l, sh)
    case Abort(_) =>
    case Done(a, sh1) =>
      LoopStep(n, s, j, e.op, a, sh1);
      ParseRight(e, s, SkipWs(s, j) + |OpText(e.op)|, End(i, e), a, sh1);
  }

  /** The rest of an infix expression, its left operand evaluated. */
  function EvalRight(e: Expr, a: int, sh: Shell): Evaluated
    requires e.Bin?
  {
    match Eval(e.r, sh)
    case Abort(f) => Abort(f)
    case Done(b, sh1) => Lift(Apply(e.op, a, b), sh1)
  }

  lemma {:induction false} ParseRight(e: Expr, s: string, i: nat, j: nat, a: int, sh: Shell)
    requires e.Bin? && WellFormed(e) && Has(s, i, Text(e.r)) && j == End(i, e.r) && Follow(s, j, Prec(e))
    ensures (match Parse(Prec(e) + 1, s, i, sh)
             case Stop(f) => Stop(f)
             case Ok(b, p, sh1) =>
               match Apply(e.op, a, b)
               case Fail(f) => Stop(f)
               case Val(v) => Loop(Prec(e), s, p, v, sh1))
         == Resume(Prec(e), e, s, j, EvalRight(e, a, sh))
    decreases e, 0
  {
    assert WellFormed(e.r);
    hide Has, Parse, Loop, Ternary, Primary, Operand, Text, WellFormed, Eval;
    var n := Level(e.op);
    ParseTree(e.r, n + 1, s, i, sh);
    match Eval(e.r, sh)
    case Abort(_) =>
    case Done(b, sh1) =>
      Returned(n, e.r, s, j, b, sh1);
      match Apply(e.op, a, b)
      case Fail(_) =>
      case Val(v) => LoopSkips(n, s, Parse(n + 1, s, i, sh).pos, j, v, sh1);
  }

  lemma TernaryIsBranches(s: string, i: nat, j: nat, cond: int, sh: Shell, sh1: Shell)
    requires i <= |s| && j < |s| && s[j] == '?' && Parse(2, s, i, sh) == Ok(cond, j, sh1)
    ensures Parse(1, s, i, sh) ==
      match Branches(s, j + 1, sh1)
      case Both(t, f, p, sh2) => Ok(if cond != 0 then t else f, p, sh2)
      case Neither(x) => Stop(x)
  {}

  /** `arith_ternary` on a condition that could not be evaluated. */
  lemma TernaryStops(s: string, i: nat, sh: Shell)
    requires i <= |s| && Parse(2, s, i, sh).Stop?
    ensures Parse(1, s, i, sh) == Parse(2, s, i, sh)
  {}

  lemma CondLayout(e: Expr, s: string, i: nat)
    requires e.Cond? && WellFormed(e) && Has(s, i, Text(e))
    ensures WellFormed(e.c) && Prec(e.c) >= 2 && !e.c.Assign?
    ensures Has(s, i, Text(e.c)) && End(i, e.c) <= |s| && Follow(s, End(i, e.c), 2)
    ensures var k := SkipWs(s, End(i, e.c));
      && k < |s| && s[k] == '?' && OpAt(2, s, k).None?
      && Has(s, k + 1, Text(e.t) + (e.ws2 + (":" + Text(e.f))))
      && k + 1 + |Text(e.t) + (e.ws2 + (":" + Text(e.f)))| == End(i, e)
  {
    hide Has, Text, WellFormed, Blanks;
    CondParts(e);
    var tail := Text(e.t) + (e.ws2 + (":" + Text(e.f)));
    HasSplit(s, i, Text(e.c), e.ws + ("?" + tail));
    PunctFollows(s, End(i, e.c), e.ws, '?', tail);
  }

  lemma {:induction false} ParseCond(e: Expr, s: string, i: nat, sh: Shell)
    requires e.Cond? && WellFormed(e) && Has(s, i, Text(e)) && Follow(s, End(i, e), 1)
    ensures Parse(1, s, i, sh) == Resume(1, e, s, End(i, e), Eval(e, sh))
    decreases e, 1
  {
    hide Has, Parse, Loop, Ternary, Primary, Operand, Branches, Follow, OpAt, Text, WellFormed;
    CondLayout(e, s, i);
    var j := End(i, e.c);
    ParseTree(e.c, 2, s, i, sh);
    match Eval(e.c, sh)
    case Abort(_) => TernaryStops(s, i, sh);
    case Done(b, sh1) =>
      LoopStops(2, s, j, b, sh1);
      TernaryIsBranches(s, i, SkipWs(s, j), b, sh, sh1);
      ParseBranches(e, s, SkipWs(s, j) + 1, End(i, e), sh1);
  }

  /** What `arith_ternary` computes behind the `?`. */
  datatype BranchPair = Both(t: int, f: int, pos: nat, sh: Shell) | Neither(fault: Fault)

  function Branches(s: string, i: nat, sh: Shell): BranchPair
    requires i <= |s|
  {
    match Parse(1, s, i, sh)
    case Stop(x) => Neither(x)
    case Ok(t, p, sh1) =>
      var q := SkipWs(s, p);
      match Parse(1, s, if At(s, q) == ':' then q + 1 else q, sh1)
      case Stop(x) => Neither(x)
      case Ok(f, r, sh2) => Both(t, f, r, sh2)
  }

  lemma BranchParts(e: Expr)
    requires e.Cond? && WellFormed(e)
    ensures WellFormed(e.t) && WellFormed(e.f) && Prec(e.t) >= 1 && Prec(e.f) >= 1 && Blanks(e.ws2)
  {}

  lemma BranchLayout(e: Expr, s: string, i: nat)
    requires e.Cond? && WellFormed(e) && Has(s, i, Text(e.t) + (e.ws2 + (":" + Text(e.f))))
    ensures WellFormed(e.t) && WellFormed(e.f) && Prec(e.t) >= 1 && Prec(e.f) >= 1
    ensures Has(s, i, Text(e.t)) && End(i, e.t) <= |s| && Follow(s, End(i, e.t), 1)
    ensures var k := SkipWs(s, End(i, e.t));
      At(s, k) == ':' && Has(s, k + 1, Text(e.f)) && End(k + 1, e.f) == i + |Text(e.t) + (e.ws2 + (":" + Text(e.f)))|
  {
    hide Has, Text, Follow, OpAt, WellFormed, SkipWs;
    BranchParts(e);
    HasSplit(s, i, Text(e.t), e.ws2 + (":" + Text(e.f)));
    PunctFollows(s, End(i, e.t), e.ws2, ':', Text(e.f));
    FollowTightens(s, End(i, e.t));
  }

  lemma {:induction false} ParseBranches(e: Expr, s: string, i: nat, j: nat, sh: Shell)
    requires e.Cond? && WellFormed(e) && Has(s, i, Text(e.t) + (e.ws2 + (":" + Text(e.f))))
    requires j == i + |Text(e.t) + (e.ws2 + (":" + Text(e.f)))| && Follow(s, j, 1)
    ensures Branches(s, i, sh) ==
      match Eval(e.t, sh)
      case Abort(x) => Neither(x)
      case Done(v, sh1) =>
        match Eval(e.f, sh1)
        case Abort(x) => Neither(x)
        case Done(w, sh2) => Both(v, w, SkipWs(s, j), sh2)
    decreases e, 0
  {
    hide Has, Parse, Loop, Ternary, Primary, Operand, Eval, Follow, Text, Body, WellFormed;
    BranchLayout(e, s, i);
    var k := SkipWs(s, End(i, e.t));
    ParseTree(e.t, 1, s, i, sh);
    match Eval(e.t, sh)
    case Abort(_) =>
    case Done(v, sh1) =>
      SkipStays(s, k);
      ParseTree(e.f, 1, s, k + 1, sh1);
  }

  lemma ParseIsPrimary(s: string, i: nat, sh: Shell)
    requires i <= |s|
    ensures Parse(11, s, i, sh) == Primary(s, i, sh)
  {}

  lemma {:induction false} BodyStarts(e: Expr)
    requires !e.Bin? && !e.Cond? && WellFormed(e)
    ensures Body(e) != [] && !Blank(Body(e)[0])
  {}

  lemma LeadParts(e: Expr)
    requires !e.Bin? && !e.Cond? && WellFormed(e)
    ensures Text(e) == e.lead + Body(e) && Blanks(e.lead)
  { hide Body; }

  lemma LeadLayout(e: Expr, s: string, i: nat)
    requires !e.Bin? && !e.Cond? && WellFormed(e) && Has(s, i, Text(e))
    ensures i <= SkipWs(s, i) == i + |e.lead| <= |s| && Has(s, SkipWs(s, i), Body(e))
    ensures SkipWs(s, i) + |Body(e)| == End(i, e) <= |s|
  {
    hide Has, Body, Eval, Parse, Primary, WellFormed;
    LeadParts(e);
    HasSplit(s, i, e.lead, Body(e));
    BodyStarts(e);
    HasAt(s, i + |e.lead|, Body(e), 0);
    BlanksThenToken(s, i, e.lead, Body(e));
  }

  lemma {:induction false} ParsePrimary(e: Expr, s: string, i: nat, sh: Shell)
    requires !e.Bin? && !e.Cond? && WellFormed(e) && Has(s, i, Text(e))
    requires Follow(s, End(i, e), 11) && (e.Assign? ==> Follow(s, End(i, e), 1))
    ensures Primary(s, i, sh) == Resume(11, e, s, End(i, e), Eval(e, sh))
    decreases e, 1
  {
    hide Has, Parse, Loop, Ternary, Primary, Operand, Follow, Text;
    LeadLayout(e, s, i);
    var j := SkipWs(s, i) + |Body(e)|;
    assert j == End(i, e) && Follow(s, j, 11) && (e.Assign? ==> Follow(s, j, 1));
    match e
    case Num(_, digits) => ReadsNum(s, i, digits, sh);
    case Var(_, name) => ReadsVar(s, i, name, sh);
    case Pre(_, up, ws, name) => ReadsPre(s, i, up, ws, name, sh);
    case Post(_, name, ws, up) => ReadsPost(s, i, name, ws, up, sh);
    case Unary(_, op, arg) => ParseUnary(e, s, i, sh);
    case Paren(_, inner, ws) => ParseParen(e, s, i, sh);
    case Assign(_, name, ws, op, rhs) => ParseAssign(e, s, i, sh);
  }

  lemma ReadsNum(s: string, i: nat, digits: string, sh: Shell)
    requires i <= |s| && Literal(digits) && Has(s, SkipWs(s, i), digits)
    requires Follow(s, SkipWs(s, i) + |digits|, 11)
    ensures Primary(s, i, sh) == Ok(LiteralValue(digits), SkipWs(s, i) + |digits|, sh)
  {
    hide Parse, Loop, Ternary, Operand;
    LiteralReads(s, SkipWs(s, i), digits);
  }

  lemma ReadsVar(s: string, i: nat, name: string, sh: Shell)
    requires i <= |s| && Name(name) && Has(s, SkipWs(s, i), name)
    requires Follow(s, SkipWs(s, i) + |name|, 11)
    ensures Primary(s, i, sh) == Finish(Lift(Read(sh, name), sh), SkipWs(s, SkipWs(s, i) + |name|))
  {
    hide Parse, Loop, Ternary, Primary, Operand;
    var p := SkipWs(s, i);
    HasAt(s, p, name, 0);
    NameReads(s, p, name);
    PrimaryIsOperand(s, i, sh);
    OperandIsRead(s, p, sh);
  }

  lemma PrimaryIsOperand(s: string, i: nat, sh: Shell)
    requires i <= |s| && NameStart(At(s, SkipWs(s, i)))
    ensures Primary(s, i, sh) == Operand(s, SkipWs(s, i), sh)
  { hide Parse, Loop, Ternary, Operand; }

  lemma OperandIsRead(s: string, p: nat, sh: Shell)
    requires p < |s| && NameStart(s[p]) && Follow(s, NameEnd(s, p), 11)
    ensures Operand(s, p, sh) == Finish(Lift(Read(sh, s[p..NameEnd(s, p)]), sh), SkipWs(s, NameEnd(s, p)))
  { hide Parse, Loop, Ternary, Primary; }

  lemma PrimaryIsBump(s: string, i: nat, sh: Shell, up: bool)
    requires i <= |s| && SkipWs(s, i) + 2 <= |s|
    requires At(s, SkipWs(s, i)) == At(s, SkipWs(s, i) + 1) == if up then '+' else '-'
    ensures Primary(s, i, sh) ==
      var n := SkipWs(s, SkipWs(s, i) + 2);
      var name := s[n..NameEnd(s, n)];
      Finish(Bump(sh, name, if name in sh.vars then sh.vars[name] else 0, if up then 1 else -1, false), NameEnd(s, n))
  { hide Parse, Loop, Ternary, Operand; }

  lemma BlanksThenName(s: string, q: nat, ws: string, name: string)
    requires Has(s, q, ws + name) && Blanks(ws) && Name(name) && !NameChar(At(s, q + |ws| + |name|))
    ensures q + |ws| + |name| <= |s| && SkipWs(s, q) == q + |ws|
    ensures NameEnd(s, q + |ws|) == q + |ws| + |name| && s[q + |ws|..NameEnd(s, q + |ws|)] == name
  {
    hide Has;
    HasSplit(s, q, ws, name);
    HasAt(s, q + |ws|, name, 0);
    BlanksThenToken(s, q, ws, name);
    NameReads(s, q + |ws|, name);
  }

  lemma FollowEndsToken(s: string, j: nat)
    requires j <= |s| && Follow(s, j, 11)
    ensures !NameChar(At(s, j)) && At(s, j) != '$'
  {}

  lemma ReadsPre(s: string, i: nat, up: bool, ws: string, name: string, sh: Shell)
    requires i <= |s| && Blanks(ws) && Name(name) && Has(s, SkipWs(s, i), Twice(up) + (ws + name))
    requires Follow(s, SkipWs(s, i) + |Twice(up) + (ws + name)|, 11)
    ensures Primary(s, i, sh) ==
      Finish(Bump(sh, name, if name in sh.vars then sh.vars[name] else 0, if up then 1 else -1, false),
             SkipWs(s, i) + |Twice(up) + (ws + name)|)
  {
    hide Has, Parse, Loop, Ternary, Primary, Operand, Bump, Follow, Name, Blanks, NameEnd, SkipWs;
    var p, t := SkipWs(s, i), Twice(up);
    HasSplit(s, p, t, ws + name);
    FollowEndsToken(s, p + |t + (ws + name)|);
    HasAt(s, p, t, 0);
    HasAt(s, p, t, 1);
    BlanksThenName(s, p + 2, ws, name);
    PrimaryIsBump(s, i, sh, up);
  }

  /** A name in front of `tail`, with white space between the two. */
  lemma NameFollows(s: string, p: nat, name: string, ws: string, tail: string)
    requires Has(s, p, name + (ws + tail)) && Name(name) && Blanks(ws)
    requires tail != [] && !Blank(tail[0]) && !NameChar(tail[0]) && tail[0] != '$'
    ensures p + |name| + |ws| + |tail| <= |s|
    ensures NameEnd(s, p) == p + |name| && s[p..NameEnd(s, p)] == name && At(s, p) == name[0]
    ensures At(s, p + |name|) != '$' && SkipWs(s, p + |name|) == p + |name| + |ws|
    ensures Has(s, p + |name| + |ws|, tail)
  {
    hide Has;
    var q := p + |name|;
    HasSplit(s, p, name, ws + tail);
    HasSplit(s, q, ws, tail);
    HasAt(s, p, name, 0);
    HasAt(s, q + |ws|, tail, 0);
    BlanksThenToken(s, q, ws, tail);
    NameReads(s, p, name);
  }

  lemma OperandIsBump(s: string, p: nat, sh: Shell)
    requires p < |s| && NameStart(s[p]) && At(s, NameEnd(s, p)) != '$'
    requires var k := SkipWs(s, NameEnd(s, p)); (At(s, k) == '+' || At(s, k) == '-') && At(s, k + 1) == At(s, k)
    ensures
      var k := SkipWs(s, NameEnd(s, p));
      var delta := if At(s, k) == '+' then 1 else -1;
      Operand(s, p, sh) ==
        match Read(sh, s[p..NameEnd(s, p)])
        case Fail(f) => Stop(f)
        case Val(v) => Finish(Bump(sh, s[p..NameEnd(s, p)], v, delta, true), k + 2)
  { hide Parse, Loop, Ternary, Primary; }

  lemma ReadsPost(s: string, i: nat, name: string, ws: string, up: bool, sh: Shell)
    requires i <= |s| && Blanks(ws) && Name(name) && Has(s, SkipWs(s, i), name + (ws + Twice(up)))
    ensures Primary(s, i, sh) ==
      match Read(sh, name)
      case Fail(f) => Stop(f)
      case Val(v) => Finish(Bump(sh, name, v, if up then 1 else -1, true), SkipWs(s, i) + |name + (ws + Twice(up))|)
  {
    hide Parse, Loop, Ternary, Primary, Operand;
    var p, t := SkipWs(s, i), Twice(up);
    var k := p + |name| + |ws|;
    NameFollows(s, p, name, ws, t);
    HasAt(s, k, t, 0);
    HasAt(s, k, t, 1);
    PrimaryIsOperand(s, i, sh);
    OperandIsBump(s, p, sh);
  }

  lemma PrimaryIsUnary(s: string, i: nat, sh: Shell, op: UnOp)
    requires i <= |s| && At(s, SkipWs(s, i)) == UnText(op)
    requires op == Neg || op == Plus ==> At(s, SkipWs(s, i) + 1) != UnText(op)
    ensures Primary(s, i, sh) ==
      match Parse(11, s, SkipWs(s, i) + 1, sh)
      case Stop(f) => Stop(f)
      case Ok(v, p, sh1) => Finish(Lift(ApplyUnary(op, v), sh1), p)
  { hide Loop, Ternary, Operand; }

  lemma {:induction false} ParseUnary(e: Expr, s: string, i: nat, sh: Shell)
    requires e.Unary? && WellFormed(e) && i <= |s| && Has(s, SkipWs(s, i), Body(e))
    requires Follow(s, SkipWs(s, i) + |Body(e)|, 11)
    ensures Primary(s, i, sh) == Resume(11, e, s, SkipWs(s, i) + |Body(e)|, Eval(e, sh))
    decreases e, 0
  {
    hide Has, Parse, Loop, Ternary, Primary, Operand, Follow;
    var p := SkipWs(s, i);
    HasSplit(s, p, [UnText(e.uop)], Text(e.arg));
    HasAt(s, p, [UnText(e.uop)], 0);
    TextStarts(e.arg);
    HasAt(s, p + 1, Text(e.arg), 0);
    ParseTree(e.arg, 11, s, p + 1, sh);
    PrimaryIsUnary(s, i, sh, e.uop);
  }

  lemma PrimaryIsParen(s: string, i: nat, sh: Shell)
    requires i <= |s| && At(s, SkipWs(s, i)) == '('
    ensures Primary(s, i, sh) ==
      match Parse(0, s, SkipWs(s, i) + 1, sh)
      case Stop(f) => Stop(f)
      case Ok(v, p, sh1) => Ok(v, if At(s, SkipWs(s, p)) == ')' then SkipWs(s, p) + 1 else SkipWs(s, p), sh1)
  { hide Parse, Loop, Ternary, Operand; }

  lemma ParenLayout(e: Expr, s: string, i: nat)
    requires e.Paren? && WellFormed(e) && i <= |s| && Has(s, SkipWs(s, i), Body(e))
    ensures WellFormed(e.inner) && At(s, SkipWs(s, i)) == '(' && SkipWs(s, i) < |s|
    ensures var j := End(SkipWs(s, i) + 1, e.inner);
      && Has(s, SkipWs(s, i) + 1, Text(e.inner)) && j <= |s| && Follow(s, j, 0) && Follow(s, j, 1)
      && OpAt(0, s, SkipWs(s, j)).None? && At(s, SkipWs(s, j)) == ')'
      && SkipWs(s, j) + 1 == SkipWs(s, i) + |Body(e)|
  {
    hide Has, Parse, Loop, Ternary, Primary, Operand;
    var p := SkipWs(s, i);
    HasSplit(s, p, "(", Text(e.inner) + (e.ws + ")"));
    HasAt(s, p, "(", 0);
    HasSplit(s, p + 1, Text(e.inner), e.ws + ")");
    assert ")" == [')'] + [];
    PunctFollows(s, End(p + 1, e.inner), e.ws, ')', []);
  }

  lemma {:induction false} ParseParen(e: Expr, s: string, i: nat, sh: Shell)
    requires e.Paren? && WellFormed(e) && i <= |s| && Has(s, SkipWs(s, i), Body(e))
    requires SkipWs(s, i) + |Body(e)| <= |s|
    ensures Primary(s, i, sh) == Resume(11, e, s, SkipWs(s, i) + |Body(e)|, Eval(e, sh))
    decreases e, 0
  {
    hide Has, Parse, Loop, Ternary, Primary, Operand, Follow, OpAt, Text, Body, WellFormed;
    ParenLayout(e, s, i);
    var p := SkipWs(s, i);
    var j := End(p + 1, e.inner);
    PrimaryIsParen(s, i, sh);
    ParseTree(e.inner, 0, s, p + 1, sh);
    match Eval(e.inner, sh)
    case Abort(_) =>
    case Done(v, sh1) =>
      LoopStops(0, s, j, v, sh1);
      SkipStays(s, SkipWs(s, j));
  }

  lemma AssignChars(s: string, k: nat, op: AssignOp, t: string)
    requires Has(s, k, AssignText(op) + t) && t != [] && Starter(t[0])
    ensures k + |AssignText(op)| <= |s| && AssignAt(s, k) == Some(op) && Has(s, k + |AssignText(op)|, t)
    ensures !((At(s, k) == '+' || At(s, k) == '-') && At(s, k + 1) == At(s, k))
    ensures op == Set <==> At(s, k) == '=' && At(s, k + 1) != '='
  {
    var o := AssignText(op);
    HasSplit(s, k, o, t);
    HasAt(s, k, o, 0);
    if |o| > 1 { HasAt(s, k, o, 1); }
    if |o| > 2 { HasAt(s, k, o, 2); }
    HasAt(s, k + |o|, t, 0);
  }

  /** What follows the assignment operator, the old value of the variable being `cur`. */
  function AssignTail(s: string, i: nat, sh: Shell, name: string, op: AssignOp): Outcome
    requires i <= |s|
  {
    if op != Set && Read(sh, name).Fail? then Stop(Unbound) else
    match Parse(1, s, i, sh)
    case Stop(f) => Stop(f)
    case Ok(rhs, q, sh1) =>
      match ApplyAssign(op, if name in sh.vars then sh.vars[name] else 0, rhs)
      case Fail(f) => Stop(f)
      case Val(v) => Ok(v, q, Store(sh1, name, v))
  }

  lemma OperandIsAssign(s: string, p: nat, sh: Shell, op: AssignOp)
    requires p < |s| && NameStart(s[p]) && At(s, NameEnd(s, p)) != '$'
    requires var k := SkipWs(s, NameEnd(s, p));
      && AssignAt(s, k) == Some(op) && !((At(s, k) == '+' || At(s, k) == '-') && At(s, k + 1) == At(s, k))
      && (op == Set <==> At(s, k) == '=' && At(s, k + 1) != '=')
    ensures Operand(s, p, sh)
         == AssignTail(s, SkipWs(s, NameEnd(s, p)) + |AssignText(op)|, sh, s[p..NameEnd(s, p)], op)
  { hide Parse, Loop, Ternary, Primary; }

  lemma AssignLayout(e: Expr, s: string, i: nat, sh: Shell)
    requires e.Assign? && WellFormed(e) && i <= |s| && Has(s, SkipWs(s, i), Body(e))
    ensures var p := SkipWs(s, i);
      var k := p + |e.name| + |e.ws| + |AssignText(e.aop)|;
      && k <= |s| && Primary(s, i, sh) == AssignTail(s, k, sh, e.name, e.aop)
      && Has(s, k, Text(e.rhs)) && End(k, e.rhs) == p + |Body(e)|
  {
    hide Has, Parse, Loop, Ternary, Primary, Operand, AssignTail, Text, AssignAt, SkipWs, NameEnd;
    var p, o := SkipWs(s, i), AssignText(e.aop);
    assert o[0] != '$' && !Blank(o[0]) && !NameChar(o[0]);
    NameFollows(s, p, e.name, e.ws, o + Text(e.rhs));
    TextStarts(e.rhs);
    AssignChars(s, p + |e.name| + |e.ws|, e.aop, Text(e.rhs));
    PrimaryIsOperand(s, i, sh);
    OperandIsAssign(s, p, sh, e.aop);
  }

  lemma {:induction false} ParseAssign(e: Expr, s: string, i: nat, sh: Shell)
    requires e.Assign? && WellFormed(e) && i <= |s| && Has(s, SkipWs(s, i), Body(e))
    requires SkipWs(s, i) + |Body(e)| <= |s| && Follow(s, SkipWs(s, i) + |Body(e)|, 1)
    ensures Primary(s, i, sh) == Resume(11, e, s, SkipWs(s, i) + |Body(e)|, Eval(e, sh))
    decreases e, 0
  {
    hide Has, Parse, Loop, Ternary, Primary, Operand, Follow, Text, Body, AssignText, ApplyAssign;
    AssignLayout(e, s, i, sh);
    ParseTree(e.rhs, 1, s, SkipWs(s, i) + |e.name| + |e.ws| + |AssignText(e.aop)|, sh);
  }

  /** The whole expression: whatever follows the text, as long as it continues neither an operand
      nor the expression, the parser returns the value of the tree, leaves the variables as the
      tree does, and stops behind the text and its trailing white space; a tree without a value
      stops it for the same reason. */
  lemma ParserInvertsPrinting(e: Expr, s: string, i: nat, sh: Shell)
    requires WellFormed(e) && Has(s, i, Text(e)) && Follow(s, End(i, e), 0)
    requires OpAt(0, s, SkipWs(s, End(i, e))).None?
    ensures Parse(0, s, i, sh) == Finish(Eval(e, sh), SkipWs(s, End(i, e)))
  {
    ParseTree(e, 0, s, i, sh);
    match Eval(e, sh)
    case Abort(_) =>
    case Done(v, sh1) => LoopStops(0, s, End(i, e), v, sh1);
  }

  /** The text of a tree, read on its own. */
  lemma TextEvaluates(e: Expr, sh: Shell)
    requires WellFormed(e)
    ensures Parse(0, Text(e), 0, sh) == Finish(Eval(e, sh), |Text(e)|)
  {
    assert Text(e)[0..|Text(e)|] == Text(e);
    ParserInvertsPrinting(e, Text(e), 0, sh);
  }

  // ----- Parentheses where the grammar needs them ----------------------------------------------

  /** The leaves of the tree are tokens and its layout is white space; nothing is asked about
      precedence. */
  predicate Lexical(e: Expr) {
    match e
    case Num(lead, digits) => Blanks(lead) && Literal(digits)
    case Var(lead, name) => Blanks(lead) && Name(name)
    case Pre(lead, _, ws, name) => Blanks(lead) && Blanks(ws) && Name(name)
    case Post(lead, name, ws, _) => Blanks(lead) && Blanks(ws) && Name(name)
    case Unary(lead, _, arg) => Blanks(lead) && Lexical(arg)
    case Paren(lead, inner, ws) => Blanks(lead) && Blanks(ws) && Lexical(inner)
    case Assign(lead, name, ws, _, rhs) => Blanks(lead) && Blanks(ws) && Name(name) && Lexical(rhs)
    case Bin(l, ws, _, r) => Blanks(ws) && Lexical(l) && Lexical(r)
    case Cond(c, ws, t, ws2, f) => Blanks(ws) && Blanks(ws2) && Lexical(c) && Lexical(t) && Lexical(f)
  }

  /** `e` as an operand of level `l` behind the sign `c`, in parentheses if it needs them. */
  function Wrap(e: Expr, l: nat, c: char): Expr {
    if Prec(e) < l || !Apart(c, Text(e)) then Paren("", e, "") else e
  }

  /** The tree with the parentheses that its operators need and no others added. */
  function Parenthesize(e: Expr): Expr {
    match e
    case Num(_, _) => e
    case Var(_, _) => e
    case Pre(_, _, _, _) => e
    case Post(_, _, _, _) => e
    case Unary(lead, op, arg) => Unary(lead, op, Wrap(Parenthesize(arg), 11, UnText(op)))
    case Paren(lead, inner, ws) => Paren(lead, Parenthesize(inner), ws)
    case Assign(lead, name, ws, op, rhs) => Assign(lead, name, ws, op, Wrap(Parenthesize(rhs), 1, '='))
    case Bin(l, ws, op, r) =>
      Bin(Wrap(Parenthesize(l), Level(op), '='), ws, op, Wrap(Parenthesize(r), Level(op) + 1, OpText(op)[0]))
    case Cond(c, ws, t, ws2, f) =>
      Cond(Wrap(Parenthesize(c), 2, '='), ws, Wrap(Parenthesize(t), 1, '='), ws2, Wrap(Parenthesize(f), 1, '='))
  }

  lemma WrapFits(e: Expr, l: nat, c: char, sh: Shell)
    requires WellFormed(e) && l <= 11
    ensures WellFormed(Wrap(e, l, c)) && Prec(Wrap(e, l, c)) >= l && Apart(c, Text(Wrap(e, l, c)))
    ensures Eval(Wrap(e, l, c), sh) == Eval(e, sh)
  {}

  lemma {:induction false} ParenthesesFit(e: Expr)
    requires Lexical(e)
    ensures WellFormed(Parenthesize(e))
  {
    var sh := Shell(map[], false);
    match e
    case Unary(_, op, arg) => ParenthesesFit(arg); WrapFits(Parenthesize(arg), 11, UnText(op), sh);
    case Paren(_, inner, _) => ParenthesesFit(inner);
    case Assign(_, _, _, _, rhs) => ParenthesesFit(rhs); WrapFits(Parenthesize(rhs), 1, '=', sh);
    case Bin(l, _, op, r) =>
      ParenthesesFit(l); ParenthesesFit(r);
      WrapFits(Parenthesize(l), Level(op), '=', sh);
      WrapFits(Parenthesize(r), Level(op) + 1, OpText(op)[0], sh);
    case Cond(c, _, t, _, f) =>
      ParenthesesFit(c); ParenthesesFit(t); ParenthesesFit(f);
      WrapFits(Parenthesize(c), 2, '=', sh);
      WrapFits(Parenthesize(t), 1, '=', sh);
      WrapFits(Parenthesize(f), 1, '=', sh);
    case _ =>
  }

  lemma EvalWrap(e: Expr, l: nat, c: char, sh: Shell)
    ensures Eval(Wrap(e, l, c), sh) == Eval(e, sh)
  {}

  /** Parentheses change no value and no effect, in any shell. */
  lemma {:induction false} ParenthesesKeepValue(e: Expr, sh: Shell)
    ensures Eval(Parenthesize(e), sh) == Eval(e, sh)
  {
    match e
    case Unary(_, op, arg) => ParenthesesKeepValue(arg, sh);
    case Paren(_, inner, _) => ParenthesesKeepValue(inner, sh);
    case Assign(_, _, _, _, rhs) => ParenthesesKeepValue(rhs, sh);
    case Bin(l, _, op, r) =>
      ParenthesesKeepValue(l, sh);
      EvalWrap(Parenthesize(l), Level(op), '=', sh);
      if Eval(l, sh).Done? {
        ParenthesesKeepValue(r, Eval(l, sh).sh);
        EvalWrap(Parenthesize(r), Level(op) + 1, OpText(op)[0], Eval(l, sh).sh);
      }
    case Cond(c, _, t, _, f) =>
      ParenthesesKeepValue(c, sh);
      EvalWrap(Parenthesize(c), 2, '=', sh);
      if Eval(c, sh).Done? {
        var sh1 := Eval(c, sh).sh;
        ParenthesesKeepValue(t, sh1);
        EvalWrap(Parenthesize(t), 1, '=', sh1);
        if Eval(t, sh1).Done? {
          ParenthesesKeepValue(f, Eval(t, sh1).sh);
          EvalWrap(Parenthesize(f), 1, '=', Eval(t, sh1).sh);
        }
      }
    case _ =>
  }

  /** Every tree whatsoever, printed with the parentheses it needs, evaluates to its own value. */
  lemma PrintedTreesEvaluate(e: Expr, sh: Shell)
    requires Lexical(e)
    ensures var s := Text(Parenthesize(e)); Parse(0, s, 0, sh) == Finish(Eval(e, sh), |s|)
  {
    ParenthesesFit(e);
    ParenthesesKeepValue(e, sh);
    hide *;
    TextEvaluates(Parenthesize(e), sh);
  }
}
