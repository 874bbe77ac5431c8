/** The arithmetic evaluator of the shell: the recursive-descent parser behind `$(( ))`.

    `ArithParser` is the parser object: it advances `pos` over a C string and sets shell
    variables.  `Parse` is its meaning as a function. */
module Arith {
  import opened CStrings
  import opened Options
  import opened Powers

  // ----- Values -------------------------------------------------------------------------------

  const LONG_MAX: int := 0x7fff_ffff_ffff_ffff
  const LONG_MIN: int := -0x8000_0000_0000_0000

  /** Why evaluation ends without a value.  `Overflow` stands for the operations C leaves
      undefined on `long`; `Substitution` for operands that start with `$`. */
  datatype Fault = DivisionByZero | Overflow | Unbound | Substitution

  datatype Shell = Shell(vars: map<string, int>, nounset: bool)

  datatype Value = Val(v: int) | Fail(fault: Fault)

  /** A value together with the shell it leaves behind. */
  datatype Evaluated = Done(v: int, sh: Shell) | Abort(fault: Fault)

  function Long(x: int): Value {
    if LONG_MIN <= x <= LONG_MAX then Val(x) else Fail(Overflow)
  }

  function Bit(b: bool): Value { Val(if b then 1 else 0) }

  function Unsigned(x: int): (u: int)
    ensures 0 <= u < TWO64
  { x % TWO64 }

  function Signed(u: int): int { if u > LONG_MAX then u - TWO64 else u }

  /** C division truncates toward zero; Dafny's is Euclidean. */
  function Quotient(a: int, b: int): int
    requires b != 0
  {
    if a >= 0 then a / b else -((-a) / b)
  }

  function BitAnd(a: int, b: int): int { Signed(Bitwise((x, y) => x && y, Unsigned(a), Unsigned(b), 64)) }
  function BitOr(a: int, b: int): int { Signed(Bitwise((x, y) => x || y, Unsigned(a), Unsigned(b), 64)) }
  function BitXor(a: int, b: int): int { Signed(Bitwise((x, y) => x != y, Unsigned(a), Unsigned(b), 64)) }

  // ----- Operators ----------------------------------------------------------------------------

  datatype Op =
    | Comma
    | LogOr | LogAnd | Or | Xor | And
    | Le | Ge | Lt | Gt | Eq | Ne
    | Shl | Shr | Add | Sub | Mul | Div | Mod

  datatype UnOp = Neg | Plus | Not | Compl

  datatype AssignOp = Set | AddTo | SubTo | MulTo | DivTo | ModTo | ShlTo | ShrTo | AndTo | OrTo | XorTo

  /** The nonterminals, loosest first: 0 is `arith_expr`, 1 `arith_ternary`, 2 `arith_logical_or`,
      ... 10 `arith_mul`, 11 `arith_primary`. */
  function Level(op: Op): (l: nat)
    ensures l == 0 || 2 <= l <= 10
  {
    match op
    case Comma => 0
    case LogOr => 2
    case LogAnd => 3
    case Or => 4
    case Xor => 5
    case And => 6
    case Le | Ge | Lt | Gt | Eq | Ne => 7
    case Shl | Shr => 8
    case Add | Sub => 9
    case Mul | Div | Mod => 10
  }

  function OpText(op: Op): (t: string)
    ensures 1 <= |t| <= 2
  {
    match op
    case Comma => ","
    case LogOr => "||" case LogAnd => "&&" case Or => "|" case Xor => "^" case And => "&"
    case Le => "<=" case Ge => ">=" case Lt => "<" case Gt => ">" case Eq => "==" case Ne => "!="
    case Shl => "<<" case Shr => ">>" case Add => "+" case Sub => "-"
    case Mul => "*" case Div => "/" case Mod => "%"
  }

  /** Both operands have been evaluated: `&&`, `||` and `,` are strict here. */
  function Apply(op: Op, a: int, b: int): Value {
    match op
    case Comma => Val(b)
    case LogOr => Bit(a != 0 || b != 0)
    case LogAnd => Bit(a != 0 && b != 0)
    case Or => Val(BitOr(a, b))
    case Xor => Val(BitXor(a, b))
    case And => Val(BitAnd(a, b))
    case Le => Bit(a <= b)
    case Ge => Bit(a >= b)
    case Lt => Bit(a < b)
    case Gt => Bit(a > b)
    case Eq => Bit(a == b)
    case Ne => Bit(a != b)
    case Shl => Val(if 0 <= b < 64 then Signed(Unsigned(Unsigned(a) * Pow2(b))) else 0)
    case Shr => Val(if 0 <= b < 64 then a / Pow2(b) else 0)
    case Add => Long(a + b)
    case Sub => Long(a - b)
    case Mul => Long(a * b)
    case Div => if b == 0 then Fail(DivisionByZero) else Long(Quotient(a, b))
    case Mod => if b == 0 then Fail(DivisionByZero)
                else if a == LONG_MIN && b == -1 then Fail(Overflow)
                else Val(a - b * Quotient(a, b))
  }

  function ApplyUnary(op: UnOp, a: int): Value {
    match op
    case Neg => Long(-a)
    case Plus => Val(a)
    case Not => Bit(a == 0)
    case Compl => Long(-a - 1)
  }

  /** Compound assignment shifts with the bare C operators, unlike `arith_shift`. */
  function ApplyAssign(op: AssignOp, cur: int, rhs: int): Value {
    match op
    case Set => Val(rhs)
    case AddTo => Apply(Add, cur, rhs)
    case SubTo => Apply(Sub, cur, rhs)
    case MulTo => Apply(Mul, cur, rhs)
    case DivTo => Apply(Div, cur, rhs)
    case ModTo => Apply(Mod, cur, rhs)
    case ShlTo => if 0 <= rhs < 64 && 0 <= cur then Long(cur * Pow2(rhs)) else Fail(Overflow)
    case ShrTo => if 0 <= rhs < 64 then Val(cur / Pow2(rhs)) else Fail(Overflow)
    case AndTo => Apply(And, cur, rhs)
    case OrTo => Apply(Or, cur, rhs)
    case XorTo => Apply(Xor, cur, rhs)
  }

  // ----- Characters and tokens ----------------------------------------------------------------

  predicate Blank(c: char) { c == ' ' || c == '\t' || c == '\n' || c == '\r' }

  function SkipWs(s: string, i: nat): (k: nat)
    requires i <= |s|
    ensures i <= k <= |s| && !Blank(At(s, k))
    decreases |s| - i
  {
    if Blank(At(s, i)) then SkipWs(s, i + 1) else i
  }

  function DigitValue(c: char): nat {
    if Digit(c) then c as nat - '0' as nat
    else if 'a' <= c <= 'f' then c as nat - 'a' as nat + 10
    else if 'A' <= c <= 'F' then c as nat - 'A' as nat + 10
    else 99
  }

  function DigitsEnd(s: string, i: nat, base: nat): (k: nat)
    requires i <= |s| && base <= 16
    ensures i <= k <= |s| && DigitValue(At(s, k)) >= base
    decreases |s| - i
  {
    if DigitValue(At(s, i)) < base then DigitsEnd(s, i + 1, base) else i
  }

  function DigitsValue(t: string, base: nat): nat {
    if t == [] then 0 else DigitsValue(t[..|t| - 1], base) * base + DigitValue(t[|t| - 1])
  }

  predicate HexAt(s: string, i: nat) {
    At(s, i) == '0' && (At(s, i + 1) == 'x' || At(s, i + 1) == 'X') && DigitValue(At(s, i + 2)) < 16
  }

  /** `strtol(.., 0)` on an unsigned literal: its end, and its value, which saturates. */
  function LiteralEnd(s: string, i: nat): (k: nat)
    requires i < |s| && Digit(s[i])
    ensures i < k <= |s|
  {
    if HexAt(s, i) then DigitsEnd(s, i + 2, 16)
    else if s[i] == '0' then DigitsEnd(s, i, 8)
    else DigitsEnd(s, i, 10)
  }

  function LiteralValue(t: string): (v: int)
    requires t != []
  {
    var n := if HexAt(t, 0) then DigitsValue(t[2..], 16)
             else if t[0] == '0' then DigitsValue(t, 8)
             else DigitsValue(t, 10);
    if n > LONG_MAX then LONG_MAX else n
  }

  /** The operator that the loop of nonterminal `l` recognises at `k`, with its lookahead. */
  function OpAt(l: nat, s: string, k: nat): (o: Option<Op>)
    requires k <= |s|
    ensures o.Some? ==> Level(o.value) == l && k + |OpText(o.value)| <= |s|
  {
    var c, d, e := At(s, k), At(s, k + 1), At(s, k + 2);
    match l
    case 0 => if c == ',' then Some(Comma) else None
    case 2 => if c == '|' && d == '|' then Some(LogOr) else None
    case 3 => if c == '&' && d == '&' then Some(LogAnd) else None
    case 4 => if c == '|' && d != '|' && d != '=' then Some(Or) else None
    case 5 => if c == '^' && d != '=' then Some(Xor) else None
    case 6 => if c == '&' && d != '&' && d != '=' then Some(And) else None
    case 7 =>
      if c == '<' && d == '=' then Some(Le)
      else if c == '>' && d == '=' then Some(Ge)
      else if c == '<' && d != '<' && d != '=' then Some(Lt)
      else if c == '>' && d != '>' && d != '=' then Some(Gt)
      else if c == '=' && d == '=' then Some(Eq)
      else if c == '!' && d == '=' then Some(Ne)
      else None
    case 8 =>
      if c == '<' && d == '<' && e != '=' then Some(Shl)
      else if c == '>' && d == '>' && e != '=' then Some(Shr)
      else None
    case 9 =>
      if (c == '+' || c == '-') && d != c && d != '=' then Some(if c == '+' then Add else Sub) else None
    case 10 =>
      if c == '*' then Some(Mul) else if c == '/' then Some(Div) else if c == '%' then Some(Mod) else None
    case _ => None
  }

  function AssignAt(s: string, k: nat): (o: Option<AssignOp>)
    requires k <= |s|
    ensures o.Some? ==> k + |AssignText(o.value)| <= |s|
  {
    var c, d, e := At(s, k), At(s, k + 1), At(s, k + 2);
    if c == '<' && d == '<' && e == '=' then Some(ShlTo)
    else if c == '>' && d == '>' && e == '=' then Some(ShrTo)
    else if c == '+' && d == '=' then Some(AddTo)
    else if c == '-' && d == '=' then Some(SubTo)
    else if c == '*' && d == '=' then Some(MulTo)
    else if c == '/' && d == '=' then Some(DivTo)
    else if c == '%' && d == '=' then Some(ModTo)
    else if c == '&' && d == '=' then Some(AndTo)
    else if c == '|' && d == '=' then Some(OrTo)
    else if c == '^' && d == '=' then Some(XorTo)
    else if c == '=' && d != '=' then Some(Set)
    else None
  }

  function AssignText(op: AssignOp): (t: string)
    ensures 1 <= |t| <= 3
  {
    match op
    case Set => "=" case AddTo => "+=" case SubTo => "-=" case MulTo => "*=" case DivTo => "/="
    case ModTo => "%=" case ShlTo => "<<=" case ShrTo => ">>=" case AndTo => "&=" case OrTo => "|="
    case XorTo => "^="
  }

  function UnText(op: UnOp): char {
    match op case Neg => '-' case Plus => '+' case Not => '!' case Compl => '~'
  }

  // ----- The parser as a function -------------------------------------------------------------

  datatype Outcome = Ok(v: int, pos: nat, sh: Shell) | Stop(fault: Fault)

  function Read(sh: Shell, name: string): Value {
    if name in sh.vars then Val(sh.vars[name])
    else if sh.nounset then Fail(Unbound)
    else Val(0)
  }

  function Store(sh: Shell, name: string, v: int): Shell { sh.(vars := sh.vars[name := v]) }

  /** `++` and `--`: the shell variable moves by `delta` from `from`; `result` is returned. */
  function Bump(sh: Shell, name: string, from: int, delta: int, post: bool): Evaluated {
    match Long(from + delta)
    case Val(n) => Done(if post then from else n, Store(sh, name, n))
    case Fail(f) => Abort(f)
  }

  /** What nonterminal `l` returns from position `pos`. */
  function Parse(l: nat, s: string, pos: nat, sh: Shell): (o: Outcome)
    requires pos <= |s| && l <= 11
    ensures o.Ok? ==> pos <= o.pos <= |s|
    decreases |s| - pos, 2 * (11 - l) + 2
  {
    if l == 11 then Primary(s, pos, sh)
    else match Parse(l + 1, s, pos, sh)
      case Stop(f) => Stop(f)
      case Ok(v, p, sh1) => if l == 1 then Ternary(s, p, v, sh1) else Loop(l, s, p, v, sh1)
  }

  /** The loop of a left-associative nonterminal, entered with `left` already computed. */
  function Loop(l: nat, s: string, pos: nat, left: int, sh: Shell): (o: Outcome)
    requires pos <= |s| && l <= 10 && l != 1
    ensures o.Ok? ==> pos <= o.pos <= |s|
    decreases |s| - pos, 2 * (11 - l) + 1
  {
    var k := SkipWs(s, pos);
    match OpAt(l, s, k)
    case None => Ok(left, k, sh)
    case Some(op) =>
      match Parse(l + 1, s, k + |OpText(op)|, sh)
      case Stop(f) => Stop(f)
      case Ok(right, p, sh1) =>
        match Apply(op, left, right)
        case Fail(f) => Stop(f)
        case Val(v) => Loop(l, s, p, v, sh1)
  }

  /** The part of `arith_ternary` after the condition.  Both branches are evaluated. */
  function Ternary(s: string, pos: nat, cond: int, sh: Shell): (o: Outcome)
    requires pos <= |s|
    ensures o.Ok? ==> pos <= o.pos <= |s|
    decreases |s| - pos, 21
  {
    var k := SkipWs(s, pos);
    if At(s, k) != '?' then Ok(cond, k, sh) else
    match Parse(1, s, k + 1, sh)
    case Stop(f) => Stop(f)
    case Ok(t, p, sh1) =>
      var q := SkipWs(s, p);
      match Parse(1, s, if At(s, q) == ':' then q + 1 else q, sh1)
      case Stop(f) => Stop(f)
      case Ok(f, r, sh2) => Ok(if cond != 0 then t else f, r, sh2)
  }

  function Primary(s: string, pos: nat, sh: Shell): (o: Outcome)
    requires pos <= |s|
    ensures o.Ok? ==> pos <= o.pos <= |s|
    decreases |s| - pos, 1
  {
    var i := SkipWs(s, pos);
    var c, d := At(s, i), At(s, i + 1);
    if c == '(' then
      match Parse(0, s, i + 1, sh)
      case Stop(f) => Stop(f)
      case Ok(v, p, sh1) =>
        var q := SkipWs(s, p);
        Ok(v, if At(s, q) == ')' then q + 1 else q, sh1)
    else if (c == '+' || c == '-') && d == c then
      var n := SkipWs(s, i + 2);
      var e := NameEnd(s, n);
      var name := s[n..e];
      Finish(Bump(sh, name, if name in sh.vars then sh.vars[name] else 0, if c == '+' then 1 else -1, false), e)
    else if c == '-' || c == '+' || c == '!' || c == '~' then
      match Primary(s, i + 1, sh)
      case Stop(f) => Stop(f)
      case Ok(v, p, sh1) =>
        match ApplyUnary(if c == '-' then Neg else if c == '+' then Plus else if c == '!' then Not else Compl, v)
        case Fail(f) => Stop(f)
        case Val(w) => Ok(w, p, sh1)
    else if c == '$' then Stop(Substitution)
    else if NameStart(c) then Operand(s, i, sh)
    else if Digit(c) then var e := LiteralEnd(s, i); Ok(LiteralValue(s[i..e]), e, sh)
    else Ok(0, i, sh)
  }

  /** A variable operand: a read, a post-increment or -decrement, or an assignment. */
  function Operand(s: string, i: nat, sh: Shell): (o: Outcome)
    requires i < |s| && NameStart(s[i])
    ensures o.Ok? ==> i < o.pos <= |s|
    decreases |s| - i, 0
  {
    var e := NameEnd(s, i);
    if At(s, e) == '$' then Stop(Substitution) else
    var name := s[i..e];
    var k := SkipWs(s, e);
    var c, d := At(s, k), At(s, k + 1);
    if Read(sh, name).Fail? && !(c == '=' && d != '=') then Stop(Unbound) else
    var cur := if name in sh.vars then sh.vars[name] else 0;
    if (c == '+' || c == '-') && d == c then
      Finish(Bump(sh, name, cur, if c == '+' then 1 else -1, true), k + 2)
    else
      match AssignAt(s, k)
      case None => Ok(cur, k, sh)
      case Some(op) =>
        match Parse(1, s, k + |AssignText(op)|, sh)
        case Stop(f) => Stop(f)
        case Ok(rhs, p, sh1) =>
          match ApplyAssign(op, cur, rhs)
          case Fail(f) => Stop(f)
          case Val(v) => Ok(v, p, Store(sh1, name, v))
  }

  function Finish(r: Evaluated, pos: nat): Outcome {
    match r
    case Done(v, sh) => Ok(v, pos, sh)
    case Abort(f) => Stop(f)
  }

  // ----- The parser object --------------------------------------------------------------------

  class ArithParser {
    const src: string
    var pos: nat
    var sh: Shell

    constructor (src: string, sh: Shell)
      ensures this.src == src && this.pos == 0 && this.sh == sh
    {
      this.src, this.pos, this.sh := src, 0, sh;
    }

    ghost predicate Valid()
      reads this
    { pos <= |src| }

    /** The result of a method against the function: the value, the cursor and the shell, or the
        reason for which the shell gives up. */
    ghost predicate Agrees(r: Value, o: Outcome)
      reads this
    {
      match o
      case Ok(v, p, sh1) => r == Val(v) && pos == p && sh == sh1
      case Stop(f) => r == Fail(f)
    }

    method SkipBlank()
      requires Valid()
      modifies this`pos
      ensures Valid() && pos == SkipWs(src, old(pos))
    {
      while Blank(At(src, pos))
        invariant Valid() && SkipWs(src, pos) == SkipWs(src, old(pos))
        decreases |src| - pos
      {
        pos := pos + 1;
      }
    }

    method ReadName() returns (name: string)
      requires Valid()
      modifies this`pos
      ensures Valid() && pos == NameEnd(src, old(pos)) && name == src[old(pos)..pos]
    {
      name := "";
      while NameChar(At(src, pos))
        invariant old(pos) <= pos <= |src| && NameEnd(src, pos) == NameEnd(src, old(pos))
        invariant name == src[old(pos)..pos]
        decreases |src| - pos
      {
        name := name + [src[pos]];
        pos := pos + 1;
      }
    }

    /** The eight loop nonterminals, `arith_mul` up to `arith_logical_or`, and the `,` of `arith_expr`:
        they differ in the operators they recognise and in the nonterminal of their operands. */
    method LeftAssociative(l: nat) returns (r: Value)
      requires Valid() && l <= 10 && l != 1
      modifies this
      ensures Valid() && Agrees(r, Parse(l, src, old(pos), old(sh)))
      decreases |src| - pos, 2 * (11 - l) + 2
    {
      hide Primary, Operand, Ternary, OpAt, OpText, Apply;
      r := Nonterminal(l + 1);
      if r.Fail? { return; }
      var left := r.v;
      while true
        invariant old(pos) <= pos <= |src|
        invariant Parse(l, src, old(pos), old(sh)) == Loop(l, src, pos, left, sh)
        decreases |src| - pos
      {
        SkipBlank();
        var op := OpAt(l, src, pos);
        if op.None? { return Val(left); }
        pos := pos + |OpText(op.value)|;
        r := Nonterminal(l + 1);
        if r.Fail? { return; }
        r := Apply(op.value, left, r.v);
        if r.Fail? { return; }
        left := r.v;
      }
    }

    method TernaryExpr() returns (r: Value)
      requires Valid()
      modifies this
      ensures Valid() && Agrees(r, Parse(1, src, old(pos), old(sh)))
      decreases |src| - pos, 22
    {
      r := Nonterminal(2);
      if r.Fail? { return; }
      var cond := r.v;
      SkipBlank();
      if At(src, pos) != '?' { return Val(cond); }
      pos := pos + 1;
      r := Nonterminal(1);
      if r.Fail? { return; }
      var t := r.v;
      SkipBlank();
      if At(src, pos) == ':' { pos := pos + 1; }
      r := Nonterminal(1);
      if r.Val? { r := Val(if cond != 0 then t else r.v); }
    }

    method Nonterminal(l: nat) returns (r: Value)
      requires Valid() && l <= 11
      modifies this
      ensures Valid() && Agrees(r, Parse(l, src, old(pos), old(sh)))
      decreases |src| - pos, 2 * (11 - l) + 3
    {
      if l == 11 {
        r := PrimaryExpr();
      } else if l == 1 {
        r := TernaryExpr();
      } else {
        r := LeftAssociative(l);
      }
    }

    method Update(name: string, from: int, delta: int, post: bool) returns (r: Value)
      modifies this`sh
      ensures match Bump(old(sh), name, from, delta, post)
        case Done(v, sh1) => r == Val(v) && sh == sh1
        case Abort(f) => r == Fail(f) && sh == old(sh)
    {
      r := Long(from + delta);
      if r.Fail? { return; }
      sh := Store(sh, name, r.v);
      if post { r := Val(from); }
    }

    method PrimaryExpr() returns (r: Value)
      requires Valid()
      modifies this
      ensures Valid() && Agrees(r, Primary(src, old(pos), old(sh)))
      decreases |src| - pos, 1
    {
      hide Parse, Loop, Ternary, Operand, ApplyUnary, Bump, LiteralValue, LiteralEnd, NameEnd, SkipWs;
      SkipBlank();
      var c := At(src, pos);
      if c == '(' {
        pos := pos + 1;
        r := Nonterminal(0);
        if r.Fail? { return; }
        SkipBlank();
        if At(src, pos) == ')' { pos := pos + 1; }
      } else if (c == '+' || c == '-') && At(src, pos + 1) == c {
        pos := pos + 2;
        SkipBlank();
        var name := ReadName();
        r := Update(name, if name in sh.vars then sh.vars[name] else 0, if c == '+' then 1 else -1, false);
      } else if c == '-' || c == '+' || c == '!' || c == '~' {
        pos := pos + 1;
        r := PrimaryExpr();
        if r.Fail? { return; }
        r := ApplyUnary(if c == '-' then Neg else if c == '+' then Plus else if c == '!' then Not else Compl, r.v);
      } else if c == '$' {
        r := Fail(Substitution);
      } else if NameStart(c) {
        r := VariableOperand();
      } else if Digit(c) {
        var e := LiteralEnd(src, pos);
        r := Val(LiteralValue(src[pos..e]));
        pos := e;
      } else {
        r := Val(0);
      }
    }

    method VariableOperand() returns (r: Value)
      requires Valid() && pos < |src| && NameStart(src[pos])
      modifies this
      ensures Valid() && Agrees(r, Operand(src, old(pos), old(sh)))
      decreases |src| - pos, 0
    {
      hide Parse, Loop, Ternary, Primary, ApplyAssign, AssignAt, AssignText, Bump;
      var name := ReadName();
      if At(src, pos) == '$' { return Fail(Substitution); }
      SkipBlank();
      var c, d := At(src, pos), At(src, pos + 1);
      if name !in sh.vars && sh.nounset && !(c == '=' && d != '=') { return Fail(Unbound); }
      var cur := if name in sh.vars then sh.vars[name] else 0;
      if (c == '+' || c == '-') && d == c {
        pos := pos + 2;
        r := Update(name, cur, if c == '+' then 1 else -1, true);
        return;
      }
      var op := AssignAt(src, pos);
      if op.None? { return Val(cur); }
      pos := pos + |AssignText(op.value)|;
      r := Nonterminal(1);
      if r.Fail? { return; }
      r := ApplyAssign(op.value, cur, r.v);
      if r.Val? { sh := Store(sh, name, r.v); }
    }
  }
}
