/** What the operators of `$(( ))` mean.

    The evaluator and the parser share the operator tables of `Arith`.  Here those tables are held against
    laws that do not mention how they are written: ring laws, the division identity, a total order, bits in
    two's complement, truth tables, and compound assignment as operator and store.  Numerals are printed by
    repeated division, and the operators are named by their texts, so that the last section says what a
    written calculation gives. */
module ArithLaws {
  import opened Arith
  import opened ArithTrees
  import opened CStrings
  import opened Powers

  predicate IsLong(x: int) { LONG_MIN <= x <= LONG_MAX }

  // ----- Sums, products and quotients ---------------------------------------------------------

  /** `Add` is pinned by 0, the successor and commutativity; it fails exactly when the sum has no room. */
  lemma Addition(a: int, b: int)
    requires IsLong(a) && IsLong(b)
    ensures Apply(Add, a, 0) == Val(a) && Apply(Add, a, b) == Apply(Add, b, a)
    ensures Apply(Add, a, 1) == (if a == LONG_MAX then Fail(Overflow) else Val(a + 1))
    ensures var s := Apply(Add, a, b);
      s.Val? && b < LONG_MAX ==> IsLong(s.v) && Apply(Add, a, b + 1) == Apply(Add, s.v, 1)
    ensures Apply(Add, a, b).Fail? <==> (b > 0 && LONG_MAX - b < a) || (b < 0 && a < LONG_MIN - b)
  {}

  /** Subtraction undoes addition, and addition subtraction; unary minus is subtraction from 0. */
  lemma Subtraction(a: int, b: int, v: int)
    requires IsLong(a) && IsLong(b) && IsLong(v)
    ensures Apply(Sub, a, b) == Val(v) <==> Apply(Add, v, b) == Val(a)
    ensures ApplyUnary(Neg, a) == Apply(Sub, 0, a) && ApplyUnary(Plus, a) == Val(a)
    ensures Apply(Sub, a, b) == Apply(Sub, v, 0) <==> Apply(Add, v, b) == Apply(Add, a, 0)
  {}

  /** `Mul` is pinned by 0, 1, commutativity and distribution over `Add`. */
  lemma Multiplication(a: int, b: int, c: int)
    requires IsLong(a) && IsLong(b) && IsLong(c)
    ensures Apply(Mul, a, 0) == Val(0) && Apply(Mul, a, 1) == Val(a) && Apply(Mul, a, b) == Apply(Mul, b, a)
    ensures Apply(Mul, a, -1) == ApplyUnary(Neg, a)
    ensures var p, q, s := Apply(Mul, a, b), Apply(Mul, a, c), Apply(Add, b, c);
      p.Val? && q.Val? && s.Val? ==> Apply(Mul, a, s.v) == Apply(Add, p.v, q.v)
  {
    assert a * (b + c) == a * b + a * c;
  }

  function Abs(x: int): nat { if x < 0 then -x else x }

  /** Division cuts toward zero: the remainder is smaller than the divisor and has the sign of the dividend. */
  lemma Division(a: int, b: int)
    requires IsLong(a) && IsLong(b)
    ensures b == 0 ==> Apply(Div, a, b) == Apply(Mod, a, b) == Fail(DivisionByZero)
    ensures a == LONG_MIN && b == -1 ==> Apply(Div, a, b) == Apply(Mod, a, b) == Fail(Overflow)
    ensures b != 0 && !(a == LONG_MIN && b == -1) ==>
      var q, r := Apply(Div, a, b), Apply(Mod, a, b);
      && q.Val? && r.Val? && IsLong(q.v) && IsLong(r.v)
      && a == b * q.v + r.v && Abs(r.v) < Abs(b) && (r.v == 0 || (r.v < 0 <==> a < 0))
  {
    if b != 0 { QuotientCuts(a, b); }
  }

  lemma QuotientCuts(a: int, b: int)
    requires IsLong(a) && IsLong(b) && b != 0
    ensures IsLong(Quotient(a, b)) || (a == LONG_MIN && b == -1)
    ensures a - b * Quotient(a, b) == if a < 0 then -(-a % b) else a % b
    ensures a == LONG_MIN && b == -1 ==> !IsLong(Quotient(a, b))
  {
    var x := Abs(a);
    var q := x / b;
    var p := b * q;
    DivIdentity(x, b);
    NegatedFactor(b, q);
    ProductGrows(b, q);
    assert Quotient(a, b) == if a < 0 then -q else q;
  }

  lemma NegatedFactor(b: int, q: int)
    ensures b * -q == -(b * q)
  {}

  lemma AbsProduct(b: int, q: int)
    ensures Abs(b * q) == Abs(b) * Abs(q)
  {
    NegatedFactor(b, q);
    NegatedFactor(-b, q);
    if b >= 0 && q >= 0 { NonNegative(b, q); }
    if b >= 0 && q < 0 { NonNegative(b, -q); }
    if b < 0 && q >= 0 { NonNegative(-b, q); }
    if b < 0 && q < 0 { NonNegative(-b, -q); }
  }

  lemma Grows(m: nat, n: nat, k: nat)
    requires m >= k
    ensures m * n >= k * n
  {
    NonNegative(m - k, n);
    assert m * n == k * n + (m - k) * n;
  }

  lemma ProductGrows(b: int, q: int)
    requires b != 0
    ensures Abs(b * q) >= Abs(q) && (Abs(b) > 1 ==> Abs(b * q) >= 2 * Abs(q))
    ensures b * q >= 0 && b < 0 ==> q <= 0
    ensures b * q >= 0 && b > 0 ==> q >= 0
  {
    AbsProduct(b, q);
    Grows(Abs(b), Abs(q), 1);
    if Abs(b) > 1 { Grows(Abs(b), Abs(q), 2); }
    if b < 0 && q > 0 { NegatedFactor(-b, q); Grows(-b, q, 1); }
    if b > 0 && q < 0 { NegatedFactor(b, q); Grows(b, -q, 1); }
  }

  // ----- Comparisons and truth values ---------------------------------------------------------

  predicate Yes(op: Op, a: int, b: int) { Apply(op, a, b) == Val(1) }

  predicate Compares(op: Op) { op in {Lt, Le, Gt, Ge, Eq, Ne} }

  /** The six comparisons answer 0 or 1 and are one total order, that of the sign of the difference. */
  lemma Comparisons(a: int, b: int, op: Op)
    requires IsLong(a) && IsLong(b)
    ensures Compares(op) && !Yes(op, a, b) ==> Apply(op, a, b) == Val(0)
    ensures Yes(Gt, a, b) <==> Yes(Lt, b, a)
    ensures Yes(Le, a, b) <==> !Yes(Gt, a, b)
    ensures Yes(Ge, a, b) <==> !Yes(Lt, a, b)
    ensures Yes(Ne, a, b) <==> !Yes(Eq, a, b)
    ensures Yes(Eq, a, b) <==> Apply(Sub, a, b) == Val(0)
    ensures Yes(Lt, a, b) ==> !Yes(Eq, a, b) && !Yes(Gt, a, b)
    ensures Yes(Le, a, b) <==> Yes(Lt, a, b) || Yes(Eq, a, b)
    ensures var d := Apply(Sub, a, b); d.Val? ==> (Yes(Lt, a, b) <==> d.v < 0)
    ensures a < LONG_MAX ==> Yes(Lt, a, Apply(Add, a, 1).v) && (Yes(Lt, a, b) <==> Yes(Le, Apply(Add, a, 1).v, b))
  {}

  lemma LessIsTransitive(a: int, b: int, c: int)
    requires Yes(Lt, a, b) && Yes(Lt, b, c)
    ensures Yes(Lt, a, c)
  {}

  /** The truth tables, on every pair of zero and nonzero operands, and the sequence operator. */
  lemma TruthTables(a: int, b: int)
    requires a != 0 && b != 0
    ensures Apply(LogAnd, 0, 0) == Apply(LogAnd, 0, b) == Apply(LogAnd, a, 0) == Val(0)
    ensures Apply(LogAnd, a, b) == Val(1)
    ensures Apply(LogOr, 0, 0) == Val(0)
    ensures Apply(LogOr, 0, b) == Apply(LogOr, a, 0) == Apply(LogOr, a, b) == Val(1)
    ensures ApplyUnary(Not, 0) == Val(1) && ApplyUnary(Not, a) == Val(0)
    ensures Apply(Comma, a, b) == Apply(Comma, 0, b) == Val(b) && Apply(Comma, a, 0) == Val(0)
  {}

  // ----- Bits ---------------------------------------------------------------------------------

  lemma WordBits(x: int, i: nat)
    requires i < 64
    ensures BitOf(Unsigned(x), i) == BitOf(x, i) && BitOf(Signed(x), i) == BitOf(x, i)
  {
    Pow2Of64();
    LowBits(x, -(x / TWO64), 64, i);
    assert x + -(x / TWO64) * TWO64 == Unsigned(x);
    LowBits(x, -1, 64, i);
  }

  /** From bit 63 on, the bits of a `long` are its sign. */
  lemma {:induction false} SignBits(x: int, n: nat, i: nat)
    requires 0 <= x + Pow2(n) < 2 * Pow2(n) && i >= n
    ensures BitOf(x, i) <==> x < 0
    decreases i
  {
    if i > 0 {
      if n > 0 { SignBits(x / 2, n - 1, i - 1); } else { SignBits(x / 2, 0, i - 1); }
    }
  }

  lemma {:induction false} BitwiseBits(f: (bool, bool) -> bool, a: nat, b: nat, n: nat, i: nat)
    requires i < n
    ensures BitOf(Bitwise(f, a, b, n), i) == f(BitOf(a, i), BitOf(b, i))
  {
    var r := Bitwise(f, a / 2, b / 2, n - 1);
    assert Bitwise(f, a, b, n) / 2 == r;
    if i > 0 { BitwiseBits(f, a / 2, b / 2, n - 1, i - 1); }
  }

  lemma SignedIsLong(u: int)
    requires 0 <= u < TWO64
    ensures IsLong(Signed(u))
  {}

  lemma LongBits(v: int, i: nat)
    requires IsLong(v)
    ensures BitOf(v, i) == BitOf(v, if i < 64 then i else 63)
  {
    Pow2Of64();
    if i >= 64 { SignBits(v, 63, i); SignBits(v, 63, 63); }
  }

  lemma BitsOfBitwise(f: (bool, bool) -> bool, a: int, b: int, i: nat)
    requires IsLong(a) && IsLong(b)
    ensures var v := Signed(Bitwise(f, Unsigned(a), Unsigned(b), 64));
      IsLong(v) && BitOf(v, i) == f(BitOf(a, i), BitOf(b, i))
  {
    hide Bitwise, BitOf;
    var u := Bitwise(f, Unsigned(a), Unsigned(b), 64);
    Pow2Of64();
    SignedIsLong(u);
    var j := if i < 64 then i else 63;
    LongBits(Signed(u), i); LongBits(a, i); LongBits(b, i);
    WordBits(u, j); WordBits(a, j); WordBits(b, j);
    BitwiseBits(f, Unsigned(a), Unsigned(b), 64, j);
  }

  /** `&`, `|`, `^` and `~` work bit by bit, on the sign bits too. */
  lemma BitOperators(a: int, b: int, i: nat)
    requires IsLong(a) && IsLong(b)
    ensures var v := Apply(And, a, b); v.Val? && IsLong(v.v) && (BitOf(v.v, i) <==> BitOf(a, i) && BitOf(b, i))
    ensures var v := Apply(Or, a, b); v.Val? && IsLong(v.v) && (BitOf(v.v, i) <==> BitOf(a, i) || BitOf(b, i))
    ensures var v := Apply(Xor, a, b); v.Val? && IsLong(v.v) && (BitOf(v.v, i) <==> BitOf(a, i) != BitOf(b, i))
    ensures var v := ApplyUnary(Compl, a); v.Val? && IsLong(v.v) && (BitOf(v.v, i) <==> !BitOf(a, i))
  {
    hide Bitwise, BitOf, Signed, Unsigned;
    BitsOfBitwise((x, y) => x && y, a, b, i);
    BitsOfBitwise((x, y) => x || y, a, b, i);
    BitsOfBitwise((x, y) => x != y, a, b, i);
    ComplementBits(a, i);
  }

  lemma {:induction false} ComplementBits(a: int, i: nat)
    ensures BitOf(-a - 1, i) <==> !BitOf(a, i)
    decreases i
  {
    if i > 0 {
      assert (-a - 1) / 2 == -(a / 2) - 1;
      ComplementBits(a / 2, i - 1);
    }
  }

  lemma {:induction false} DoubledBits(x: int, b: nat, i: nat)
    ensures BitOf(x * Pow2(b), i) <==> i >= b && BitOf(x, i - b)
    decreases b
  {
    if b > 0 {
      assert x * Pow2(b) == 2 * (x * Pow2(b - 1));
      if i > 0 { DoubledBits(x, b - 1, i - 1); }
    }
  }

  lemma ShlIsLong(a: int, b: nat)
    requires b < 64
    ensures Apply(Shl, a, b) == Val(Signed(Unsigned(Unsigned(a) * Pow2(b)))) && IsLong(Apply(Shl, a, b).v)
  {}

  /** `<<` moves the bits up, out of the word or into its sign; `>>` moves them down and repeats the sign;
      a count outside of the word gives 0. */
  lemma Shifts(a: int, b: int, i: nat)
    requires IsLong(a)
    ensures !(0 <= b < 64) ==> Apply(Shl, a, b) == Apply(Shr, a, b) == Val(0)
    ensures var v := Apply(Shl, a, b); 0 <= b < 64 ==>
      v.Val? && IsLong(v.v) && (i < 64 ==> (BitOf(v.v, i) <==> i >= b && BitOf(a, i - b)))
    ensures var v := Apply(Shr, a, b); 0 <= b < 64 ==> v.Val? && BitOf(v.v, i) == BitOf(a, i + b)
  {
    if 0 <= b < 64 {
      hide BitOf, Signed, Unsigned;
      ShlIsLong(a, b);
      HalvedBits(a, b, i);
      if i < 64 {
        var u := Unsigned(a) * Pow2(b);
        WordBits(Unsigned(u), i);
        WordBits(u, i);
        DoubledBits(Unsigned(a), b, i);
        if i >= b { WordBits(a, i - b); }
      }
    }
  }

  /** One more `<<` doubles, if there is room; one more `>>` halves, rounding down. */
  lemma ShiftsByOne(a: int, b: nat)
    requires IsLong(a) && b < 63
    ensures Apply(Shl, a, 0) == Apply(Shr, a, 0) == Val(a)
    ensures var v, w := Apply(Shr, a, b), Apply(Shr, a, b + 1);
      v.Val? && w.Val? && 2 * w.v <= v.v <= 2 * w.v + 1
    ensures var v, w := Apply(Shl, a, b), Apply(Shl, a, b + 1);
      v.Val? && w.Val? && (IsLong(2 * v.v) ==> Apply(Add, v.v, v.v) == w)
  {
    ShiftValues(a, b);
    ShiftValues(a, b + 1);
    ShiftValues(a, 0);
    SignedUnsigned(a);
    var x := Unsigned(a) * Pow2(b);
    assert Pow2(0) == 1 && Pow2(b + 1) == 2 * Pow2(b);
    hide Signed, Unsigned, Pow2;
    Doubled(Unsigned(a), Pow2(b));
    QuotientTwice(a, Pow2(b), 2);
    DoubledWord(x);
  }

  lemma ShiftValues(a: int, b: nat)
    requires b < 64
    ensures Apply(Shl, a, b) == Val(Signed(Unsigned(Unsigned(a) * Pow2(b)))) && Apply(Shr, a, b) == Val(a / Pow2(b))
  { hide Signed, Unsigned, Pow2; }

  lemma Doubled(u: nat, p: nat)
    ensures u * (2 * p) == 2 * (u * p) && u * 1 == u
  {}

  lemma SignedUnsigned(a: int)
    requires IsLong(a)
    ensures Signed(Unsigned(a)) == a && Unsigned(Unsigned(a)) == Unsigned(a)
  {}

  lemma DoubledWord(x: nat)
    ensures var v := Signed(Unsigned(x)); IsLong(2 * v) ==> Signed(Unsigned(2 * x)) == 2 * v
  {}

  // ----- Variables ----------------------------------------------------------------------------

  /** A stored value is read back, and no other variable changes; an unset one is 0, or an error under
      `set -u`. */
  lemma StoreThenRead(sh: Shell, name: string, v: int, other: string)
    ensures Read(Store(sh, name, v), name) == Val(v)
    ensures other != name ==> Read(Store(sh, name, v), other) == Read(sh, other)
    ensures Store(sh, name, v).nounset == sh.nounset && Store(Store(sh, name, 0), name, v) == Store(sh, name, v)
    ensures name !in sh.vars ==> Read(sh, name) == (if sh.nounset then Fail(Unbound) else Val(0))
  {}

  function Stored(name: string, r: Evaluated): Evaluated {
    if r.Done? then Done(r.v, Store(r.sh, name, r.v)) else r
  }

  /** Compound assignment with the bare C shift: undefined for the counts and signs C leaves out. */
  predicate BareShift(op: Op, cur: int, count: int) {
    (op == Shl || op == Shr) ==> 0 <= count < 64 && (op == Shl ==> cur >= 0 && cur * Pow2(count) <= LONG_MAX)
  }

  /** `x op= e` is `x op e`, stored.  The operators are paired by their texts.  The bare shifts of C give what
      `<<` and `>>` give where C defines them. */
  lemma AssignIsOperator(aop: AssignOp, op: Op, lead: string, name: string, ws: string, rhs: Expr, sh: Shell)
    requires AssignText(aop) == OpText(op) + "="
    requires name in sh.vars ==> IsLong(sh.vars[name])
    ensures var both := Eval(Bin(Var(lead, name), ws, op, rhs), sh);
      var stored := Eval(Assign(lead, name, ws, aop, rhs), sh);
      var cur, v := Read(sh, name), Eval(rhs, sh);
      if cur.Fail? || v.Abort? || BareShift(op, cur.v, v.v) then stored == Stored(name, both)
      else stored == Abort(Overflow)
  {
    var cur, v := Read(sh, name), Eval(rhs, sh);
    PairsAre(aop, op);
    EvalBoth(aop, op, lead, name, ws, rhs, sh);
    hide OpText, AssignText, Apply, ApplyAssign, BareShift, Eval;
    if cur.Val? && v.Done? { AssignApplies(aop, op, cur.v, v.v); }
  }

  /** One step of `Eval` for an assignment and for its operator. */
  lemma EvalBoth(aop: AssignOp, op: Op, lead: string, name: string, ws: string, rhs: Expr, sh: Shell)
    requires aop != Set
    ensures var cur, v := Read(sh, name), Eval(rhs, sh);
      var both := Eval(Bin(Var(lead, name), ws, op, rhs), sh);
      var stored := Eval(Assign(lead, name, ws, aop, rhs), sh);
      if cur.Fail? then both == stored == Abort(Unbound)
      else if v.Abort? then both == stored == v
      else
        both == Lift(Apply(op, cur.v, v.v), v.sh) && stored == Stored(name, Lift(ApplyAssign(aop, cur.v, v.v), v.sh))
  { hide Apply, ApplyAssign; }

  lemma PairsAre(aop: AssignOp, op: Op)
    requires AssignText(aop) == OpText(op) + "="
    ensures aop != Set
    ensures aop == (match op case Or => OrTo case Xor => XorTo case And => AndTo case Shl => ShlTo case Shr => ShrTo
      case Add => AddTo case Sub => SubTo case Mul => MulTo case Div => DivTo case Mod => ModTo case _ => Set)
  {
    var t, o := AssignText(aop), OpText(op);
    assert |t| == |o| + 1 && t[0] == o[0] && (|o| == 2 ==> t[1] == o[1]) && t[|o|] == '=';
  }

  lemma AssignApplies(aop: AssignOp, op: Op, cur: int, v: int)
    requires AssignText(aop) == OpText(op) + "=" && IsLong(cur)
    ensures ApplyAssign(aop, cur, v) == if BareShift(op, cur, v) then Apply(op, cur, v) else Fail(Overflow)
  {
    PairsAre(aop, op);
    hide OpText, AssignText;
    if (op == Shl || op == Shr) && 0 <= v < 64 && cur >= 0 { ShlOfSmall(cur, v); }
  }

  lemma ShlOfSmall(a: nat, b: nat)
    requires b < 64 && IsLong(a)
    ensures a * Pow2(b) <= LONG_MAX ==> Apply(Shl, a, b) == Val(a * Pow2(b))
    ensures a * Pow2(b) >= 0
  {
    var x := a * Pow2(b);
    assert x >= 0;
    assert Unsigned(a) == a && (x <= LONG_MAX ==> Unsigned(x) == x);
  }

  /** Plain assignment gives and stores the value of the right side. */
  lemma SetStores(lead: string, name: string, ws: string, rhs: Expr, sh: Shell)
    ensures Eval(Assign(lead, name, ws, Set, rhs), sh) == Stored(name, Eval(rhs, sh))
  {}

  /** `++x` is `x += 1` and `--x` is `x -= 1`; behind the variable they do the same and give the old value. */
  lemma BumpIsAssign(lead: string, name: string, ws: string, up: bool, sh: Shell)
    requires name in sh.vars || !sh.nounset
    ensures var one := Eval(Assign(lead, name, ws, if up then AddTo else SubTo, Num("", "1")), sh);
      && Eval(Pre(lead, up, ws, name), sh) == one
      && Eval(Post(lead, name, ws, up), sh) == if one.Done? then Done(Read(sh, name).v, one.sh) else one
  {
    OneReads();
    var cur := if name in sh.vars then sh.vars[name] else 0;
    BumpApplies(sh, name, cur, up, false);
    BumpApplies(sh, name, cur, up, true);
    hide LiteralValue, Apply, ApplyAssign, Bump;
  }

  lemma OneReads()
    ensures LiteralValue("1") == 1
  { assert "1"[..0] == "" && DigitsValue("1", 10) == 1; }

  lemma BumpApplies(sh: Shell, name: string, cur: int, up: bool, post: bool)
    ensures var v := ApplyAssign(if up then AddTo else SubTo, cur, 1);
      Bump(sh, name, cur, if up then 1 else -1, post)
      == if v.Val? then Done(if post then cur else v.v, Store(sh, name, v.v)) else Abort(v.fault)
  {}

  // ----- Numerals -----------------------------------------------------------------------------

  const DIGITS: string := "0123456789abcdef"
  const CAPITALS: string := "0123456789ABCDEF"

  function DigitChar(d: nat, capital: bool): char
    requires d < 16
  { if capital then CAPITALS[d] else DIGITS[d] }

  /** A number in a base, by repeated division. */
  function Numeral(n: nat, base: nat, capital: bool): (t: string)
    requires 2 <= base <= 16
    ensures t != []
  {
    var digit := DigitChar(n % base, capital);
    if n < base then [digit] else Numeral(n / base, base, capital) + [digit]
  }

  lemma DigitReads(d: nat, capital: bool)
    requires d < 16
    ensures DigitValue(DigitChar(d, capital)) == d && (DigitChar(d, capital) == '0' <==> d == 0)
  {}

  lemma DigitsStep(t: string, c: char, base: nat)
    ensures DigitsValue(t + [c], base) == DigitsValue(t, base) * base + DigitValue(c)
  { assert (t + [c])[..|t|] == t; }

  lemma Commutes(m: nat, n: nat)
    ensures m * n == n * m
  {}

  lemma SmallQuotient(n: nat, d: nat)
    requires n < d
    ensures n % d == n
  {}

  lemma QuotientShrinks(n: nat, d: nat)
    requires n >= d >= 2
    ensures 0 < n / d < n
  {
    DivIdentity(n, d);
    Grows(d, n / d, 2);
  }

  lemma NumeralSteps(n: nat, base: nat, capital: bool)
    requires 2 <= base <= 16
    ensures var rest := if n < base then "" else Numeral(n / base, base, capital);
      Numeral(n, base, capital) == rest + [DigitChar(n % base, capital)]
  {
    hide DigitChar;
    if n < base { assert Numeral(n, base, capital) == "" + [DigitChar(n % base, capital)]; }
  }

  /** The digits of a numeral have its number as their value. */
  lemma {:induction false} NumeralReads(n: nat, base: nat, capital: bool)
    requires 2 <= base <= 16
    ensures DigitsValue(Numeral(n, base, capital), base) == n
  {
    hide *;
    var d := DigitChar(n % base, capital);
    NumeralSteps(n, base, capital);
    DigitReads(n % base, capital);
    if n < base {
      SmallQuotient(n, base);
      DigitsStep("", d, base);
      NoDigits(base);
    } else {
      DivIdentity(n, base);
      QuotientShrinks(n, base);
      Commutes(n / base, base);
      NumeralReads(n / base, base, capital);
      DigitsStep(Numeral(n / base, base, capital), d, base);
    }
  }

  lemma NoDigits(base: nat)
    ensures DigitsValue("", base) == 0
  {}

  lemma {:induction false} NumeralDigits(n: nat, base: nat, capital: bool)
    requires 2 <= base <= 16
    ensures forall c :: c in Numeral(n, base, capital) ==> DigitValue(c) < base
  {
    DigitReads(n % base, capital);
    DivIdentity(n, base);
    hide DigitChar;
    if n >= base {
      QuotientShrinks(n, base);
      NumeralDigits(n / base, base, capital);
    }
  }

  /** Only the numeral of 0 begins with `0`. */
  lemma {:induction false} NumeralStarts(n: nat, base: nat, capital: bool)
    requires 2 <= base <= 16
    ensures var t := Numeral(n, base, capital); (t[0] == '0' <==> n == 0) && (n == 0 ==> t == "0")
  {
    DigitReads(n % base, capital);
    hide DigitChar, DigitValue;
    if n >= base {
      QuotientShrinks(n, base);
      NumeralStarts(n / base, base, capital);
    } else {
      SmallQuotient(n, base);
    }
  }

  function Decimal(n: nat): string { Numeral(n, 10, false) }
  function Octal(n: nat): string { "0" + Numeral(n, 8, false) }
  function Hex(n: nat, capital: bool): string { (if capital then "0X" else "0x") + Numeral(n, 16, capital) }

  /** The digits `DigitsEnd` passes. */
  lemma AllDigits(t: string, i: nat, base: nat)
    requires i <= |t| && base <= 16 && forall k :: i <= k < |t| ==> DigitValue(t[k]) < base
    ensures DigitsEnd(t, i, base) == |t|
    decreases |t| - i
  { if i < |t| { AllDigits(t, i + 1, base); } }

  lemma {:induction false} LeadingZero(t: string, base: nat)
    ensures DigitsValue("0" + t, base) == DigitsValue(t, base)
  {
    var z := "0" + t;
    if t == [] {
      assert z == ['0'] && z[..0] == [];
    } else {
      assert z[..|z| - 1] == "0" + t[..|t| - 1];
      LeadingZero(t[..|t| - 1], base);
    }
  }

  /** A number printed in base 10, in base 8 behind `0`, or in base 16 behind `0x` is a literal, and is read
      as that number, or as the largest `long` if it has no room. */
  lemma NumeralsRead(n: nat, capital: bool)
    ensures var v := if n <= LONG_MAX then n else LONG_MAX;
      LiteralValue(Decimal(n)) == LiteralValue(Octal(n)) == LiteralValue(Hex(n, capital)) == v
    ensures Literal(Decimal(n)) && Literal(Octal(n)) && Literal(Hex(n, capital))
  {
    DecimalReads(n);
    OctalReads(n);
    HexReads(n, capital);
  }

  lemma DecimalReads(n: nat)
    ensures Literal(Decimal(n)) && LiteralValue(Decimal(n)) == if n <= LONG_MAX then n else LONG_MAX
  {
    var t := Decimal(n);
    NumeralReads(n, 10, false);
    NumeralDigits(n, 10, false);
    NumeralStarts(n, 10, false);
    if n > 0 { AllDigits(t, 0, 10); } else { AllDigits(t, 0, 8); assert DigitsValue("0", 8) == 0; }
  }

  lemma OctalReads(n: nat)
    ensures Literal(Octal(n)) && LiteralValue(Octal(n)) == if n <= LONG_MAX then n else LONG_MAX
  {
    var t := Numeral(n, 8, false);
    NumeralReads(n, 8, false);
    NumeralDigits(n, 8, false);
    LeadingZero(t, 8);
    assert Octal(n)[1] == t[0] && DigitValue(t[0]) < 8;
    AllDigits(Octal(n), 0, 8);
  }

  lemma HexReads(n: nat, capital: bool)
    ensures Literal(Hex(n, capital)) && LiteralValue(Hex(n, capital)) == if n <= LONG_MAX then n else LONG_MAX
  {
    var t := Numeral(n, 16, capital);
    var h := Hex(n, capital);
    NumeralReads(n, 16, capital);
    NumeralDigits(n, 16, capital);
    assert h[2..] == t && h[2] == t[0];
    AllDigits(h, 2, 16);
  }

  // ----- Written calculations -----------------------------------------------------------------

  /** The operators by precedence, loosest first; row 1 is the conditional `? :`. */
  const TABLE: seq<seq<string>> := [
    [","], ["?"], ["||"], ["&&"], ["|"], ["^"], ["&"],
    ["<=", ">=", "<", ">", "==", "!="], ["<<", ">>"], ["+", "-"], ["*", "/", "%"]
  ]

  /** Every operator stands in its own row of the table. */
  lemma OperatorTable(op: Op)
    ensures Level(op) < |TABLE| && OpText(op) in TABLE[Level(op)]
  {
    var i := match op case Ge | Shr | Sub | Div => 1 case Lt | Mod => 2 case Gt => 3 case Eq => 4 case Ne => 5
      case _ => 0;
    assert i < |TABLE[Level(op)]| && TABLE[Level(op)][i] == OpText(op);
  }

  /** Every text of the table but `?` is an operator of its row. */
  lemma TextIsOperator(l: nat, i: nat)
    requires l < |TABLE| && i < |TABLE[l]| && l != 1
    ensures exists o: Op :: Level(o) == l && OpText(o) == TABLE[l][i]
  {
    var o := if l == 0 then Comma else if l == 2 then LogOr else if l == 3 then LogAnd else if l == 4 then Or
      else if l == 5 then Xor else if l == 6 then And
      else if l == 7 then [Le, Ge, Lt, Gt, Eq, Ne][i]
      else if l == 8 then [Shl, Shr][i] else if l == 9 then [Add, Sub][i] else [Mul, Div, Mod][i];
    assert Level(o) == l && OpText(o) == TABLE[l][i];
  }

  /** The whole text is read and gives `v`, with the shell unchanged. */
  predicate Gives(s: string, v: int, sh: Shell) { Parse(0, s, 0, sh) == Ok(v, |s|, sh) }

  predicate Stops(s: string, f: Fault, sh: Shell) { Parse(0, s, 0, sh) == Stop(f) }

  predicate Layout(w: string) { forall c :: c in w ==> c in " \t\n\r" }

  lemma DecimalStarts(n: nat)
    ensures Decimal(n)[0] !in "+-"
  {
    NumeralDigits(n, 10, false);
    hide Numeral;
    assert DigitValue(Decimal(n)[0]) < 10;
    assert DigitValue('+') == DigitValue('-') == 99;
  }

  lemma LayoutIsBlank(w: string)
    requires Layout(w)
    ensures Blanks(w)
  {
    forall i | 0 <= i < |w| ensures Blank(w[i]) { assert w[i] in w; }
  }

  lemma NumberFits(n: nat, w: string, sh: Shell)
    requires n <= LONG_MAX && Layout(w)
    ensures var e := Num(w, Decimal(n));
      && WellFormed(e) && Text(e) == w + Decimal(n) && Eval(e, sh) == Done(n, sh)
      && Text(e)[0] !in "+-" && Blanks(w)
  {
    var t := Decimal(n);
    DecimalReads(n);
    DecimalStarts(n);
    LayoutIsBlank(w);
    hide Decimal, Literal, LiteralValue;
    assert (w + t)[0] == if w == "" then t[0] else w[0];
  }

  /** Two printed numbers with an operator between them, laid out anyhow. */
  function Written(a: nat, op: string, b: nat, w: string): string { Decimal(a) + (w + (op + (w + Decimal(b)))) }

  lemma Calculation(a: nat, op: Op, b: nat, w: string, sh: Shell)
    requires a <= LONG_MAX && b <= LONG_MAX && Layout(w)
    ensures var s := Written(a, OpText(op), b, w); Parse(0, s, 0, sh) == Finish(Lift(Apply(op, a, b), sh), |s|)
  {
    var l, r := Num("", Decimal(a)), Num(w, Decimal(b));
    NumberFits(a, "", sh);
    NumberFits(b, w, sh);
    assert Text(l) == Decimal(a);
    assert Written(a, OpText(op), b, w) == Text(l) + (w + (OpText(op) + Text(r)));
    hide *;
    BinEvaluates(l, w, op, r, a, b, sh);
  }

  /** A tree of two operands. */
  lemma BinEvaluates(l: Expr, w: string, op: Op, r: Expr, a: int, b: int, sh: Shell)
    requires WellFormed(l) && WellFormed(r) && l.Num? && r.Num? && Blanks(w) && Text(r) != "" && Text(r)[0] !in "+-"
    requires Eval(l, sh) == Done(a, sh) && Eval(r, sh) == Done(b, sh)
    ensures var s := Text(l) + (w + (OpText(op) + Text(r)));
      Parse(0, s, 0, sh) == Finish(Lift(Apply(op, a, b), sh), |s|)
  {
    hide *;
    BinText(l, w, op, r);
    LeafIsTight(l);
    LeafIsTight(r);
    BinFits(l, w, op, r);
    BinValue(l, w, op, r, a, b, sh);
    TextEvaluates(Bin(l, w, op, r), sh);
  }

  lemma LeafIsTight(e: Expr)
    requires e.Num?
    ensures Prec(e) == 11
  {}

  lemma BinText(l: Expr, w: string, op: Op, r: Expr)
    ensures Text(Bin(l, w, op, r)) == Text(l) + (w + (OpText(op) + Text(r)))
    ensures Text(l) != "" ==> Text(Bin(l, w, op, r)) != "" && Text(Bin(l, w, op, r))[0] == Text(l)[0]
    ensures Prec(Bin(l, w, op, r)) == Level(op) <= 10
  { hide OpText; }

  lemma BinFits(l: Expr, w: string, op: Op, r: Expr)
    requires WellFormed(l) && WellFormed(r) && Prec(l) >= Level(op) && Prec(r) > Level(op)
    requires Blanks(w) && Text(r) != "" && Text(r)[0] !in "+-"
    ensures WellFormed(Bin(l, w, op, r))
  { hide Text, OpText; }

  lemma BinValue(l: Expr, w: string, op: Op, r: Expr, a: int, b: int, sh: Shell)
    requires Eval(l, sh) == Done(a, sh) && Eval(r, sh) == Done(b, sh)
    ensures Eval(Bin(l, w, op, r), sh) == Lift(Apply(op, a, b), sh)
  { hide Apply; }

  /** What the written sums, products and quotients give. */
  lemma Sums(a: nat, b: nat, w: string, sh: Shell)
    requires a <= LONG_MAX && b <= LONG_MAX && Layout(w)
    ensures var s := Written(a, "+", b, w);
      if a + b <= LONG_MAX then Gives(s, a + b, sh) else Stops(s, Overflow, sh)
    ensures Gives(Written(a, "-", b, w), a - b, sh)
    ensures var s := Written(a, "*", b, w);
      if a * b <= LONG_MAX then Gives(s, a * b, sh) else Stops(s, Overflow, sh)
    ensures b == 0 ==> Stops(Written(a, "/", b, w), DivisionByZero, sh)
    ensures b == 0 ==> Stops(Written(a, "%", b, w), DivisionByZero, sh)
    ensures b != 0 ==> Gives(Written(a, "/", b, w), a / b, sh) && Gives(Written(a, "%", b, w), a % b, sh)
  {
    hide Written, Parse;
    Calculation(a, Add, b, w, sh);
    Calculation(a, Sub, b, w, sh);
    Calculation(a, Mul, b, w, sh);
    Calculation(a, Div, b, w, sh);
    Calculation(a, Mod, b, w, sh);
    if b != 0 { NaturalQuotient(a, b); }
  }

  lemma NaturalQuotient(a: nat, b: nat)
    requires a <= LONG_MAX && 0 < b
    ensures Apply(Div, a, b) == Val(a / b) && Apply(Mod, a, b) == Val(a % b)
  {
    DivIdentity(a, b);
    ProductGrows(b, a / b);
    assert Quotient(a, b) == a / b;
    hide Quotient;
  }

  /** What the written comparisons give. */
  lemma WrittenComparisons(a: nat, b: nat, w: string, sh: Shell)
    requires a <= LONG_MAX && b <= LONG_MAX && Layout(w)
    ensures Gives(Written(a, "<", b, w), if a < b then 1 else 0, sh)
    ensures Gives(Written(a, ">", b, w), if b < a then 1 else 0, sh)
    ensures Gives(Written(a, "<=", b, w), if b < a then 0 else 1, sh)
    ensures Gives(Written(a, ">=", b, w), if a < b then 0 else 1, sh)
    ensures Gives(Written(a, "==", b, w), if a < b || b < a then 0 else 1, sh)
    ensures Gives(Written(a, "!=", b, w), if a < b || b < a then 1 else 0, sh)
  {
    hide Written, Parse;
    Calculation(a, Lt, b, w, sh);
    Calculation(a, Gt, b, w, sh);
    Calculation(a, Le, b, w, sh);
    Calculation(a, Ge, b, w, sh);
    Calculation(a, Eq, b, w, sh);
    Calculation(a, Ne, b, w, sh);
  }

  /** What the written logical operators and the sequence operator give: both operands are evaluated. */
  lemma WrittenTruth(a: nat, b: nat, w: string, sh: Shell)
    requires a <= LONG_MAX && b <= LONG_MAX && Layout(w)
    ensures Gives(Written(a, "&&", b, w), if a == 0 then 0 else if b == 0 then 0 else 1, sh)
    ensures Gives(Written(a, "||", b, w), if a > 0 then 1 else if b > 0 then 1 else 0, sh)
    ensures Gives(Written(a, ",", b, w), b, sh)
  {
    hide Written, Parse;
    Calculation(a, LogAnd, b, w, sh);
    Calculation(a, LogOr, b, w, sh);
    Calculation(a, Comma, b, w, sh);
  }

  /** The written bit operators give a number with the bits asked for. */
  lemma WrittenBits(a: nat, b: nat, w: string, sh: Shell, i: nat) returns (x: int, y: int, z: int)
    requires a <= LONG_MAX && b <= LONG_MAX && Layout(w)
    ensures Gives(Written(a, "&", b, w), x, sh) && (BitOf(x, i) <==> BitOf(a, i) && BitOf(b, i))
    ensures Gives(Written(a, "|", b, w), y, sh) && (BitOf(y, i) <==> BitOf(a, i) || BitOf(b, i))
    ensures Gives(Written(a, "^", b, w), z, sh) && (BitOf(z, i) <==> BitOf(a, i) != BitOf(b, i))
  {
    BitOperators(a, b, i);
    hide *;
    BitTexts();
    x, y, z := Apply(And, a, b).v, Apply(Or, a, b).v, Apply(Xor, a, b).v;
    ValueGiven(a, And, b, w, sh);
    ValueGiven(a, Or, b, w, sh);
    ValueGiven(a, Xor, b, w, sh);
  }

  lemma BitTexts()
    ensures OpText(And) == "&" && OpText(Or) == "|" && OpText(Xor) == "^"
  {}

  lemma ValueGiven(a: nat, op: Op, b: nat, w: string, sh: Shell)
    requires a <= LONG_MAX && b <= LONG_MAX && Layout(w) && Apply(op, a, b).Val?
    ensures Gives(Written(a, OpText(op), b, w), Apply(op, a, b).v, sh)
  {
    Calculation(a, op, b, w, sh);
    hide Apply, Written, Parse;
  }

  /** The written shifts, of numbers that stay small, multiply and divide by powers of two. */
  lemma WrittenShifts(a: nat, b: nat, w: string, sh: Shell)
    requires a <= LONG_MAX && b <= LONG_MAX && Layout(w)
    ensures b < 64 && a * Pow2(b) <= LONG_MAX ==> Gives(Written(a, "<<", b, w), a * Pow2(b), sh)
    ensures b < 64 ==> Gives(Written(a, ">>", b, w), a / Pow2(b), sh)
    ensures b >= 64 ==> Gives(Written(a, "<<", b, w), 0, sh) && Gives(Written(a, ">>", b, w), 0, sh)
  {
    if b < 64 { ShlOfSmall(a, b); }
    hide Written, Parse, Signed, Unsigned, Pow2;
    Calculation(a, Shl, b, w, sh);
    Calculation(a, Shr, b, w, sh);
  }

  function Chain(op: Op, x: Value, y: Value): Value {
    if x.Fail? then x else if y.Fail? then y else Apply(op, x.v, y.v)
  }

  /** Of two written operators the one in the later row binds tighter; operators of one row go from left to
      right. */
  lemma Precedence(p: Op, q: Op, i: nat, j: nat, a: nat, b: nat, c: nat, w: string, sh: Shell)
    requires i < |TABLE| && j < |TABLE| && OpText(p) in TABLE[i] && OpText(q) in TABLE[j]
    requires a <= LONG_MAX && b <= LONG_MAX && c <= LONG_MAX && Layout(w)
    ensures var s := Written(a, OpText(p), b, w) + (w + (OpText(q) + (w + Decimal(c))));
      var v := if i < j then Chain(p, Val(a), Apply(q, b, c)) else Chain(q, Apply(p, a, b), Val(c));
      Parse(0, s, 0, sh) == Finish(Lift(v, sh), |s|)
  {
    var x, y, z := Num("", Decimal(a)), Num(w, Decimal(b)), Num(w, Decimal(c));
    LeafIs(a, "", sh);
    LeafIs(b, w, sh);
    LeafIs(c, w, sh);
    assert Text(x) == Decimal(a) by { hide Decimal; }
    assert Written(a, OpText(p), b, w) == Text(x) + (w + (OpText(p) + Text(y))) by { hide Decimal, Text; }
    RowIsLevel(p, i);
    RowIsLevel(q, j);
    hide *;
    if i < j { RightFirst(x, p, y, q, z, w, a, b, c, sh); } else { LeftFirst(x, p, y, q, z, w, a, b, c, sh); }
  }

  lemma RowIsLevel(op: Op, i: nat)
    requires i < |TABLE| && OpText(op) in TABLE[i]
    ensures i == Level(op)
  {
    var k :| 0 <= k < |TABLE[i]| && TABLE[i][k] == OpText(op);
    var t := TABLE[i][k];
    assert |t| == |OpText(op)| && t[0] == OpText(op)[0] && (|t| == 2 ==> t[1] == OpText(op)[1]);
  }

  predicate Leaf(e: Expr, v: int, sh: Shell) {
    Prec(e) == 11 && WellFormed(e) && Text(e) != "" && Text(e)[0] !in "+-" && Eval(e, sh) == Done(v, sh)
  }

  lemma LeafIs(n: nat, w: string, sh: Shell)
    requires n <= LONG_MAX && Layout(w)
    ensures Leaf(Num(w, Decimal(n)), n, sh) && Text(Num(w, Decimal(n))) == w + Decimal(n) && Blanks(w)
  {
    NumberFits(n, w, sh);
    hide Decimal, Text, WellFormed, Eval;
  }

  lemma LeftFirst(x: Expr, p: Op, y: Expr, q: Op, z: Expr, w: string, a: int, b: int, c: int, sh: Shell)
    requires Leaf(x, a, sh) && Leaf(y, b, sh) && Leaf(z, c, sh) && Blanks(w) && Level(p) >= Level(q)
    ensures var s := Text(x) + (w + (OpText(p) + Text(y))) + (w + (OpText(q) + Text(z)));
      Parse(0, s, 0, sh) == Finish(Lift(Chain(q, Apply(p, a, b), Val(c)), sh), |s|)
  {
    hide Parse, Text, OpText, WellFormed, Eval, Prec, Level, Apply;
    var l := Bin(x, w, p, y);
    BinText(x, w, p, y);
    BinText(l, w, q, z);
    BinFits(x, w, p, y);
    BinFits(l, w, q, z);
    BinValue(x, w, p, y, a, b, sh);
    BinSteps(l, w, q, z, sh);
    TextEvaluates(Bin(l, w, q, z), sh);
  }

  lemma RightFirst(x: Expr, p: Op, y: Expr, q: Op, z: Expr, w: string, a: int, b: int, c: int, sh: Shell)
    requires Leaf(x, a, sh) && Leaf(y, b, sh) && Leaf(z, c, sh) && Blanks(w) && Level(p) < Level(q)
    ensures var s := Text(x) + (w + (OpText(p) + Text(y))) + (w + (OpText(q) + Text(z)));
      Parse(0, s, 0, sh) == Finish(Lift(Chain(p, Val(a), Apply(q, b, c)), sh), |s|)
  {
    hide Parse, Text, OpText, WellFormed, Eval, Prec, Level, Apply;
    var r := Bin(y, w, q, z);
    BinText(y, w, q, z);
    BinText(x, w, p, r);
    BinFits(y, w, q, z);
    BinFits(x, w, p, r);
    BinValue(y, w, q, z, b, c, sh);
    BinSteps(x, w, p, r, sh);
    Reassociates(Text(x), w, OpText(p), Text(y), w + (OpText(q) + Text(z)));
    TextEvaluates(Bin(x, w, p, r), sh);
  }

  /** One step of `Eval` for an operator. */
  lemma BinSteps(l: Expr, w: string, op: Op, r: Expr, sh: Shell)
    ensures var e := Eval(Bin(l, w, op, r), sh);
      var x := Eval(l, sh);
      if x.Abort? then e == x
      else var y := Eval(r, x.sh); if y.Abort? then e == y else e == Lift(Apply(op, x.v, y.v), y.sh)
  { hide Apply; }

  lemma Reassociates(a: string, b: string, c: string, d: string, e: string)
    ensures a + (b + (c + d)) + e == a + (b + (c + (d + e)))
  {}

  /** What the written prefix operators give. */
  lemma WrittenSigns(a: nat, w: string, sh: Shell)
    requires a <= LONG_MAX && Layout(w)
    ensures Gives("-" + w + Decimal(a), 0 - a, sh) && Gives("+" + w + Decimal(a), a, sh)
    ensures Gives("!" + w + Decimal(a), if a == 0 then 1 else 0, sh)
    ensures Gives("~" + w + Decimal(a), 0 - a - 1, sh)
  {
    hide Decimal, Parse;
    PrefixEvaluates(Neg, a, w, sh);
    PrefixEvaluates(Plus, a, w, sh);
    PrefixEvaluates(Not, a, w, sh);
    PrefixEvaluates(Compl, a, w, sh);
  }

  lemma PrefixEvaluates(op: UnOp, a: nat, w: string, sh: Shell)
    requires a <= LONG_MAX && Layout(w)
    ensures var s := [UnText(op)] + w + Decimal(a);
      Parse(0, s, 0, sh) == Finish(Lift(ApplyUnary(op, a), sh), |s|)
  {
    hide LiteralValue, Decimal, ApplyUnary, DigitValue, Parse, Literal;
    NumberFits(a, w, sh);
    var e := Unary("", op, Num(w, Decimal(a)));
    assert Text(e) == [UnText(op)] + w + Decimal(a);
    assert Eval(e, sh) == Lift(ApplyUnary(op, a), sh);
    assert WellFormed(e) by { hide Eval; }
    hide *;
    TextEvaluates(e, sh);
  }

  /** `a ? b : c` chooses by its condition. */
  lemma WrittenChoice(a: nat, b: nat, c: nat, w: string, sh: Shell)
    requires a <= LONG_MAX && b <= LONG_MAX && c <= LONG_MAX && Layout(w)
    ensures Gives(Decimal(a) + (w + ("?" + (w + Decimal(b) + (w + (":" + (w + Decimal(c))))))),
                  if a == 0 then c else b, sh)
  {
    hide LiteralValue, Decimal, DigitValue, Parse, Literal;
    NumberFits(a, "", sh);
    NumberFits(b, w, sh);
    NumberFits(c, w, sh);
    var e := Cond(Num("", Decimal(a)), w, Num(w, Decimal(b)), w, Num(w, Decimal(c)));
    assert Text(e) == Decimal(a) + (w + ("?" + (w + Decimal(b) + (w + (":" + (w + Decimal(c)))))));
    assert Eval(e, sh) == Done(if a == 0 then c else b, sh);
    assert WellFormed(e) by { hide Text, Eval; }
    hide *;
    TextEvaluates(e, sh);
    FinishIs(Eval(e, sh), |Text(e)|);
  }

  lemma FinishIs(r: Evaluated, pos: nat)
    ensures r.Done? ==> Finish(r, pos) == Ok(r.v, pos, r.sh)
  {}
}
