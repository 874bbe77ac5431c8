/** What several of the modules share. */

module Options {
  datatype Option<+T> = None | Some(value: T)
}

/** Powers of two, and operations on the bits of words. */
module Powers {

  const TWO64: nat := 0x1_0000_0000_0000_0000

  function Pow2(n: nat): (p: nat)
    ensures p > 0
  { if n == 0 then 1 else 2 * Pow2(n - 1) }

  lemma Pow2Splits(a: nat, b: nat)
    ensures Pow2(a + b) == Pow2(a) * Pow2(b)
  { if b > 0 { Pow2Splits(a, b - 1); } }

  lemma Pow2Of64()
    ensures Pow2(64) == TWO64 && Pow2(64) == 2 * Pow2(63)
  {
    assert Pow2(8) == 256 && Pow2(64) == 2 * Pow2(63);
    hide Pow2;
    Pow2Splits(8, 8);
    Pow2Splits(16, 16);
    Pow2Splits(32, 32);
  }

  lemma DivIdentity(x: int, d: int)
    requires d != 0
    ensures x == d * (x / d) + x % d && 0 <= x % d < if d > 0 then d else -d
  {}

  lemma Between(d: int, k: int)
    requires d > 0 && k != 0
    ensures d * k >= d || d * k <= -d
  {
    var m := if k > 0 then k - 1 else -k - 1;
    assert d * m >= 0;
    assert d * k == (if k > 0 then d * m + d else -(d * m) - d);
  }

  /** A quotient is told by its remainder. */
  lemma QuotientIs(x: int, d: int, q: int, r: int)
    requires d > 0 && x == d * q + r && 0 <= r < d
    ensures x / d == q && x % d == r
  {
    var e := x / d;
    DivIdentity(x, d);
    assert d * (e - q) == d * e - d * q;
    if e != q { Between(d, e - q); }
  }

  /** Bit `i` of an integer in two's complement: the parity after `i` halvings that round down. */
  predicate BitOf(x: int, i: nat)
    decreases i
  { if i == 0 then x % 2 == 1 else BitOf(x / 2, i - 1) }

  /** Adding multiples of a power of two leaves the bits below it. */
  lemma {:induction false} LowBits(x: int, k: int, n: nat, i: nat)
    requires i < n
    ensures BitOf(x + k * Pow2(n), i) == BitOf(x, i)
    decreases i
  {
    var p := Pow2(n - 1);
    assert k * Pow2(n) == 2 * (k * p);
    if i > 0 {
      assert (x + k * Pow2(n)) / 2 == x / 2 + k * p;
      LowBits(x / 2, k, n - 1, i - 1);
    }
  }

  lemma {:induction false} HalvedBits(x: int, b: nat, i: nat)
    ensures BitOf(x / Pow2(b), i) == BitOf(x, i + b)
    decreases b
  {
    if b > 0 {
      QuotientTwice(x, 2, Pow2(b - 1));
      HalvedBits(x / 2, b - 1, i);
    }
  }

  lemma Regroups(d: int, e: int, q: int, r: int)
    ensures d * (e * q + r) == d * e * q + d * r
  {}

  lemma NonNegative(m: nat, n: nat)
    ensures m * n >= 0
  {}

  lemma MixedBelow(d: int, e: int, r: int, m: int)
    requires 0 <= r < e && 0 <= m < d
    ensures 0 <= d * r + m < d * e
  {
    NonNegative(d, r);
    NonNegative(d, e - 1 - r);
    assert d * e == d * r + d + d * (e - 1 - r);
  }

  lemma QuotientTwice(x: int, d: nat, e: nat)
    requires d > 0 && e > 0
    ensures d * e > 0 && x / (d * e) == x / d / e
  {
    var q, r := x / d / e, x / d % e;
    DivIdentity(x, d);
    DivIdentity(x / d, e);
    Regroups(d, e, q, r);
    MixedBelow(d, e, r, x % d);
    QuotientIs(x, d * e, q, d * r + x % d);
  }

  /** `f` on each of the `n` low bits. */
  function Bitwise(f: (bool, bool) -> bool, a: nat, b: nat, n: nat): (r: nat)
    ensures r < Pow2(n)
  { if n == 0 then 0 else 2 * Bitwise(f, a / 2, b / 2, n - 1) + if f(a % 2 == 1, b % 2 == 1) then 1 else 0 }
}

/** C strings, and text that stands in them. */
module CStrings {

  /** The byte at `i`; behind the end it is NUL. */
  function At(s: string, i: nat): char { if i < |s| then s[i] else '\0' }

  predicate NoNul(s: string) { '\0' !in s }

  /** `isspace` in the C locale. */
  predicate Space(c: char) { c == ' ' || '\t' <= c <= '\r' }

  predicate Digit(c: char) { '0' <= c <= '9' }
  predicate NameStart(c: char) { 'a' <= c <= 'z' || 'A' <= c <= 'Z' || c == '_' }
  predicate NameChar(c: char) { NameStart(c) || Digit(c) }

  /** A byte, perhaps behind a backslash. */
  datatype Escapable = Escapable(c: char, escaped: bool)

  function EscapableText(b: Escapable): string { if b.escaped then ['\\', b.c] else [b.c] }

  const LOWERS: string := "abcdefghijklmnopqrstuvwxyz"
  const UPPERS: string := "ABCDEFGHIJKLMNOPQRSTUVWXYZ"

  lemma LettersAre(i: nat)
    requires i < 26
    ensures |LOWERS| == |UPPERS| == 26 && LOWERS[i] as int == 'a' as int + i && UPPERS[i] as int == 'A' as int + i
  {}

  /** The end of the name that begins at `i`. */
  function NameEnd(s: string, i: nat): (k: nat)
    requires i <= |s|
    ensures i <= k <= |s| && !NameChar(At(s, k))
    ensures forall j :: i <= j < k ==> NameChar(s[j])
    decreases |s| - i
  { if NameChar(At(s, i)) then NameEnd(s, i + 1) else i }

  /** `t` stands in `s` at `i`. */
  predicate Has(s: string, i: nat, t: string) { i + |t| <= |s| && s[i..i + |t|] == t }

  lemma HasSplit(s: string, i: nat, a: string, b: string)
    requires Has(s, i, a + b)
    ensures Has(s, i, a) && Has(s, i + |a|, b) && i + |a| + |b| <= |s|
  {
    var x := s[i..i + |a + b|];
    assert x[..|a|] == a && x[|a|..] == b;
  }

  lemma HasAt(s: string, i: nat, t: string, k: nat)
    requires Has(s, i, t) && k < |t|
    ensures i + k < |s| && At(s, i + k) == s[i + k] == t[k]
  { assert s[i..i + |t|][k] == t[k]; }
}
