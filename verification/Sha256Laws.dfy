/** What the pieces of SHA-256 are, held against laws that do not repeat their formulas: the logical functions bit
    by bit, rotations and shifts as numbers, words against bytes. */
module Sha256Laws {
  import opened Powers
  import opened Sha256s

  // ----- Words as numbers ---------------------------------------------------------------------

  lemma Below(h: bv31, b: bv1)
    ensures (((h as bv32) << 1) | (b as bv32)) as nat == h as nat * 2 + b as nat
  {}

  lemma OnTop(h: bv31, b: bv1)
    ensures (((b as bv32) << 31) | (h as bv32)) as nat == b as nat * 0x8000_0000 + h as nat
  {}

  lemma Widened(h: bv31)
    ensures (h as bv32) as nat == h as nat
  {}

  function Upper(x: bv32): bv31 { (x >> 1) as bv31 }
  function Lowest(x: bv32): bv1 { (x & 1) as bv1 }

  lemma Split(x: bv32)
    ensures x == ((Upper(x) as bv32) << 1) | (Lowest(x) as bv32)
  {}

  lemma UpperIs(x: bv32)
    ensures Half(x) == Upper(x) as bv32
  {}

  lemma LowestIs(x: bv32)
    ensures Lowest(x) == if Odd(x) then 1 else 0
  {}

  lemma BitIs(b: bv1)
    ensures b as nat == if b == 1 then 1 else 0
  {}

  function Num(x: bv32): nat { x as nat }
  function Half(x: bv32): bv32 { x >> 1 }
  predicate Odd(x: bv32) { x & 1 == 1 }

  lemma Parts(x: bv32, h: bv31, b: bv1)
    requires x == ((h as bv32) << 1) | (b as bv32) && Half(x) == h as bv32 && b == if Odd(x) then 1 else 0
    ensures Num(x) == Num(Half(x)) * 2 + if Odd(x) then 1 else 0
  {
    Below(h, b);
    Widened(h);
    BitIs(b);
    hide Half, Odd;
  }

  /** A shift to the right halves the number and drops its parity. */
  lemma HalfOf(x: bv32)
    ensures Num(Half(x)) == Num(x) / 2 && (Odd(x) <==> Num(x) % 2 == 1)
  {
    Split(x);
    UpperIs(x);
    LowestIs(x);
    hide Num, Upper, Lowest;
    Parts(x, Upper(x), Lowest(x));
    HalvesAre(Num(x), Num(Half(x)), Odd(x));
  }

  lemma HalvesAre(x: nat, h: nat, odd: bool)
    requires x == h * 2 + if odd then 1 else 0
    ensures h == x / 2 && (odd <==> x % 2 == 1)
  {}

  /** Bit `i` of a word is that of its number. */
  predicate Bit(x: bv32, i: nat) { BitOf(Num(x), i) }

  lemma BitStep(x: bv32, i: nat)
    ensures Bit(x, 0) <==> Odd(x)
    ensures i > 0 ==> Bit(x, i) == Bit(Half(x), i - 1)
  {
    hide Num, Half, Odd;
    HalfOf(x);
  }

  /** `Ch` chooses: bit `i` of `y` where `x` has bit `i` set, and of `z` where it has not. */
  lemma {:induction false} ChChooses(x: bv32, y: bv32, z: bv32, i: nat)
    ensures Bit(Ch(x, y, z), i) == if Bit(x, i) then Bit(y, i) else Bit(z, i)
    decreases i
  {
    hide *;
    BitStep(x, i); BitStep(y, i); BitStep(z, i); BitStep(Ch(x, y, z), i);
    ChParity(x, y, z);
    ChHalf(x, y, z);
    if i > 0 { ChChooses(Half(x), Half(y), Half(z), i - 1); }
  }

  lemma ChHalf(x: bv32, y: bv32, z: bv32)
    ensures Half(Ch(x, y, z)) == Ch(Half(x), Half(y), Half(z))
  {}

  lemma ChParity(x: bv32, y: bv32, z: bv32)
    ensures Odd(Ch(x, y, z)) == if Odd(x) then Odd(y) else Odd(z)
  {}

  /** `Maj` is the majority of three bits. */
  lemma {:induction false} MajVotes(x: bv32, y: bv32, z: bv32, i: nat)
    ensures Bit(Maj(x, y, z), i) == if Bit(x, i) == Bit(y, i) then Bit(x, i) else Bit(z, i)
    decreases i
  {
    hide *;
    BitStep(x, i); BitStep(y, i); BitStep(z, i); BitStep(Maj(x, y, z), i);
    MajParity(x, y, z);
    MajHalf(x, y, z);
    if i > 0 { MajVotes(Half(x), Half(y), Half(z), i - 1); }
  }

  lemma MajHalf(x: bv32, y: bv32, z: bv32)
    ensures Half(Maj(x, y, z)) == Maj(Half(x), Half(y), Half(z))
  {}

  lemma MajParity(x: bv32, y: bv32, z: bv32)
    ensures Odd(Maj(x, y, z)) == if Odd(x) == Odd(y) then Odd(x) else Odd(z)
  {}

  predicate IsXor(x: bv32, y: bv32, z: bv32) { z == x ^ y }

  /** A bit of an exclusive or is set where the bits differ. */
  lemma {:induction false} XorBits(x: bv32, y: bv32, z: bv32, i: nat)
    requires IsXor(x, y, z)
    ensures Bit(z, i) <==> Bit(x, i) != Bit(y, i)
    decreases i
  {
    hide *;
    BitStep(x, i); BitStep(y, i); BitStep(z, i);
    XorHalf(x, y, z);
    XorParity(x, y, z);
    if i > 0 { XorBits(Half(x), Half(y), Half(z), i - 1); }
  }

  lemma XorHalf(x: bv32, y: bv32, z: bv32)
    requires IsXor(x, y, z)
    ensures IsXor(Half(x), Half(y), Half(z))
  { assert (x ^ y) >> 1 == (x >> 1) ^ (y >> 1); }

  lemma XorParity(x: bv32, y: bv32, z: bv32)
    requires IsXor(x, y, z)
    ensures Odd(z) <==> Odd(x) != Odd(y)
  {}

  // ----- Rotations ----------------------------------------------------------------------------

  /** One turn to the right: the lowest bit becomes the highest. */
  function Turn(x: bv32): bv32 { ((x & 1) << 31) | (x >> 1) }

  function Turns(x: bv32, n: nat): bv32
    decreases n
  { if n == 0 then x else Turn(Turns(x, n - 1)) }

  lemma TurnsAdd(x: bv32, a: nat, b: nat)
    ensures Turns(Turns(x, a), b) == Turns(x, a + b)
    decreases b
  {
    hide Turn;
    if b > 0 { TurnsAdd(x, a, b - 1); }
  }

  lemma OneTurn(x: bv32)
    ensures Turn(x) == Rotr(x, 1)
  {}

  lemma TwoTurns(x: bv32)
    ensures Turn(Turn(x)) == Rotr(x, 2)
  {}

  lemma TurnsStep(x: bv32, n: nat)
    ensures Turns(x, n) == if n == 0 then x else Turn(Turns(x, n - 1))
  { hide Turn; }

  lemma FewTurns(x: bv32)
    ensures Turns(x, 1) == Rotr(x, 1) && Turns(x, 2) == Rotr(x, 2)
  {
    hide *;
    TurnsStep(x, 0);
    TurnsStep(x, 1);
    TurnsStep(x, 2);
    OneTurn(x);
    TwoTurns(x);
  }

  lemma FourTurns(x: bv32)
    ensures Turns(x, 4) == Rotr(x, 4)
  {
    FewTurns(x);
    FewTurns(Rotr(x, 2));
    RotrTo6(x);
    TurnsAdd(x, 2, 2);
    hide Rotr, Turns;
  }

  lemma RotrTo6(x: bv32)
    ensures Rotr(Rotr(x, 2), 2) == Rotr(x, 4) && Rotr(Rotr(x, 4), 2) == Rotr(x, 6)
  {}

  lemma RotrTo11(x: bv32)
    ensures Rotr(Rotr(x, 6), 1) == Rotr(x, 7) && Rotr(Rotr(x, 7), 4) == Rotr(x, 11)
  {}

  lemma RotrTo17(x: bv32)
    ensures Rotr(Rotr(x, 11), 2) == Rotr(x, 13) && Rotr(Rotr(x, 13), 4) == Rotr(x, 17)
  {}

  lemma RotrTo19(x: bv32)
    ensures Rotr(Rotr(x, 17), 1) == Rotr(x, 18) && Rotr(Rotr(x, 18), 1) == Rotr(x, 19)
  {}

  lemma RotrTo22(x: bv32)
    ensures Rotr(Rotr(x, 18), 4) == Rotr(x, 22)
  {}

  lemma RotrTo25(x: bv32)
    ensures Rotr(Rotr(x, 22), 2) == Rotr(x, 24) && Rotr(Rotr(x, 24), 1) == Rotr(x, 25)
  {}

  /** A longer rotation is turned after a shorter one. */
  lemma TurnFurther(x: bv32, y: bv32, a: nat, b: nat)
    requires y == Turns(x, a) && b in {1, 2, 4}
    ensures Turns(x, a + b) == if b == 1 then Rotr(y, 1) else if b == 2 then Rotr(y, 2) else Rotr(y, 4)
  {
    hide Rotr, Turns;
    FewTurns(y);
    FourTurns(y);
    TurnsAdd(x, a, b);
  }

  /** Rotating by `n` is turning `n` times, for every `n` that the hash rotates by. */
  lemma RotationsTurn(x: bv32)
    ensures Rotr(x, 2) == Turns(x, 2) && Rotr(x, 6) == Turns(x, 6) && Rotr(x, 7) == Turns(x, 7)
    ensures Rotr(x, 11) == Turns(x, 11) && Rotr(x, 13) == Turns(x, 13) && Rotr(x, 17) == Turns(x, 17)
    ensures Rotr(x, 18) == Turns(x, 18) && Rotr(x, 19) == Turns(x, 19) && Rotr(x, 22) == Turns(x, 22)
    ensures Rotr(x, 25) == Turns(x, 25)
  {
    hide Rotr, Turns;
    RotrTo6(x); RotrTo11(x); RotrTo17(x); RotrTo19(x); RotrTo22(x); RotrTo25(x);
    FewTurns(x);
    FourTurns(x);
    TurnFurther(x, Rotr(x, 4), 4, 2);
    TurnFurther(x, Rotr(x, 6), 6, 1);
    TurnFurther(x, Rotr(x, 7), 7, 4);
    TurnFurther(x, Rotr(x, 11), 11, 2);
    TurnFurther(x, Rotr(x, 13), 13, 4);
    TurnFurther(x, Rotr(x, 17), 17, 1);
    TurnFurther(x, Rotr(x, 18), 18, 1);
    TurnFurther(x, Rotr(x, 18), 18, 4);
    TurnFurther(x, Rotr(x, 22), 22, 2);
    TurnFurther(x, Rotr(x, 24), 24, 1);
  }

  lemma TurnSplit(x: bv32)
    ensures Turn(x) == ((Lowest(x) as bv32) << 31) | (Upper(x) as bv32)
  {}

  lemma TurnOf(x: bv32)
    ensures Num(Turn(x)) == Num(x) / 2 + Num(x) % 2 * 0x8000_0000
  {
    hide *;
    TurnSplit(x);
    UpperIs(x);
    HalfOf(x);
    LowestIs(x);
    TurnJoins(x, Upper(x), Lowest(x));
  }

  lemma TurnJoins(x: bv32, h: bv31, b: bv1)
    requires Turn(x) == ((b as bv32) << 31) | (h as bv32) && Half(x) == h as bv32 && b == if Odd(x) then 1 else 0
    ensures Num(Turn(x)) == Num(Half(x)) + if Odd(x) then 0x8000_0000 else 0
  {
    OnTop(h, b);
    Widened(h);
    BitIs(b);
    hide Turn, Half, Odd;
  }

  /** As a number, the word turned `n` times is its upper part, with its `n` low bits in front. */
  lemma {:induction false} TurnsOf(x: bv32, n: nat)
    requires n < 32
    ensures Num(Turns(x, n)) == Num(x) / Pow2(n) + Num(x) % Pow2(n) * Pow2(32 - n)
    decreases n
  {
    hide *;
    TurnsStep(x, n);
    if n > 0 {
      TurnsOf(x, n - 1);
      TurnOf(Turns(x, n - 1));
      TurnedOnce(Num(x), n);
    } else {
      NoTurns(Num(x));
    }
  }

  lemma NoTurns(x: nat)
    ensures x / Pow2(0) + x % Pow2(0) * Pow2(32) == x
  { assert Pow2(0) == 1; hide Pow2; assert x % 1 == 0; }

  lemma TurnedOnce(x: nat, n: nat)
    requires 0 < n < 32
    ensures var t := x / Pow2(n - 1) + x % Pow2(n - 1) * Pow2(33 - n);
      t / 2 + t % 2 * 0x8000_0000 == x / Pow2(n) + x % Pow2(n) * Pow2(32 - n)
  {
    assert Pow2(n) == 2 * Pow2(n - 1) && Pow2(33 - n) == 2 * Pow2(32 - n);
    hide Pow2;
    Pow2Splits(n - 1, 32 - n);
    Pow2Of31();
    TurnedNumber(x, Pow2(n - 1), Pow2(32 - n));
  }

  lemma Pow2Of31()
    ensures Pow2(31) == 0x8000_0000
  {
    assert Pow2(8) == 256 && Pow2(31) == 128 * Pow2(24);
    hide Pow2;
    Pow2Splits(8, 8);
    Pow2Splits(16, 8);
  }

  lemma TurnedNumber(x: nat, p: nat, r: nat)
    requires p > 0 && p * r == 0x8000_0000
    ensures var t := x / p + x % p * (2 * r);
      t / 2 + t % 2 * 0x8000_0000 == x / (2 * p) + x % (2 * p) * r
  {
    var q, m := x / p, x % p;
    var k, b := q / 2, q % 2;
    DivIdentity(x, p);
    Products(p, r, k, b, m);
    QuotientIs(x, 2 * p, k, b * p + m);
    HalvesAre(q + m * (2 * r), k + m * r, b == 1);
  }

  lemma Products(p: nat, r: nat, k: nat, b: nat, m: nat)
    requires b < 2 && m < p
    ensures p * (2 * k + b) + m == 2 * p * k + (b * p + m) && 0 <= b * p + m < 2 * p
    ensures m * (2 * r) == 2 * (m * r) && (b * p + m) * r == b * (p * r) + m * r
  {
    assert b == 0 || b == 1;
  }

  // ----- The sigmas, bit by bit ---------------------------------------------------------------

  lemma WordBelow(x: bv32)
    ensures Num(x) < TWO32
  {}

  lemma TurnBits(x: bv32, i: nat)
    requires i < 32
    ensures Bit(Turn(x), i) == Bit(x, (i + 1) % 32)
  {
    hide Turn, BitOf, Num;
    WordBelow(x);
    TurnOf(x);
    TurnedBits(Num(x), Num(Turn(x)), i);
  }

  lemma TurnedBits(n: nat, v: nat, i: nat)
    requires n < TWO32 && i < 32 && v == n / 2 + n % 2 * 0x8000_0000
    ensures BitOf(v, i) == BitOf(n, (i + 1) % 32)
  {
    Pow2Of31();
    if i < 31 {
      LowBits(n / 2, n % 2, 31, i);
    } else {
      QuotientIs(v, 0x8000_0000, n % 2, n / 2);
      HalvedBits(v, 31, 0);
    }
  }

  lemma {:induction false} TurnsBits(x: bv32, n: nat, i: nat)
    requires i < 32
    ensures Bit(Turns(x, n), i) == Bit(x, (i + n) % 32)
    decreases n
  {
    hide Bit, Turn;
    if n > 0 {
      TurnBits(Turns(x, n - 1), i);
      TurnsBits(x, n - 1, (i + 1) % 32);
    }
  }

  predicate ThreeXor(a: bv32, b: bv32, c: bv32, z: bv32) { z == a ^ b ^ c }

  lemma ThreeBits(a: bv32, b: bv32, c: bv32, z: bv32, i: nat)
    requires ThreeXor(a, b, c, z)
    ensures Bit(z, i) <==> (Bit(a, i) != Bit(b, i)) != Bit(c, i)
  {
    assert IsXor(a, b, a ^ b) && IsXor(a ^ b, c, z);
    hide *;
    XorBits(a, b, a ^ b, i);
    XorBits(a ^ b, c, z, i);
  }

  /** Bit `i` of a sigma is the parity of three bits of the word: those that the three rotations bring there,
      or that a shift brings there if there is one so high. */
  lemma BigSigma0Bits(x: bv32, i: nat)
    requires i < 32
    ensures Bit(BigSigma0(x), i) <==> (Bit(x, (i + 2) % 32) != Bit(x, (i + 13) % 32)) != Bit(x, (i + 22) % 32)
  {
    hide *;
    RotationsTurn(x);
    TurnsBits(x, 2, i);
    TurnsBits(x, 13, i);
    TurnsBits(x, 22, i);
    BigSigma0Is(x);
    ThreeBits(Rotr(x, 2), Rotr(x, 13), Rotr(x, 22), BigSigma0(x), i);
  }

  lemma BigSigma0Is(x: bv32)
    ensures ThreeXor(Rotr(x, 2), Rotr(x, 13), Rotr(x, 22), BigSigma0(x))
  { hide Rotr; }

  lemma BigSigma1Bits(x: bv32, i: nat)
    requires i < 32
    ensures Bit(BigSigma1(x), i) <==> (Bit(x, (i + 6) % 32) != Bit(x, (i + 11) % 32)) != Bit(x, (i + 25) % 32)
  {
    hide *;
    RotationsTurn(x);
    TurnsBits(x, 6, i);
    TurnsBits(x, 11, i);
    TurnsBits(x, 25, i);
    BigSigma1Is(x);
    ThreeBits(Rotr(x, 6), Rotr(x, 11), Rotr(x, 25), BigSigma1(x), i);
  }

  lemma BigSigma1Is(x: bv32)
    ensures ThreeXor(Rotr(x, 6), Rotr(x, 11), Rotr(x, 25), BigSigma1(x))
  { hide Rotr; }

  lemma SmallSigma0Bits(x: bv32, i: nat)
    requires i < 32
    ensures Bit(SmallSigma0(x), i) <==> (Bit(x, (i + 7) % 32) != Bit(x, (i + 18) % 32)) != Bit(x, i + 3)
  {
    hide *;
    RotationsTurn(x);
    TurnsBits(x, 7, i);
    TurnsBits(x, 18, i);
    ShiftedBits(x, i);
    SmallSigma0Is(x);
    ThreeBits(Rotr(x, 7), Rotr(x, 18), Shr(x, 3), SmallSigma0(x), i);
  }

  lemma SmallSigma0Is(x: bv32)
    ensures ThreeXor(Rotr(x, 7), Rotr(x, 18), Shr(x, 3), SmallSigma0(x))
  { hide Rotr; }

  lemma SmallSigma1Bits(x: bv32, i: nat)
    requires i < 32
    ensures Bit(SmallSigma1(x), i) <==> (Bit(x, (i + 17) % 32) != Bit(x, (i + 19) % 32)) != Bit(x, i + 10)
  {
    hide *;
    RotationsTurn(x);
    TurnsBits(x, 17, i);
    TurnsBits(x, 19, i);
    ShiftedBits(x, i);
    SmallSigma1Is(x);
    ThreeBits(Rotr(x, 17), Rotr(x, 19), Shr(x, 10), SmallSigma1(x), i);
  }

  lemma SmallSigma1Is(x: bv32)
    ensures ThreeXor(Rotr(x, 17), Rotr(x, 19), Shr(x, 10), SmallSigma1(x))
  { hide Rotr; }

  /** A word has no bit above bit 31. */
  lemma NoBitAbove(x: bv32, i: nat)
    requires i >= 32
    ensures !Bit(x, i)
  {
    WordBelow(x);
    Pow2Of31();
    assert Pow2(32) == 2 * Pow2(31);
    hide Pow2, Num;
    SmallHasNoBit(Num(x), 32, i);
  }

  lemma {:induction false} SmallHasNoBit(x: nat, n: nat, i: nat)
    requires i >= n && x < Pow2(n)
    ensures !BitOf(x, i)
    decreases i
  {
    if n > 0 { SmallHasNoBit(x / 2, n - 1, i - 1); } else if i > 0 { SmallHasNoBit(0, 0, i - 1); }
  }

  /** As numbers, `y` is `x` divided by `d`. */
  predicate Divided(x: bv32, d: nat, y: bv32)
    requires d > 0
  { Num(y) == Num(x) / d }

  lemma HalvedOnce(x: bv32)
    ensures Divided(x, 2, Shr(x, 1))
  {
    assert Half(x) == Shr(x, 1);
    hide Num, Half, Shr;
    HalfOf(x);
  }

  lemma DividedTwice(x: bv32, d: nat, y: bv32, e: nat, z: bv32)
    requires d > 0 && e > 0 && Divided(x, d, y) && Divided(y, e, z)
    ensures d * e > 0 && Divided(x, d * e, z)
  {
    hide Num;
    QuotientTwice(Num(x), d, e);
  }

  function Shr(x: bv32, n: bv32): bv32
    requires n < 32
  { x >> n }

  lemma ShiftsAdd(x: bv32)
    ensures Shr(Shr(x, 1), 1) == Shr(x, 2) && Shr(Shr(x, 2), 1) == Shr(x, 3)
  {}

  lemma LongerShiftsAdd(x: bv32)
    ensures Shr(Shr(x, 2), 2) == Shr(x, 4) && Shr(Shr(x, 4), 4) == Shr(x, 8)
  {}

  lemma LongestShiftAdds(x: bv32)
    ensures Shr(Shr(x, 8), 2) == Shr(x, 10)
  {}

  /** Shifts by 3 and 10 divide by 8 and 1024. */
  lemma ShiftsDivide(x: bv32)
    ensures Divided(x, 8, Shr(x, 3)) && Divided(x, 1024, Shr(x, 10))
  {
    hide *;
    ShiftsAdd(x);
    LongerShiftsAdd(x);
    LongestShiftAdds(x);
    QuarterOf(x);
    HalvedOnce(Shr(x, 2));
    DividedTwice(x, 4, Shr(x, 2), 2, Shr(x, 3));
    SixteenthOf(x);
    SixteenthOf(Shr(x, 4));
    DividedTwice(x, 16, Shr(x, 4), 16, Shr(x, 8));
    QuarterOf(Shr(x, 8));
    DividedTwice(x, 256, Shr(x, 8), 4, Shr(x, 10));
  }

  lemma QuarterOf(x: bv32)
    ensures Divided(x, 4, Shr(x, 2))
  {
    hide *;
    ShiftsAdd(x);
    HalvedOnce(x);
    HalvedOnce(Shr(x, 1));
    DividedTwice(x, 2, Shr(x, 1), 2, Shr(x, 2));
  }

  lemma SixteenthOf(x: bv32)
    ensures Divided(x, 16, Shr(x, 4))
  {
    hide *;
    LongerShiftsAdd(x);
    QuarterOf(x);
    QuarterOf(Shr(x, 2));
    DividedTwice(x, 4, Shr(x, 2), 4, Shr(x, 4));
  }

  lemma ShiftedBits(x: bv32, i: nat)
    ensures Bit(Shr(x, 3), i) == Bit(x, i + 3) && Bit(Shr(x, 10), i) == Bit(x, i + 10)
  {
    hide Shr, Num;
    ShiftsDivide(x);
    assert Pow2(3) == 8 && Pow2(10) == 1024;
    hide Pow2, BitOf;
    HalvedBits(Num(x), 3, i);
    HalvedBits(Num(x), 10, i);
  }

  // ----- Words and bytes ----------------------------------------------------------------------

  lemma JoinedIs(a: bv8, b: bv8, c: bv8, d: bv8)
    ensures (((a as bv32) << 24) | ((b as bv32) << 16) | ((c as bv32) << 8) | (d as bv32)) as nat
        == ((a as nat * 256 + b as nat) * 256 + c as nat) * 256 + d as nat
  {}

  lemma JoinedLow(w: bv32)
    ensures Joined(ByteAt(w, 24), ByteAt(w, 16), ByteAt(w, 8), ByteAt(w, 0)) == w
  {}

  lemma LowJoined(a: bv8, b: bv8, c: bv8, d: bv8)
    ensures var w := Joined(a, b, c, d);
      ByteAt(w, 24) == a && ByteAt(w, 16) == b && ByteAt(w, 8) == c && ByteAt(w, 0) == d
  {}

  lemma SameByte(x: bv8, y: bv8)
    requires x as nat == y as nat
    ensures x == y
  {}

  lemma BitsOfByte(x: bv8)
    ensures Bits(x as int) == x
  { SameByte(Bits(x as int), x); }

  /** Reading four bytes as a word and writing a word as four bytes undo each other, and both are the base 256
      that the length field is written in. */
  lemma WordsAreBytes(w: bv32, a: byte, b: byte, c: byte, d: byte)
    ensures WordBytes(BigEndianWord(a, b, c, d)) == [a, b, c, d]
    ensures var t := WordBytes(w); BigEndianWord(t[0], t[1], t[2], t[3]) == w
    ensures BigEndianWord(a, b, c, d) as nat == ((a * 256 + b) * 256 + c) * 256 + d
    ensures BigEndian(w as nat, 4) == WordBytes(w)
  {
    hide *;
    BytesRead(w);
    WordRead(a, b, c, d);
    WordNumber(a, b, c, d);
    WordDigits(w);
  }

  lemma WordDigits(w: bv32)
    ensures BigEndian(w as nat, 4) == WordBytes(w)
  {
    hide *;
    var t := WordBytes(w);
    BytesRead(w);
    WordNumber(t[0], t[1], t[2], t[3]);
    FourDigits(t[0], t[1], t[2], t[3]);
    assert t == [t[0], t[1], t[2], t[3]];
  }

  lemma WordRead(a: byte, b: byte, c: byte, d: byte)
    ensures WordBytes(BigEndianWord(a, b, c, d)) == [a, b, c, d]
  {
    LowJoined(Bits(a), Bits(b), Bits(c), Bits(d));
    hide Joined, ByteAt, Bits;
  }

  lemma WordNumber(a: byte, b: byte, c: byte, d: byte)
    ensures BigEndianWord(a, b, c, d) as nat == ((a * 256 + b) * 256 + c) * 256 + d
  {
    hide Joined, Bits;
    JoinedNumber(Bits(a), Bits(b), Bits(c), Bits(d));
  }

  lemma JoinedNumber(a: bv8, b: bv8, c: bv8, d: bv8)
    ensures Joined(a, b, c, d) as nat == ((a as nat * 256 + b as nat) * 256 + c as nat) * 256 + d as nat
  {
    hide *;
    JoinedBits(a, b, c, d);
    JoinedIs(a, b, c, d);
  }

  lemma JoinedBits(a: bv8, b: bv8, c: bv8, d: bv8)
    ensures Joined(a, b, c, d) == ((a as bv32) << 24) | ((b as bv32) << 16) | ((c as bv32) << 8) | (d as bv32)
  {}

  lemma BytesRead(w: bv32)
    ensures var t := WordBytes(w); BigEndianWord(t[0], t[1], t[2], t[3]) == w
  {
    JoinedLow(w);
    hide Joined, ByteAt, Bits;
    BitsOfByte(ByteAt(w, 24));
    BitsOfByte(ByteAt(w, 16));
    BitsOfByte(ByteAt(w, 8));
    BitsOfByte(ByteAt(w, 0));
  }

  lemma FourDigits(a: byte, b: byte, c: byte, d: byte)
    ensures BigEndian(((a * 256 + b) * 256 + c) * 256 + d, 4) == [a, b, c, d]
  {
    var x := (a * 256 + b) * 256 + c;
    assert BigEndian(a, 1) == [a];
    assert BigEndian(a * 256 + b, 2) == [a, b];
    assert BigEndian(x, 3) == [a, b, c];
  }
}
