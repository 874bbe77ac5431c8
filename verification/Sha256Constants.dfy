/** The constants of SHA-256 are roots of the first primes, as FIPS 180-4 defines them. */
module Sha256Constants {
  import opened Powers
  import opened Sha256s

  // ----- Constants ----------------------------------------------------------------------------

  const PRIMES: seq<nat> :=
    [2, 3, 5, 7, 11, 13, 17, 19] +
    [23, 29, 31, 37, 41, 43, 47, 53] +
    [59, 61, 67, 71, 73, 79, 83, 89] +
    [97, 101, 103, 107, 109, 113, 127, 131] +
    [137, 139, 149, 151, 157, 163, 167, 173] +
    [179, 181, 191, 193, 197, 199, 211, 223] +
    [227, 229, 233, 239, 241, 251, 257, 263] +
    [269, 271, 277, 281, 283, 293, 307, 311]

  predicate Divides(d: nat, n: nat)
    requires d > 0
  { n % d == 0 }

  ghost predicate Prime(n: nat) { n >= 2 && forall d :: 2 <= d < n ==> !Divides(d, n) }

  /** No prime up to 17 divides `n`. */
  predicate Coprime(n: nat) {
    n % 2 != 0 && n % 3 != 0 && n % 5 != 0 && n % 7 != 0 && n % 11 != 0 && n % 13 != 0 && n % 17 != 0
  }

  lemma ProductDivides(d: int, k: int)
    requires d > 0
    ensures d * k % d == 0 && d * k / d == k
  { QuotientIs(d * k, d, k, 0); }

  lemma DividesThrough(q: nat, d: nat, n: nat)
    requires q > 0 && d > 0 && Divides(q, d) && Divides(d, n)
    ensures Divides(q, n)
  {
    var j, k := d / q, n / d;
    DivIdentity(d, q);
    DivIdentity(n, d);
    assert n == q * (j * k);
    ProductDivides(q, j * k);
  }

  lemma SmallDivisor(n: nat, d: nat)
    requires Coprime(n) && 2 <= d <= 18
    ensures !Divides(d, n)
  {
    var q := if d % 2 == 0 then 2 else if d % 3 == 0 then 3 else d;
    if Divides(d, n) { DividesThrough(q, d, n); }
  }

  /** A number below 19 * 19 that no prime up to 17 divides is a prime. */
  lemma CoprimeIsPrime(n: nat)
    requires 2 <= n < 361 && Coprime(n)
    ensures Prime(n)
  {
    forall d | 2 <= d < n ensures !Divides(d, n) {
      if d <= 18 {
        SmallDivisor(n, d);
      } else if Divides(d, n) {
        Cofactor(n, d);
        SmallDivisor(n, n / d);
      }
    }
  }

  lemma Cofactor(n: nat, d: nat)
    requires 19 <= d < n < 361 && Divides(d, n)
    ensures 2 <= n / d <= 18 && Divides(n / d, n)
  {
    var k := n / d;
    DivIdentity(n, d);
    assert d * k == n;
    if k >= 19 { Less(19, 19, d, k); }
    assert k != 1 && k * d == n;
    ProductDivides(k, d);
  }

  lemma Less(a: nat, b: nat, c: nat, d: nat)
    requires a <= c && b <= d
    ensures a * b <= c * d
  {
    assert c * d == a * b + a * (d - b) + (c - a) * d;
    NonNegative(a, d - b);
    NonNegative(c - a, d);
  }

  lemma Wheel(n: nat)
    requires n % 2 != 0 && n % 3 != 0 && n % 5 != 0
    ensures n == 30 * (n / 30) + n % 30 && n % 30 in {1, 7, 11, 13, 17, 19, 23, 29}
  {
    var k, r := n / 30, n % 30;
    QuotientIs(n, 2, 15 * k + r / 2, r % 2);
    QuotientIs(n, 3, 10 * k + r / 3, r % 3);
    QuotientIs(n, 5, 6 * k + r / 5, r % 5);
    Remainder(r);
  }

  lemma Remainder(r: nat)
    requires r < 30 && r % 2 != 0 && r % 3 != 0 && r % 5 != 0
    ensures r in {1, 7, 11, 13, 17, 19, 23, 29}
  {}

  // The numbers from 19 on that no prime up to 17 divides, some at a time, and where they stand in the list.

  lemma Sieved7(n: nat)
    requires 19 <= n < 59 && Coprime(n)
    ensures n in {19, 23, 29, 31, 37, 41, 43, 47, 53}
  {
    Wheel(n);
    assert 0 <= n / 30 <= 1;
  }

  lemma Listed7()
    ensures PRIMES[7..16] == [19, 23, 29, 31, 37, 41, 43, 47, 53]
    ensures forall p :: p in PRIMES[7..16] ==> 2 <= p < 361 && Coprime(p)
  {}

  lemma Sieved16(n: nat)
    requires 59 <= n < 97 && Coprime(n)
    ensures n in {59, 61, 67, 71, 73, 79, 83, 89}
  {
    Wheel(n);
    assert 1 <= n / 30 <= 3;
  }

  lemma Listed16()
    ensures PRIMES[16..24] == [59, 61, 67, 71, 73, 79, 83, 89]
    ensures forall p :: p in PRIMES[16..24] ==> 2 <= p < 361 && Coprime(p)
  {}

  lemma Sieved24(n: nat)
    requires 97 <= n < 137 && Coprime(n)
    ensures n in {97, 101, 103, 107, 109, 113, 127, 131}
  {
    Wheel(n);
    assert 3 <= n / 30 <= 4;
  }

  lemma Listed24()
    ensures PRIMES[24..32] == [97, 101, 103, 107, 109, 113, 127, 131]
    ensures forall p :: p in PRIMES[24..32] ==> 2 <= p < 361 && Coprime(p)
  {}

  lemma Sieved32(n: nat)
    requires 137 <= n < 179 && Coprime(n)
    ensures n in {137, 139, 149, 151, 157, 163, 167, 173}
  {
    Wheel(n);
    assert 4 <= n / 30 <= 5;
  }

  lemma Listed32()
    ensures PRIMES[32..40] == [137, 139, 149, 151, 157, 163, 167, 173]
    ensures forall p :: p in PRIMES[32..40] ==> 2 <= p < 361 && Coprime(p)
  {}

  lemma Sieved40(n: nat)
    requires 179 <= n < 227 && Coprime(n)
    ensures n in {179, 181, 191, 193, 197, 199, 211, 223}
  {
    Wheel(n);
    assert 5 <= n / 30 <= 7;
  }

  lemma Listed40()
    ensures PRIMES[40..48] == [179, 181, 191, 193, 197, 199, 211, 223]
    ensures forall p :: p in PRIMES[40..48] ==> 2 <= p < 361 && Coprime(p)
  {}

  lemma Sieved48(n: nat)
    requires 227 <= n < 269 && Coprime(n)
    ensures n in {227, 229, 233, 239, 241, 251, 257, 263}
  {
    Wheel(n);
    assert 7 <= n / 30 <= 8;
  }

  lemma Listed48()
    ensures PRIMES[48..56] == [227, 229, 233, 239, 241, 251, 257, 263]
    ensures forall p :: p in PRIMES[48..56] ==> 2 <= p < 361 && Coprime(p)
  {}

  lemma Sieved56(n: nat)
    requires 269 <= n < 312 && Coprime(n)
    ensures n in {269, 271, 277, 281, 283, 293, 307, 311}
  {
    Wheel(n);
    assert 8 <= n / 30 <= 10;
  }

  lemma Listed56()
    ensures PRIMES[56..64] == [269, 271, 277, 281, 283, 293, 307, 311]
    ensures forall p :: p in PRIMES[56..64] ==> 2 <= p < 361 && Coprime(p)
  {}

  lemma Listed0()
    ensures |PRIMES| == 64 && PRIMES[..7] == [2, 3, 5, 7, 11, 13, 17]
  {}

  lemma SmallPrime(n: nat)
    requires n in {2, 3, 5, 7, 11, 13, 17}
    ensures Prime(n)
  {
    forall d | 2 <= d < n ensures !Divides(d, n) {
      var q := if d % 2 == 0 then 2 else if d % 3 == 0 then 3 else d;
      assert q in {2, 3, 5, 7, 11, 13};
      if Divides(d, n) { DividesThrough(q, d, n); }
    }
  }

  lemma SmallListed(n: nat)
    requires n <= 18 && Prime(n)
    ensures n in {2, 3, 5, 7, 11, 13, 17}
  {
    assert n > 2 ==> !Divides(2, n);
    assert n > 3 ==> !Divides(3, n);
  }

  lemma InRow(t: nat, lo: nat, hi: nat)
    requires lo <= t < hi <= |PRIMES|
    ensures PRIMES[t] in PRIMES[lo..hi]
  { assert PRIMES[t] == PRIMES[lo..hi][t - lo]; }

  lemma RowIsCoprime(t: nat)
    requires 7 <= t < |PRIMES|
    ensures 2 <= PRIMES[t] < 361 && Coprime(PRIMES[t])
  {
    hide *;
    Listed0();
    if t < 16 {
      Listed7();
      InRow(t, 7, 16);
    } else if t < 24 {
      Listed16();
      InRow(t, 16, 24);
    } else if t < 32 {
      Listed24();
      InRow(t, 24, 32);
    } else if t < 40 {
      Listed32();
      InRow(t, 32, 40);
    } else if t < 48 {
      Listed40();
      InRow(t, 40, 48);
    } else if t < 56 {
      Listed48();
      InRow(t, 48, 56);
    } else {
      Listed56();
      InRow(t, 56, 64);
    }
  }

  /** The list holds primes only. */
  lemma AllPrime(t: nat)
    requires t < |PRIMES|
    ensures Prime(PRIMES[t])
  {
    hide *;
    Listed0();
    if t < 7 {
      InRow(t, 0, 7);
      assert PRIMES[0..7] == PRIMES[..7];
      SmallPrime(PRIMES[t]);
    } else {
      RowIsCoprime(t);
      CoprimeIsPrime(PRIMES[t]);
    }
  }

  lemma MemberIsListed(n: nat, lo: nat, hi: nat)
    requires lo <= hi <= |PRIMES| && n in PRIMES[lo..hi]
    ensures n in PRIMES
  {}

  /** And it leaves out none up to its last. */
  lemma NoneMissing(n: nat)
    requires n <= 311 && Prime(n)
    ensures n in PRIMES
  {
    hide *;
    Listed0();
    if n <= 18 {
      SmallListed(n);
      assert PRIMES[0..7] == PRIMES[..7];
      MemberIsListed(n, 0, 7);
    } else {
      PrimeIsCoprime(n);
      if n < 59 {
        Sieved7(n);
        Listed7();
        MemberIsListed(n, 7, 16);
      } else if n < 97 {
        Sieved16(n);
        Listed16();
        MemberIsListed(n, 16, 24);
      } else if n < 137 {
        Sieved24(n);
        Listed24();
        MemberIsListed(n, 24, 32);
      } else if n < 179 {
        Sieved32(n);
        Listed32();
        MemberIsListed(n, 32, 40);
      } else if n < 227 {
        Sieved40(n);
        Listed40();
        MemberIsListed(n, 40, 48);
      } else if n < 269 {
        Sieved48(n);
        Listed48();
        MemberIsListed(n, 48, 56);
      } else {
        Sieved56(n);
        Listed56();
        MemberIsListed(n, 56, 64);
      }
    }
  }

  lemma PrimeIsCoprime(n: nat)
    requires n > 18 && Prime(n)
    ensures Coprime(n)
  {
    assert !Divides(2, n) && !Divides(3, n) && !Divides(5, n) && !Divides(7, n);
    assert !Divides(11, n) && !Divides(13, n) && !Divides(17, n);
  }

  /** `n * 2^32 + k` is the `e`-th root of `p * 2^(32 e)`, rounded down. */
  predicate RootAt(n: nat, k: nat, p: nat, e: nat) {
    Power(n * TWO32 + k, e) <= p * Power(TWO32, e) < Power(n * TWO32 + k + 1, e)
  }

  function Power(b: nat, e: nat): nat { if e == 0 then 1 else b * Power(b, e - 1) }

  /** `k` is the first 32 bits of the fraction of the `e`-th root of `p`. */
  ghost predicate RootFraction(k: nat, p: nat, e: nat) { k < TWO32 && exists n :: RootAt(n, k, p, e) }

  lemma Cube(b: nat)
    ensures Power(b, 3) == b * (b * b)
  { assert Power(b, 3) == b * Power(b, 2) && Power(b, 2) == b * Power(b, 1) && Power(b, 1) == b; }

  lemma Square(b: nat)
    ensures Power(b, 2) == b * b
  { assert Power(b, 2) == b * Power(b, 1) && Power(b, 1) == b; }

  ghost predicate CubeFraction(k: bv32, p: nat) { RootFraction(k as nat, p, 3) }

  lemma CubeRootOf(n: nat, k: nat, p: nat)
    requires var r := n * TWO32 + k;
      r * (r * r) <= p * 0x1_0000_0000_0000_0000_0000_0000 < (r + 1) * ((r + 1) * (r + 1))
    requires k < TWO32
    ensures RootFraction(k, p, 3)
  {
    Cube(n * TWO32 + k);
    Cube(n * TWO32 + k + 1);
    Cube(TWO32);
    assert RootAt(n, k, p, 3);
  }

  lemma CubeRoot(n: nat, k: bv32, p: nat)
    requires var r := n * TWO32 + k as nat;
      r * (r * r) <= p * 0x1_0000_0000_0000_0000_0000_0000 < (r + 1) * ((r + 1) * (r + 1))
    requires k as nat < TWO32
    ensures CubeFraction(k, p)
  {
    hide RootFraction;
    CubeRootOf(n, k as nat, p);
  }

  lemma CubeRoots0(t: nat)
    requires 0 <= t < 8
    ensures CubeFraction(K[t], PRIMES[t])
  {
    hide CubeFraction;
    if t == 0 { CubeRoot(1, 0x428a2f98, 2); }
    else if t == 1 { CubeRoot(1, 0x71374491, 3); }
    else if t == 2 { CubeRoot(1, 0xb5c0fbcf, 5); }
    else if t == 3 { CubeRoot(1, 0xe9b5dba5, 7); }
    else if t == 4 { CubeRoot(2, 0x3956c25b, 11); }
    else if t == 5 { CubeRoot(2, 0x59f111f1, 13); }
    else if t == 6 { CubeRoot(2, 0x923f82a4, 17); }
    else if t == 7 { CubeRoot(2, 0xab1c5ed5, 19); }
  }

  lemma CubeRoots8(t: nat)
    requires 8 <= t < 16
    ensures CubeFraction(K[t], PRIMES[t])
  {
    hide CubeFraction;
    if t == 8 { CubeRoot(2, 0xd807aa98, 23); }
    else if t == 9 { CubeRoot(3, 0x12835b01, 29); }
    else if t == 10 { CubeRoot(3, 0x243185be, 31); }
    else if t == 11 { CubeRoot(3, 0x550c7dc3, 37); }
    else if t == 12 { CubeRoot(3, 0x72be5d74, 41); }
    else if t == 13 { CubeRoot(3, 0x80deb1fe, 43); }
    else if t == 14 { CubeRoot(3, 0x9bdc06a7, 47); }
    else if t == 15 { CubeRoot(3, 0xc19bf174, 53); }
  }

  lemma CubeRoots16(t: nat)
    requires 16 <= t < 24
    ensures CubeFraction(K[t], PRIMES[t])
  {
    hide CubeFraction;
    if t == 16 { CubeRoot(3, 0xe49b69c1, 59); }
    else if t == 17 { CubeRoot(3, 0xefbe4786, 61); }
    else if t == 18 { CubeRoot(4, 0x0fc19dc6, 67); }
    else if t == 19 { CubeRoot(4, 0x240ca1cc, 71); }
    else if t == 20 { CubeRoot(4, 0x2de92c6f, 73); }
    else if t == 21 { CubeRoot(4, 0x4a7484aa, 79); }
    else if t == 22 { CubeRoot(4, 0x5cb0a9dc, 83); }
    else if t == 23 { CubeRoot(4, 0x76f988da, 89); }
  }

  lemma CubeRoots24(t: nat)
    requires 24 <= t < 32
    ensures CubeFraction(K[t], PRIMES[t])
  {
    hide CubeFraction;
    if t == 24 { CubeRoot(4, 0x983e5152, 97); }
    else if t == 25 { CubeRoot(4, 0xa831c66d, 101); }
    else if t == 26 { CubeRoot(4, 0xb00327c8, 103); }
    else if t == 27 { CubeRoot(4, 0xbf597fc7, 107); }
    else if t == 28 { CubeRoot(4, 0xc6e00bf3, 109); }
    else if t == 29 { CubeRoot(4, 0xd5a79147, 113); }
    else if t == 30 { CubeRoot(5, 0x06ca6351, 127); }
    else if t == 31 { CubeRoot(5, 0x14292967, 131); }
  }

  lemma CubeRoots32(t: nat)
    requires 32 <= t < 40
    ensures CubeFraction(K[t], PRIMES[t])
  {
    hide CubeFraction;
    if t == 32 { CubeRoot(5, 0x27b70a85, 137); }
    else if t == 33 { CubeRoot(5, 0x2e1b2138, 139); }
    else if t == 34 { CubeRoot(5, 0x4d2c6dfc, 149); }
    else if t == 35 { CubeRoot(5, 0x53380d13, 151); }
    else if t == 36 { CubeRoot(5, 0x650a7354, 157); }
    else if t == 37 { CubeRoot(5, 0x766a0abb, 163); }
    else if t == 38 { CubeRoot(5, 0x81c2c92e, 167); }
    else if t == 39 { CubeRoot(5, 0x92722c85, 173); }
  }

  lemma CubeRoots40(t: nat)
    requires 40 <= t < 48
    ensures CubeFraction(K[t], PRIMES[t])
  {
    hide CubeFraction;
    if t == 40 { CubeRoot(5, 0xa2bfe8a1, 179); }
    else if t == 41 { CubeRoot(5, 0xa81a664b, 181); }
    else if t == 42 { CubeRoot(5, 0xc24b8b70, 191); }
    else if t == 43 { CubeRoot(5, 0xc76c51a3, 193); }
    else if t == 44 { CubeRoot(5, 0xd192e819, 197); }
    else if t == 45 { CubeRoot(5, 0xd6990624, 199); }
    else if t == 46 { CubeRoot(5, 0xf40e3585, 211); }
    else if t == 47 { CubeRoot(6, 0x106aa070, 223); }
  }

  lemma CubeRoots48(t: nat)
    requires 48 <= t < 56
    ensures CubeFraction(K[t], PRIMES[t])
  {
    hide CubeFraction;
    if t == 48 { CubeRoot(6, 0x19a4c116, 227); }
    else if t == 49 { CubeRoot(6, 0x1e376c08, 229); }
    else if t == 50 { CubeRoot(6, 0x2748774c, 233); }
    else if t == 51 { CubeRoot(6, 0x34b0bcb5, 239); }
    else if t == 52 { CubeRoot(6, 0x391c0cb3, 241); }
    else if t == 53 { CubeRoot(6, 0x4ed8aa4a, 251); }
    else if t == 54 { CubeRoot(6, 0x5b9cca4f, 257); }
    else if t == 55 { CubeRoot(6, 0x682e6ff3, 263); }
  }

  lemma CubeRoots56(t: nat)
    requires 56 <= t < 64
    ensures CubeFraction(K[t], PRIMES[t])
  {
    hide CubeFraction;
    if t == 56 { CubeRoot(6, 0x748f82ee, 269); }
    else if t == 57 { CubeRoot(6, 0x78a5636f, 271); }
    else if t == 58 { CubeRoot(6, 0x84c87814, 277); }
    else if t == 59 { CubeRoot(6, 0x8cc70208, 281); }
    else if t == 60 { CubeRoot(6, 0x90befffa, 283); }
    else if t == 61 { CubeRoot(6, 0xa4506ceb, 293); }
    else if t == 62 { CubeRoot(6, 0xbef9a3f7, 307); }
    else if t == 63 { CubeRoot(6, 0xc67178f2, 311); }
  }

  lemma ConstantCount()
    ensures |K| == 64
  {}

  lemma NextLarger(t: nat)
    requires t < 63
    ensures |PRIMES| == 64 && PRIMES[t] < PRIMES[t + 1]
  {}

  lemma {:induction false} Ascending(u: nat, t: nat)
    requires u < t < |PRIMES| == 64
    ensures PRIMES[u] < PRIMES[t]
  {
    hide PRIMES;
    NextLarger(t - 1);
    if u < t - 1 { Ascending(u, t - 1); }
  }

  /** Section 4.2.2: the constants are the first 32 bits of the fractions of the cube roots of the first 64
      primes, in order. */
  lemma ConstantsAreRoots(t: nat)
    requires t < 64
    ensures |K| == |PRIMES| == 64 && Prime(PRIMES[t]) && CubeFraction(K[t], PRIMES[t])
    ensures forall u :: 0 <= u < t ==> PRIMES[u] < PRIMES[t]
  {
    hide *;
    ConstantCount();
    Listed0();
    AllPrime(t);
    forall u | 0 <= u < t ensures PRIMES[u] < PRIMES[t] { Ascending(u, t); }
    if t < 8 { CubeRoots0(t); } else if t < 16 { CubeRoots8(t); }
    else if t < 24 { CubeRoots16(t); } else if t < 32 { CubeRoots24(t); }
    else if t < 40 { CubeRoots32(t); } else if t < 48 { CubeRoots40(t); }
    else if t < 56 { CubeRoots48(t); } else { CubeRoots56(t); }
  }

  lemma SquareRoot(n: nat, k: nat, p: nat)
    requires var r := n * TWO32 + k; r * r <= p * 0x1_0000_0000_0000_0000 < (r + 1) * (r + 1)
    requires k < TWO32
    ensures RootFraction(k, p, 2)
  {
    Square(n * TWO32 + k);
    Square(n * TWO32 + k + 1);
    Square(TWO32);
    assert RootAt(n, k, p, 2);
  }

  ghost predicate SquareFraction(k: bv32, p: nat) { RootFraction(k as nat, p, 2) }

  /** Section 5.3.3: the initial hash value, from the square roots of the first eight primes. */
  lemma InitialValueIsRoots()
    ensures SquareFraction(IV.a, PRIMES[0]) && SquareFraction(IV.b, PRIMES[1]) && SquareFraction(IV.c, PRIMES[2])
    ensures SquareFraction(IV.d, PRIMES[3]) && SquareFraction(IV.e, PRIMES[4]) && SquareFraction(IV.f, PRIMES[5])
    ensures SquareFraction(IV.g, PRIMES[6]) && SquareFraction(IV.h, PRIMES[7])
  {
    Listed0();
    Listed7();
    assert PRIMES[7] == PRIMES[7..16][0] == 19;
    InitialFractions();
    FirstEight(PRIMES);
    hide *;
  }

  lemma FirstEight(ps: seq<nat>)
    requires |ps| >= 7 && ps[..7] == [2, 3, 5, 7, 11, 13, 17]
    ensures ps[0] == 2 && ps[1] == 3 && ps[2] == 5 && ps[3] == 7 && ps[4] == 11 && ps[5] == 13 && ps[6] == 17
  {
    var row := ps[..7];
    assert row[0] == ps[0] && row[1] == ps[1] && row[2] == ps[2] && row[3] == ps[3];
    assert row[4] == ps[4] && row[5] == ps[5] && row[6] == ps[6];
  }

  lemma InitialFractions()
    ensures SquareFraction(IV.a, 2) && SquareFraction(IV.b, 3) && SquareFraction(IV.c, 5) && SquareFraction(IV.d, 7)
    ensures SquareFraction(IV.e, 11) && SquareFraction(IV.f, 13) && SquareFraction(IV.g, 17) && SquareFraction(IV.h, 19)
  {
    SquareRoot(1, 0x6a09e667, 2);
    SquareRoot(1, 0xbb67ae85, 3);
    SquareRoot(2, 0x3c6ef372, 5);
    SquareRoot(2, 0xa54ff53a, 7);
    SquareRoot(3, 0x510e527f, 11);
    SquareRoot(3, 0x9b05688c, 13);
    SquareRoot(4, 0x1f83d9ab, 17);
    SquareRoot(4, 0x5be0cd19, 19);
  }
}
