/** Streaming SHA-256.

    `Hash` is the one-shot definition of FIPS 180-4: pad the message (section 5.1.1), then fold the
    block function over its blocks (section 6.2.2).  The class `Context` takes the message in pieces
    and is proved against it. */
module Sha256s {
  import opened Powers

  type byte = b: int | 0 <= b < 256
  type Bytes = seq<byte>

  const TWO32: nat := 0x1_0000_0000
  const TWO61: nat := 0x2000_0000_0000_0000
  const TWO29: nat := 0x2000_0000

  // ----- The block function -------------------------------------------------------------------

  const K: seq<bv32> :=
    [0x428a2f98, 0x71374491, 0xb5c0fbcf, 0xe9b5dba5, 0x3956c25b, 0x59f111f1, 0x923f82a4, 0xab1c5ed5] +
    [0xd807aa98, 0x12835b01, 0x243185be, 0x550c7dc3, 0x72be5d74, 0x80deb1fe, 0x9bdc06a7, 0xc19bf174] +
    [0xe49b69c1, 0xefbe4786, 0x0fc19dc6, 0x240ca1cc, 0x2de92c6f, 0x4a7484aa, 0x5cb0a9dc, 0x76f988da] +
    [0x983e5152, 0xa831c66d, 0xb00327c8, 0xbf597fc7, 0xc6e00bf3, 0xd5a79147, 0x06ca6351, 0x14292967] +
    [0x27b70a85, 0x2e1b2138, 0x4d2c6dfc, 0x53380d13, 0x650a7354, 0x766a0abb, 0x81c2c92e, 0x92722c85] +
    [0xa2bfe8a1, 0xa81a664b, 0xc24b8b70, 0xc76c51a3, 0xd192e819, 0xd6990624, 0xf40e3585, 0x106aa070] +
    [0x19a4c116, 0x1e376c08, 0x2748774c, 0x34b0bcb5, 0x391c0cb3, 0x4ed8aa4a, 0x5b9cca4f, 0x682e6ff3] +
    [0x748f82ee, 0x78a5636f, 0x84c87814, 0x8cc70208, 0x90befffa, 0xa4506ceb, 0xbef9a3f7, 0xc67178f2]

  function Rotr(x: bv32, n: bv32): bv32
    requires 0 < n < 32
  { (x >> n) | (x << (32 - n)) }

  function Ch(x: bv32, y: bv32, z: bv32): bv32 { (x & y) ^ (!x & z) }
  function Maj(x: bv32, y: bv32, z: bv32): bv32 { (x & y) ^ (x & z) ^ (y & z) }
  function BigSigma0(x: bv32): bv32 { Rotr(x, 2) ^ Rotr(x, 13) ^ Rotr(x, 22) }
  function BigSigma1(x: bv32): bv32 { Rotr(x, 6) ^ Rotr(x, 11) ^ Rotr(x, 25) }
  function SmallSigma0(x: bv32): bv32 { Rotr(x, 7) ^ Rotr(x, 18) ^ (x >> 3) }
  function SmallSigma1(x: bv32): bv32 { Rotr(x, 17) ^ Rotr(x, 19) ^ (x >> 10) }

  /** A byte as bits, counted up to. */
  function Bits(b: byte): (x: bv8)
    ensures x as nat == b
  { if b == 0 then 0 else Bits(b - 1) + 1 }

  function Joined(a: bv8, b: bv8, c: bv8, d: bv8): bv32 {
    ((a as bv32) << 24) | ((b as bv32) << 16) | ((c as bv32) << 8) | (d as bv32)
  }

  function BigEndianWord(a: byte, b: byte, c: byte, d: byte): bv32 { Joined(Bits(a), Bits(b), Bits(c), Bits(d)) }

  function NextWord(w2: bv32, w7: bv32, w15: bv32, w16: bv32): bv32 {
    SmallSigma1(w2) + w7 + SmallSigma0(w15) + w16
  }

  /** The message schedule. */
  function Schedule(block: Bytes, t: nat): bv32
    requires |block| == 64 && t < 64
  {
    if t < 16 then BigEndianWord(block[4 * t], block[4 * t + 1], block[4 * t + 2], block[4 * t + 3])
    else NextWord(Schedule(block, t - 2), Schedule(block, t - 7), Schedule(block, t - 15), Schedule(block, t - 16))
  }

  lemma ScheduleStarts(block: Bytes, t: nat)
    requires |block| == 64 && t < 16
    ensures Schedule(block, t) == BigEndianWord(block[4 * t], block[4 * t + 1], block[4 * t + 2], block[4 * t + 3])
  {}

  lemma ScheduleGoesOn(block: Bytes, t: nat)
    requires |block| == 64 && 16 <= t < 64
    ensures Schedule(block, t) == NextWord(Schedule(block, t - 2), Schedule(block, t - 7), Schedule(block, t - 15),
                                           Schedule(block, t - 16))
  {}

  datatype State = State(a: bv32, b: bv32, c: bv32, d: bv32, e: bv32, f: bv32, g: bv32, h: bv32)

  function Round(s: State, k: bv32, w: bv32): State {
    var t1 := s.h + BigSigma1(s.e) + Ch(s.e, s.f, s.g) + k + w;
    var t2 := BigSigma0(s.a) + Maj(s.a, s.b, s.c);
    State(t1 + t2, s.a, s.b, s.c, s.d + t1, s.e, s.f, s.g)
  }

  function Rounds(s: State, block: Bytes, t: nat): State
    requires |block| == 64 && t <= 64
  {
    if t == 0 then s else Round(Rounds(s, block, t - 1), K[t - 1], Schedule(block, t - 1))
  }

  function AddState(s: State, r: State): State {
    State(s.a + r.a, s.b + r.b, s.c + r.c, s.d + r.d, s.e + r.e, s.f + r.f, s.g + r.g, s.h + r.h)
  }

  function Compress(s: State, block: Bytes): State
    requires |block| == 64
  {
    AddState(s, Rounds(s, block, 64))
  }

  // ----- The one-shot definition --------------------------------------------------------------

  const IV := State(0x6a09e667, 0xbb67ae85, 0x3c6ef372, 0xa54ff53a, 0x510e527f, 0x9b05688c, 0x1f83d9ab, 0x5be0cd19)

  function Fold(s: State, m: Bytes): State
    requires |m| % 64 == 0
  {
    if m == [] then s else Compress(Fold(s, m[..|m| - 64]), m[|m| - 64..])
  }

  function BigEndian(x: nat, n: nat): (t: Bytes)
    ensures |t| == n
  { if n == 0 then [] else BigEndian(x / 256, n - 1) + [x % 256] }

  function Zeros(n: nat): (t: Bytes)
    ensures |t| == n
  { if n == 0 then [] else Zeros(n - 1) + [0] }

  /** How many zero bytes follow the 0x80: the fewest that leave room for the length. */
  function ZeroCount(n: nat): (z: nat)
    ensures (n + 1 + z) % 64 == 56
  { if n % 64 < 56 then 55 - n % 64 else 119 - n % 64 }

  lemma FewestZeros(n: nat, y: nat)
    requires (n + 1 + y) % 64 == 56
    ensures ZeroCount(n) <= y
  {}

  function PadTail(n: nat, length: Bytes): (t: Bytes)
    ensures |length| == 8 ==> (n + |t|) % 64 == 0
  { [0x80] + Zeros(ZeroCount(n)) + length }

  /** Section 5.1.1: the length is that of the message in bits. */
  function Pad(m: Bytes): (p: Bytes)
    ensures |p| % 64 == 0
  { hide PadTail, BigEndian; m + PadTail(|m|, BigEndian(8 * |m|, 8)) }

  function ByteAt(w: bv32, shift: bv32): bv8
    requires shift < 32
  { ((w >> shift) & 0xff) as bv8 }

  function WordBytes(w: bv32): (t: Bytes)
    ensures |t| == 4
  { [ByteAt(w, 24) as int, ByteAt(w, 16) as int, ByteAt(w, 8) as int, ByteAt(w, 0) as int] }

  function Digest(s: State): Bytes {
    WordBytes(s.a) + WordBytes(s.b) + WordBytes(s.c) + WordBytes(s.d)
    + WordBytes(s.e) + WordBytes(s.f) + WordBytes(s.g) + WordBytes(s.h)
  }

  function Hash(m: Bytes): Bytes { Digest(Fold(IV, Pad(m))) }

  // ----- The length field ---------------------------------------------------------------------

  /** What `sha256_final` writes as the length after `n` bytes, `high` being the second counter: the
      low 32 bits of each of its two 64-bit counters. */
  function LengthField(high: nat, n: nat): Bytes { BigEndian(high, 4) + BigEndian(8 * n, 4) }

  function Pow256(n: nat): (p: nat)
    ensures p > 0
  { if n == 0 then 1 else 256 * Pow256(n - 1) }

  lemma BigEndianSplits(x: nat)
    ensures BigEndian(x, 8) == BigEndian(x / TWO32, 4) + BigEndian(x, 4)
  {
    var x1 := x / 256;
    var x2 := x1 / 256;
    var x3 := x2 / 256;
    assert x3 / 256 == x / TWO32;
    assert BigEndian(x3, 1) == [x3 % 256];
    assert BigEndian(x1, 3) == BigEndian(x2, 2) + [x1 % 256];
    assert BigEndian(x3, 5) == BigEndian(x3 / 256, 4) + BigEndian(x3, 1);
    assert BigEndian(x1, 7) == BigEndian(x2, 6) + [x1 % 256];
    assert BigEndian(x2, 6) == BigEndian(x3 / 256, 4) + BigEndian(x2, 2);
    assert BigEndian(x1, 7) == BigEndian(x3 / 256, 4) + BigEndian(x1, 3);
  }

  lemma {:induction false} BigEndianInjective(x: nat, y: nat, n: nat)
    requires x < Pow256(n) && y < Pow256(n)
    ensures BigEndian(x, n) == BigEndian(y, n) <==> x == y
  {
    if n > 0 && BigEndian(x, n) == BigEndian(y, n) {
      var a, b := BigEndian(x, n), BigEndian(y, n);
      assert a[n - 1] == x % 256 && b[n - 1] == y % 256;
      assert a[..n - 1] == BigEndian(x / 256, n - 1) && b[..n - 1] == BigEndian(y / 256, n - 1);
      BigEndianInjective(x / 256, y / 256, n - 1);
    }
  }

  /** The length field is the one of FIPS 180-4 exactly when the second counter holds the number of
      whole blocks of 2^29 bytes in the message. */
  lemma LengthFieldExact(high: nat, n: nat)
    requires n < TWO61 && high <= n / TWO29
    ensures LengthField(high, n) == BigEndian(8 * n, 8) <==> high == n / TWO29
  {
    assert Pow256(4) == TWO32;
    BigEndianSplits(8 * n);
    assert 8 * n / TWO32 == n / TWO29;
    BigEndianInjective(high, n / TWO29, 4);
    var a, b := LengthField(high, n), BigEndian(8 * n, 8);
    assert a[..4] == BigEndian(high, 4) && b[..4] == BigEndian(n / TWO29, 4);
    assert a[4..] == b[4..];
  }

  // ----- Folding ------------------------------------------------------------------------------

  lemma FoldBlock(s: State, m: Bytes, n: nat)
    requires n % 64 == 0 && n + 64 <= |m|
    ensures Fold(s, m[..n + 64]) == Compress(Fold(s, m[..n]), m[n..n + 64])
  {
    var p := m[..n + 64];
    assert p[..n] == m[..n] && p[n..] == m[n..n + 64];
  }

  /** The bytes of the last, incomplete block. */
  function Rest(data: Bytes): (r: Bytes)
    ensures |r| == |data| % 64
  { data[|data| - |data| % 64..] }

  function Whole(data: Bytes): (w: Bytes)
    ensures |w| % 64 == 0
  { data[..|data| - |data| % 64] }

  lemma ShortPiece(data: Bytes, chunk: Bytes)
    requires |data| % 64 + |chunk| < 64
    ensures Whole(data + chunk) == Whole(data) && Rest(data + chunk) == Rest(data) + chunk
  {
    var n, r := |data|, |data| % 64;
    assert (n + |chunk|) % 64 == r + |chunk|;
  }

  lemma FillBlock(data: Bytes, chunk: Bytes, part: nat)
    requires part == 64 - |data| % 64 <= |chunk|
    ensures var d := data + chunk;
      && (|data| + part) % 64 == 0
      && Fold(IV, d[..|data| + part]) == Compress(Fold(IV, Whole(data)), Rest(data) + chunk[..part])
  {
    hide Fold, Compress;
    var d, n := data + chunk, |data| - |data| % 64;
    FoldBlock(IV, d, n);
    assert d[..n] == Whole(data) && d[n..n + 64] == Rest(data) + chunk[..part];
  }

  lemma NextBlock(data: Bytes, chunk: Bytes, i: nat)
    requires (|data| + i) % 64 == 0 && i + 64 <= |chunk|
    ensures var d, k := data + chunk, |data| + i;
      Fold(IV, d[..k + 64]) == Compress(Fold(IV, d[..k]), chunk[i..i + 64])
  {
    hide Fold, Compress;
    var d := data + chunk;
    FoldBlock(IV, d, |data| + i);
    assert d[|data|..] == chunk;
    assert d[|data| + i..|data| + i + 64] == d[|data|..][i..i + 64];
  }

  lemma LastPiece(data: Bytes, chunk: Bytes, i: nat)
    requires (|data| + i) % 64 == 0 && i <= |chunk| < i + 64
    ensures Whole(data + chunk) == (data + chunk)[..|data| + i] && Rest(data + chunk) == chunk[i..]
  {
    assert |data + chunk| % 64 == |chunk| - i;
  }

  // ----- The object ---------------------------------------------------------------------------

  class Context {
    var state: State
    var count0: nat
    var count1: nat
    var buf: array<byte>

    /** The bytes taken so far, and the sum of `len >> 29` over the pieces they came in. */
    ghost var data: Bytes
    ghost var high: nat

    ghost predicate Valid()
      reads this, buf
    {
      var n := |data|;
      && buf.Length == 64
      && state == Fold(IV, Whole(data)) && buf[..n % 64] == Rest(data)
      && count0 == 8 * n % TWO64
      && high <= n / TWO29 && (n < TWO61 ==> count1 == high)
    }

    constructor ()
      ensures Valid() && fresh(buf) && data == [] && high == 0
    {
      state := IV;
      count0, count1 := 0, 0;
      buf := new byte[64](_ => 0);
      data, high := [], 0;
    }

    method Expand(block: Bytes) returns (w: array<bv32>)
      requires |block| == 64
      ensures fresh(w) && w.Length == 64 && forall j :: 0 <= j < 64 ==> w[j] == Schedule(block, j)
    {
      hide BigEndianWord, NextWord, Schedule;
      w := new bv32[64](_ => 0);
      for t := 0 to 16
        invariant forall j :: 0 <= j < t ==> w[j] == Schedule(block, j)
      {
        ScheduleStarts(block, t);
        w[t] := BigEndianWord(block[4 * t], block[4 * t + 1], block[4 * t + 2], block[4 * t + 3]);
      }
      for t := 16 to 64
        invariant forall j :: 0 <= j < t ==> w[j] == Schedule(block, j)
      {
        ScheduleGoesOn(block, t);
        w[t] := NextWord(w[t - 2], w[t - 7], w[t - 15], w[t - 16]);
      }
    }

    method Transform(block: Bytes)
      requires |block| == 64
      modifies this`state
      ensures state == Compress(old(state), block)
    {
      hide Schedule, Round, AddState;
      var w := Expand(block);
      var r := state;
      for t := 0 to 64
        invariant r == Rounds(state, block, t)
      {
        r := Round(r, K[t], w[t]);
      }
      state := AddState(state, r);
    }

    /** `memcpy(buf + at, data, len)`. */
    method CopyIn(at: nat, bytes: Bytes)
      requires at + |bytes| <= buf.Length
      modifies buf
      ensures buf[..] == old(buf[..at]) + bytes + old(buf[at + |bytes|..])
    {
      hide *;
      for i := 0 to |bytes|
        invariant buf[..] == old(buf[..at]) + bytes[..i] + old(buf[at + i..])
      {
        buf[at + i] := bytes[i];
        assert bytes[..i + 1] == bytes[..i] + [bytes[i]];
      }
      assert bytes[..|bytes|] == bytes;
    }

    /** The counter arithmetic of `sha256_update`. */
    method Count(len: nat)
      requires len < TWO64 && count0 < TWO64
      modifies this`count0, this`count1
      ensures count0 == (old(count0) + 8 * len % TWO64) % TWO64
      ensures count1 == ((if old(count0) + 8 * len % TWO64 < TWO64 then old(count1)
                          else (old(count1) + 1) % TWO64) + len / TWO29) % TWO64
    {
      var bits := 8 * len % TWO64;
      count0 := (count0 + bits) % TWO64;
      if count0 < bits { count1 := (count1 + 1) % TWO64; }
      count1 := (count1 + len / TWO29) % TWO64;
    }

    /** The buffer and the block loop of `sha256_update`, `taken` being the bytes before. */
    method Absorb(chunk: Bytes, index: nat, ghost taken: Bytes)
      requires buf.Length == 64 && index == |taken| % 64
      requires state == Fold(IV, Whole(taken)) && buf[..index] == Rest(taken)
      modifies this`state, buf
      ensures state == Fold(IV, Whole(taken + chunk))
      ensures buf[..|taken + chunk| % 64] == Rest(taken + chunk)
    {
      hide *;
      ghost var n := |taken|;
      var len, part := |chunk|, 64 - index;
      if len < part {
        ShortPiece(taken, chunk);
        CopyIn(index, chunk);
        return;
      }
      FillBlock(taken, chunk, part);
      CopyIn(index, chunk[..part]);
      assert buf[..] == Rest(taken) + chunk[..part];
      Transform(buf[..]);
      var i := part;
      while i + 63 < len
        invariant part <= i <= len && (n + i) % 64 == 0
        invariant state == Fold(IV, (taken + chunk)[..n + i])
        modifies this`state
      {
        NextBlock(taken, chunk, i);
        Transform(chunk[i..i + 64]);
        i := i + 64;
      }
      LastPiece(taken, chunk, i);
      CopyIn(0, chunk[i..]);
    }

    method Update(chunk: Bytes)
      requires Valid() && |chunk| < TWO64
      modifies this, buf
      ensures Valid() && buf == old(buf)
      ensures data == old(data) + chunk && high == old(high) + |chunk| / TWO29
    {
      hide Fold, Compress, Whole, Rest;
      CountStep(|data|, |chunk|, high, count1);
      var index := count0 / 8 % 64;
      Count(|chunk|);
      Absorb(chunk, index, data);
      data, high := data + chunk, high + |chunk| / TWO29;
    }

    /** `sha256_final`: the digest of what was taken, padded with the length the counters hold. */
    method Final() returns (digest: Bytes)
      requires Valid() && |data| < TWO61
      modifies this, buf
      ensures digest == Digest(Fold(IV, Padded(old(data), old(high))))
      ensures digest == Hash(old(data)) || old(high) != |old(data)| / TWO29
    {
      hide Fold, Compress, Whole, Rest, Digest, BigEndian, LowBytes, Zeros, LengthField, Pad, Padded;
      ghost var m, n, h := data, |data|, high;
      RestOfCount(n);
      FourBytes(count0);
      FourBytes(count1);
      PaddedIsPad(m, h);
      var bits := LowBytes(count1) + LowBytes(count0);
      FieldIs(h, n);
      assert count0 == 8 * n;
      var index := count0 / 8 % 64;
      var padlen := if index < 56 then 56 - index else 120 - index;
      PaddingOf(m, h, padlen);
      Update([0x80] + Zeros(padlen - 1));
      Update(bits);
      WholeOfBlocks(data);
      digest := Digest(state);
    }
  }

  lemma FieldIs(high: nat, n: nat)
    ensures LengthField(high, n) == BigEndian(high, 4) + BigEndian(8 * n, 4)
  {}

  lemma PaddingOf(m: Bytes, high: nat, padlen: nat)
    requires padlen == if |m| % 64 < 56 then 56 - |m| % 64 else 120 - |m| % 64
    ensures Padded(m, high) == m + ([0x80] + Zeros(padlen - 1)) + LengthField(high, |m|)
  {
    assert ZeroCount(|m|) == padlen - 1;
    assert m + ([0x80] + Zeros(padlen - 1) + LengthField(high, |m|))
        == m + ([0x80] + Zeros(padlen - 1)) + LengthField(high, |m|);
  }

  /** The message with the padding that `sha256_final` gives it. */
  function Padded(m: Bytes, high: nat): (p: Bytes)
    ensures |p| % 64 == 0
  { hide PadTail, BigEndian; m + PadTail(|m|, LengthField(high, |m|)) }

  /** The bytes that reach the block function are the padded message of FIPS 180-4 exactly when
      `len >> 29`, summed over the pieces, is that of the whole message. */
  lemma PaddedIsPad(m: Bytes, high: nat)
    requires |m| < TWO61 && high <= |m| / TWO29
    ensures Padded(m, high) == Pad(m) <==> high == |m| / TWO29
  {
    LengthFieldExact(high, |m|);
    var a, b := Padded(m, high), Pad(m);
    assert a[|m| + 1 + ZeroCount(|m|)..] == LengthField(high, |m|);
    assert b[|m| + 1 + ZeroCount(|m|)..] == BigEndian(8 * |m|, 8);
  }

  lemma WholeOfBlocks(m: Bytes)
    requires |m| % 64 == 0
    ensures Whole(m) == m
  {}

  /** The low 32 bits of a counter, as the four shifts and masks of `sha256_final` take them. */
  function LowBytes(count: nat): Bytes {
    [count / 0x100_0000 % 256, count / 0x1_0000 % 256, count / 256 % 256, count % 256]
  }

  lemma FourBytes(x: nat)
    ensures BigEndian(x, 4) == LowBytes(x)
  {
    assert BigEndian(x / 0x1_0000, 2) == BigEndian(x / 0x100_0000, 1) + [x / 0x1_0000 % 256];
    assert BigEndian(x / 256, 3) == BigEndian(x / 0x1_0000, 2) + [x / 256 % 256];
  }

  // ----- Messages in pieces -------------------------------------------------------------------

  function Concat(chunks: seq<Bytes>): Bytes {
    if chunks == [] then [] else Concat(chunks[..|chunks| - 1]) + chunks[|chunks| - 1]
  }

  function HighOf(chunks: seq<Bytes>): nat {
    if chunks == [] then 0 else HighOf(chunks[..|chunks| - 1]) + |chunks[|chunks| - 1]| / TWO29
  }

  lemma {:induction false} HighOfSmall(chunks: seq<Bytes>)
    requires forall i :: 0 <= i < |chunks| ==> |chunks[i]| < TWO29
    ensures HighOf(chunks) == 0
  { if chunks != [] { HighOfSmall(chunks[..|chunks| - 1]); } }

  /** init, any number of updates, final: below 2^29 bytes the digest is that of the whole message,
      however it was cut; above, as long as no block of 2^29 bytes is lost between pieces. */
  method HashPieces(chunks: seq<Bytes>) returns (digest: Bytes)
    requires |Concat(chunks)| < TWO61 && forall i :: 0 <= i < |chunks| ==> |chunks[i]| < TWO64
    ensures digest == Digest(Fold(IV, Padded(Concat(chunks), HighOf(chunks))))
    ensures HighOf(chunks) <= |Concat(chunks)| / TWO29
    ensures |Concat(chunks)| < TWO29 || HighOf(chunks) == |Concat(chunks)| / TWO29 ==> digest == Hash(Concat(chunks))
  {
    hide Fold, Compress, Digest;
    var ctx := new Context();
    for i := 0 to |chunks|
      invariant fresh(ctx) && fresh(ctx.buf) && ctx.Valid()
      invariant ctx.data == Concat(chunks[..i]) && ctx.high == HighOf(chunks[..i])
    {
      assert chunks[..i + 1][..i] == chunks[..i];
      ctx.Update(chunks[i]);
    }
    assert chunks[..|chunks|] == chunks;
    digest := ctx.Final();
  }

  /** `hash_file` reads pieces of at most 64 KiB, so a file of 2^29 bytes or more is padded with a
      wrong length: its digest is that of another byte string than the standard's. */
  lemma FilesFrom2To29AreMispadded(pieces: seq<Bytes>)
    requires |Concat(pieces)| < TWO61 && forall i :: 0 <= i < |pieces| ==> |pieces[i]| <= 65536
    ensures Padded(Concat(pieces), HighOf(pieces)) == Pad(Concat(pieces)) <==> |Concat(pieces)| < TWO29
  {
    HighOfSmall(pieces);
    PaddedIsPad(Concat(pieces), 0);
  }

  lemma RestOfCount(n: nat)
    ensures 8 * n % TWO64 / 8 % 64 == n % 64
  {}

  lemma CountAdds(n: nat, len: nat)
    ensures (8 * n % TWO64 + 8 * len % TWO64) % TWO64 == 8 * (n + len) % TWO64
  {
    var a, b := 8 * n / TWO64, 8 * len / TWO64;
    var r := 8 * n % TWO64 + 8 * len % TWO64;
    if r < TWO64 {
      assert 8 * (n + len) == TWO64 * (a + b) + r;
    } else {
      assert 8 * (n + len) == TWO64 * (a + b + 1) + (r - TWO64);
    }
  }

  lemma HighAdds(n: nat, len: nat)
    ensures n / TWO29 + len / TWO29 <= (n + len) / TWO29
  {}

  /** The counters stay those of the message, and below 2^61 bytes the low one never wraps. */
  lemma CountStep(n: nat, len: nat, high: nat, count1: nat)
    requires len < TWO64 && high <= n / TWO29 && (n < TWO61 ==> count1 == high)
    ensures 8 * n % TWO64 / 8 % 64 == n % 64
    ensures (8 * n % TWO64 + 8 * len % TWO64) % TWO64 == 8 * (n + len) % TWO64
    ensures high + len / TWO29 <= (n + len) / TWO29
    ensures n + len < TWO61 ==>
      8 * n % TWO64 + 8 * len % TWO64 < TWO64 && (count1 + len / TWO29) % TWO64 == high + len / TWO29
  {
    RestOfCount(n);
    CountAdds(n, len);
    HighAdds(n, len);
  }
}
