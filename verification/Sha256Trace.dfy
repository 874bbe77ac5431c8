/** The digest of `abc`, round by round.

    The literals are the trace of FIPS 180-4 for that message: its words, and the values that each round gives
    to the working variables `a` and `e`. */
module Sha256Trace {
  import opened Sha256s

  /** The one block of the message `abc`: its bytes, the bit 1, zeros, and its length in bits. */
  predicate AbcBlock(block: Bytes) {
    && |block| == 64 && block[..4] == [0x61, 0x62, 0x63, 0x80] && block[63] == 24
    && forall i :: 4 <= i < 63 ==> block[i] == 0
  }

  // ----- The words ----------------------------------------------------------------------------

  lemma ByteBits()
    ensures Bits(0) == 0 && Bits(0x61) == 0x61 && Bits(0x62) == 0x62 && Bits(0x63) == 0x63
    ensures Bits(0x80) == 0x80 && Bits(24) == 24
  {}

  lemma FirstWords(block: Bytes, t: nat)
    requires AbcBlock(block) && t < 16
    ensures Schedule(block, t) == if t == 0 then 0x61626380 else if t == 15 then 24 else 0
  {
    ByteBits();
    hide Bits;
  }

  lemma NextIs(block: Bytes, t: nat, w2: bv32, w7: bv32, w15: bv32, w16: bv32, w: bv32)
    requires |block| == 64 && 16 <= t < 64 && NextWord(w2, w7, w15, w16) == w
    requires Schedule(block, t - 2) == w2 && Schedule(block, t - 7) == w7
    requires Schedule(block, t - 15) == w15 && Schedule(block, t - 16) == w16
    ensures Schedule(block, t) == w
  {}

  lemma Words0(block: Bytes)
    requires AbcBlock(block)
    ensures Schedule(block, 0) == 0x61626380 && Schedule(block, 1) == 0x00000000
    ensures Schedule(block, 2) == 0x00000000 && Schedule(block, 3) == 0x00000000
    ensures Schedule(block, 4) == 0x00000000 && Schedule(block, 5) == 0x00000000
    ensures Schedule(block, 6) == 0x00000000 && Schedule(block, 7) == 0x00000000
  {
    hide Schedule;
    FirstWords(block, 0); FirstWords(block, 1); FirstWords(block, 2); FirstWords(block, 3);
    FirstWords(block, 4); FirstWords(block, 5); FirstWords(block, 6); FirstWords(block, 7);
  }

  lemma Words8(block: Bytes)
    requires AbcBlock(block)
    ensures Schedule(block, 8) == 0x00000000 && Schedule(block, 9) == 0x00000000
    ensures Schedule(block, 10) == 0x00000000 && Schedule(block, 11) == 0x00000000
    ensures Schedule(block, 12) == 0x00000000 && Schedule(block, 13) == 0x00000000
    ensures Schedule(block, 14) == 0x00000000 && Schedule(block, 15) == 0x00000018
  {
    hide Schedule;
    FirstWords(block, 8); FirstWords(block, 9); FirstWords(block, 10); FirstWords(block, 11);
    FirstWords(block, 12); FirstWords(block, 13); FirstWords(block, 14); FirstWords(block, 15);
  }

  lemma Words16(block: Bytes)
    requires AbcBlock(block)
    ensures Schedule(block, 16) == 0x61626380 && Schedule(block, 17) == 0x000f0000
    ensures Schedule(block, 18) == 0x7da86405 && Schedule(block, 19) == 0x600003c6
    ensures Schedule(block, 20) == 0x3e9d7b78 && Schedule(block, 21) == 0x0183fc00
    ensures Schedule(block, 22) == 0x12dcbfdb && Schedule(block, 23) == 0xe2e2c38e
  {
    hide Schedule;
    Words0(block);
    Words8(block);
    NextIs(block, 16, 0x00000000, 0x00000000, 0x00000000, 0x61626380, 0x61626380);
    NextIs(block, 17, 0x00000018, 0x00000000, 0x00000000, 0x00000000, 0x000f0000);
    NextIs(block, 18, 0x61626380, 0x00000000, 0x00000000, 0x00000000, 0x7da86405);
    NextIs(block, 19, 0x000f0000, 0x00000000, 0x00000000, 0x00000000, 0x600003c6);
    NextIs(block, 20, 0x7da86405, 0x00000000, 0x00000000, 0x00000000, 0x3e9d7b78);
    NextIs(block, 21, 0x600003c6, 0x00000000, 0x00000000, 0x00000000, 0x0183fc00);
    NextIs(block, 22, 0x3e9d7b78, 0x00000018, 0x00000000, 0x00000000, 0x12dcbfdb);
    NextIs(block, 23, 0x0183fc00, 0x61626380, 0x00000000, 0x00000000, 0xe2e2c38e);
  }

  lemma Words24(block: Bytes)
    requires AbcBlock(block)
    ensures Schedule(block, 24) == 0xc8215c1a && Schedule(block, 25) == 0xb73679a2
    ensures Schedule(block, 26) == 0xe5bc3909 && Schedule(block, 27) == 0x32663c5b
    ensures Schedule(block, 28) == 0x9d209d67 && Schedule(block, 29) == 0xec8726cb
    ensures Schedule(block, 30) == 0x702138a4 && Schedule(block, 31) == 0xd3b7973b
  {
    hide Schedule;
    Words8(block);
    Words16(block);
    NextIs(block, 24, 0x12dcbfdb, 0x000f0000, 0x00000000, 0x00000000, 0xc8215c1a);
    NextIs(block, 25, 0xe2e2c38e, 0x7da86405, 0x00000000, 0x00000000, 0xb73679a2);
    NextIs(block, 26, 0xc8215c1a, 0x600003c6, 0x00000000, 0x00000000, 0xe5bc3909);
    NextIs(block, 27, 0xb73679a2, 0x3e9d7b78, 0x00000000, 0x00000000, 0x32663c5b);
    NextIs(block, 28, 0xe5bc3909, 0x0183fc00, 0x00000000, 0x00000000, 0x9d209d67);
    NextIs(block, 29, 0x32663c5b, 0x12dcbfdb, 0x00000000, 0x00000000, 0xec8726cb);
    NextIs(block, 30, 0x9d209d67, 0xe2e2c38e, 0x00000018, 0x00000000, 0x702138a4);
    NextIs(block, 31, 0xec8726cb, 0xc8215c1a, 0x61626380, 0x00000018, 0xd3b7973b);
  }

  lemma Words32(block: Bytes)
    requires AbcBlock(block)
    ensures Schedule(block, 32) == 0x93f5997f && Schedule(block, 33) == 0x3b68ba73
    ensures Schedule(block, 34) == 0xaff4ffc1 && Schedule(block, 35) == 0xf10a5c62
    ensures Schedule(block, 36) == 0x0a8b3996 && Schedule(block, 37) == 0x72af830a
    ensures Schedule(block, 38) == 0x9409e33e && Schedule(block, 39) == 0x24641522
  {
    hide Schedule;
    Words16(block);
    Words24(block);
    NextIs(block, 32, 0x702138a4, 0xb73679a2, 0x000f0000, 0x61626380, 0x93f5997f);
    NextIs(block, 33, 0xd3b7973b, 0xe5bc3909, 0x7da86405, 0x000f0000, 0x3b68ba73);
    NextIs(block, 34, 0x93f5997f, 0x32663c5b, 0x600003c6, 0x7da86405, 0xaff4ffc1);
    NextIs(block, 35, 0x3b68ba73, 0x9d209d67, 0x3e9d7b78, 0x600003c6, 0xf10a5c62);
    NextIs(block, 36, 0xaff4ffc1, 0xec8726cb, 0x0183fc00, 0x3e9d7b78, 0x0a8b3996);
    NextIs(block, 37, 0xf10a5c62, 0x702138a4, 0x12dcbfdb, 0x0183fc00, 0x72af830a);
    NextIs(block, 38, 0x0a8b3996, 0xd3b7973b, 0xe2e2c38e, 0x12dcbfdb, 0x9409e33e);
    NextIs(block, 39, 0x72af830a, 0x93f5997f, 0xc8215c1a, 0xe2e2c38e, 0x24641522);
  }

  lemma Words40(block: Bytes)
    requires AbcBlock(block)
    ensures Schedule(block, 40) == 0x9f47bf94 && Schedule(block, 41) == 0xf0a64f5a
    ensures Schedule(block, 42) == 0x3e246a79 && Schedule(block, 43) == 0x27333ba3
    ensures Schedule(block, 44) == 0x0c4763f2 && Schedule(block, 45) == 0x840abf27
    ensures Schedule(block, 46) == 0x7a290d5d && Schedule(block, 47) == 0x065c43da
  {
    hide Schedule;
    Words24(block);
    Words32(block);
    NextIs(block, 40, 0x9409e33e, 0x3b68ba73, 0xb73679a2, 0xc8215c1a, 0x9f47bf94);
    NextIs(block, 41, 0x24641522, 0xaff4ffc1, 0xe5bc3909, 0xb73679a2, 0xf0a64f5a);
    NextIs(block, 42, 0x9f47bf94, 0xf10a5c62, 0x32663c5b, 0xe5bc3909, 0x3e246a79);
    NextIs(block, 43, 0xf0a64f5a, 0x0a8b3996, 0x9d209d67, 0x32663c5b, 0x27333ba3);
    NextIs(block, 44, 0x3e246a79, 0x72af830a, 0xec8726cb, 0x9d209d67, 0x0c4763f2);
    NextIs(block, 45, 0x27333ba3, 0x9409e33e, 0x702138a4, 0xec8726cb, 0x840abf27);
    NextIs(block, 46, 0x0c4763f2, 0x24641522, 0xd3b7973b, 0x702138a4, 0x7a290d5d);
    NextIs(block, 47, 0x840abf27, 0x9f47bf94, 0x93f5997f, 0xd3b7973b, 0x065c43da);
  }

  lemma Words48(block: Bytes)
    requires AbcBlock(block)
    ensures Schedule(block, 48) == 0xfb3e89cb && Schedule(block, 49) == 0xcc7617db
    ensures Schedule(block, 50) == 0xb9e66c34 && Schedule(block, 51) == 0xa9993667
    ensures Schedule(block, 52) == 0x84badedd && Schedule(block, 53) == 0xc21462bc
    ensures Schedule(block, 54) == 0x1487472c && Schedule(block, 55) == 0xb20f7a99
  {
    hide Schedule;
    Words32(block);
    Words40(block);
    NextIs(block, 48, 0x7a290d5d, 0xf0a64f5a, 0x3b68ba73, 0x93f5997f, 0xfb3e89cb);
    NextIs(block, 49, 0x065c43da, 0x3e246a79, 0xaff4ffc1, 0x3b68ba73, 0xcc7617db);
    NextIs(block, 50, 0xfb3e89cb, 0x27333ba3, 0xf10a5c62, 0xaff4ffc1, 0xb9e66c34);
    NextIs(block, 51, 0xcc7617db, 0x0c4763f2, 0x0a8b3996, 0xf10a5c62, 0xa9993667);
    NextIs(block, 52, 0xb9e66c34, 0x840abf27, 0x72af830a, 0x0a8b3996, 0x84badedd);
    NextIs(block, 53, 0xa9993667, 0x7a290d5d, 0x9409e33e, 0x72af830a, 0xc21462bc);
    NextIs(block, 54, 0x84badedd, 0x065c43da, 0x24641522, 0x9409e33e, 0x1487472c);
    NextIs(block, 55, 0xc21462bc, 0xfb3e89cb, 0x9f47bf94, 0x24641522, 0xb20f7a99);
  }

  lemma Words56(block: Bytes)
    requires AbcBlock(block)
    ensures Schedule(block, 56) == 0xef57b9cd && Schedule(block, 57) == 0xebe6b238
    ensures Schedule(block, 58) == 0x9fe3095e && Schedule(block, 59) == 0x78bc8d4b
    ensures Schedule(block, 60) == 0xa43fcf15 && Schedule(block, 61) == 0x668b2ff8
    ensures Schedule(block, 62) == 0xeeaba2cc && Schedule(block, 63) == 0x12b1edeb
  {
    hide Schedule;
    Words40(block);
    Words48(block);
    NextIs(block, 56, 0x1487472c, 0xcc7617db, 0xf0a64f5a, 0x9f47bf94, 0xef57b9cd);
    NextIs(block, 57, 0xb20f7a99, 0xb9e66c34, 0x3e246a79, 0xf0a64f5a, 0xebe6b238);
    NextIs(block, 58, 0xef57b9cd, 0xa9993667, 0x27333ba3, 0x3e246a79, 0x9fe3095e);
    NextIs(block, 59, 0xebe6b238, 0x84badedd, 0x0c4763f2, 0x27333ba3, 0x78bc8d4b);
    NextIs(block, 60, 0x9fe3095e, 0xc21462bc, 0x840abf27, 0x0c4763f2, 0xa43fcf15);
    NextIs(block, 61, 0x78bc8d4b, 0x1487472c, 0x7a290d5d, 0x840abf27, 0x668b2ff8);
    NextIs(block, 62, 0xa43fcf15, 0xb20f7a99, 0x065c43da, 0x7a290d5d, 0xeeaba2cc);
    NextIs(block, 63, 0x668b2ff8, 0xef57b9cd, 0xfb3e89cb, 0x065c43da, 0x12b1edeb);
  }

  // ----- The rounds ---------------------------------------------------------------------------

  /** One round moves the variables on and computes `a` and `e`. */
  function Moved(s: State, a: bv32, e: bv32): State { State(a, s.a, s.b, s.c, e, s.e, s.f, s.g) }

  lemma RoundIs(block: Bytes, t: nat, s: State, k: bv32, w: bv32, a: bv32, e: bv32)
    requires |block| == 64 && t < 64 && Rounds(IV, block, t) == s
    requires K[t] == k && Schedule(block, t) == w && Round(s, k, w) == Moved(s, a, e)
    ensures Rounds(IV, block, t + 1) == Moved(s, a, e)
  {}

  lemma Rounds0(block: Bytes)
    requires AbcBlock(block)
    ensures Rounds(IV, block, 8)
      == State(0x85a07b5f, 0xe5030380, 0x2b4209f5, 0x04409a6a, 0x0c657a79, 0x9b27a401, 0x714260ad, 0x43ada245)
  {
    hide Schedule, Rounds;
    RoundsStart(block);
    var s0 := IV;
    Words0(block);
    RoundIs(block, 0, s0, 0x428a2f98, 0x61626380, 0x5d6aebcd, 0xfa2a4622);
    var s1 := Moved(s0, 0x5d6aebcd, 0xfa2a4622);
    RoundIs(block, 1, s1, 0x71374491, 0x00000000, 0x5a6ad9ad, 0x78ce7989);
    var s2 := Moved(s1, 0x5a6ad9ad, 0x78ce7989);
    RoundIs(block, 2, s2, 0xb5c0fbcf, 0x00000000, 0xc8c347a7, 0xf92939eb);
    var s3 := Moved(s2, 0xc8c347a7, 0xf92939eb);
    RoundIs(block, 3, s3, 0xe9b5dba5, 0x00000000, 0xd550f666, 0x24e00850);
    var s4 := Moved(s3, 0xd550f666, 0x24e00850);
    RoundIs(block, 4, s4, 0x3956c25b, 0x00000000, 0x04409a6a, 0x43ada245);
    var s5 := Moved(s4, 0x04409a6a, 0x43ada245);
    RoundIs(block, 5, s5, 0x59f111f1, 0x00000000, 0x2b4209f5, 0x714260ad);
    var s6 := Moved(s5, 0x2b4209f5, 0x714260ad);
    RoundIs(block, 6, s6, 0x923f82a4, 0x00000000, 0xe5030380, 0x9b27a401);
    var s7 := Moved(s6, 0xe5030380, 0x9b27a401);
    RoundIs(block, 7, s7, 0xab1c5ed5, 0x00000000, 0x85a07b5f, 0x0c657a79);
  }

  lemma Rounds8(block: Bytes)
    requires AbcBlock(block)
    ensures Rounds(IV, block, 16)
      == State(0xb0fa238e, 0xc0645fde, 0xd932eb16, 0x87912990, 0x07590dcd, 0x0b92f20c, 0x745a48de, 0x1e578218)
  {
    hide Schedule, Rounds;
    Rounds0(block);
    var s0 := State(0x85a07b5f, 0xe5030380, 0x2b4209f5, 0x04409a6a, 0x0c657a79, 0x9b27a401, 0x714260ad, 0x43ada245);
    Words8(block);
    RoundIs(block, 8, s0, 0xd807aa98, 0x00000000, 0x8e04ecb9, 0x32ca2d8c);
    var s1 := Moved(s0, 0x8e04ecb9, 0x32ca2d8c);
    RoundIs(block, 9, s1, 0x12835b01, 0x00000000, 0x8c87346b, 0x1cc92596);
    var s2 := Moved(s1, 0x8c87346b, 0x1cc92596);
    RoundIs(block, 10, s2, 0x243185be, 0x00000000, 0x4798a3f4, 0x436b23e8);
    var s3 := Moved(s2, 0x4798a3f4, 0x436b23e8);
    RoundIs(block, 11, s3, 0x550c7dc3, 0x00000000, 0xf71fc5a9, 0x816fd6e9);
    var s4 := Moved(s3, 0xf71fc5a9, 0x816fd6e9);
    RoundIs(block, 12, s4, 0x72be5d74, 0x00000000, 0x87912990, 0x1e578218);
    var s5 := Moved(s4, 0x87912990, 0x1e578218);
    RoundIs(block, 13, s5, 0x80deb1fe, 0x00000000, 0xd932eb16, 0x745a48de);
    var s6 := Moved(s5, 0xd932eb16, 0x745a48de);
    RoundIs(block, 14, s6, 0x9bdc06a7, 0x00000000, 0xc0645fde, 0x0b92f20c);
    var s7 := Moved(s6, 0xc0645fde, 0x0b92f20c);
    RoundIs(block, 15, s7, 0xc19bf174, 0x00000018, 0xb0fa238e, 0x07590dcd);
  }

  lemma Rounds16(block: Bytes)
    requires AbcBlock(block)
    ensures Rounds(IV, block, 24)
      == State(0xc5d53d8d, 0xa7a3623f, 0xc2606d6d, 0x9dc68b63, 0xaa47c347, 0x49f5114a, 0xe1257970, 0x8ada8930)
  {
    hide Schedule, Rounds;
    Rounds8(block);
    var s0 := State(0xb0fa238e, 0xc0645fde, 0xd932eb16, 0x87912990, 0x07590dcd, 0x0b92f20c, 0x745a48de, 0x1e578218);
    Words16(block);
    RoundIs(block, 16, s0, 0xe49b69c1, 0x61626380, 0x21da9a9b, 0x8034229c);
    var s1 := Moved(s0, 0x21da9a9b, 0x8034229c);
    RoundIs(block, 17, s1, 0xefbe4786, 0x000f0000, 0xc2fbd9d1, 0x846ee454);
    var s2 := Moved(s1, 0xc2fbd9d1, 0x846ee454);
    RoundIs(block, 18, s2, 0x0fc19dc6, 0x7da86405, 0xfe777bbf, 0xcc899961);
    var s3 := Moved(s2, 0xfe777bbf, 0xcc899961);
    RoundIs(block, 19, s3, 0x240ca1cc, 0x600003c6, 0xe1f20c33, 0xb0638179);
    var s4 := Moved(s3, 0xe1f20c33, 0xb0638179);
    RoundIs(block, 20, s4, 0x2de92c6f, 0x3e9d7b78, 0x9dc68b63, 0x8ada8930);
    var s5 := Moved(s4, 0x9dc68b63, 0x8ada8930);
    RoundIs(block, 21, s5, 0x4a7484aa, 0x0183fc00, 0xc2606d6d, 0xe1257970);
    var s6 := Moved(s5, 0xc2606d6d, 0xe1257970);
    RoundIs(block, 22, s6, 0x5cb0a9dc, 0x12dcbfdb, 0xa7a3623f, 0x49f5114a);
    var s7 := Moved(s6, 0xa7a3623f, 0x49f5114a);
    RoundIs(block, 23, s7, 0x76f988da, 0xe2e2c38e, 0xc5d53d8d, 0xaa47c347);
  }

  lemma Rounds24(block: Bytes)
    requires AbcBlock(block)
    ensures Rounds(IV, block, 32)
      == State(0x73b33bf5, 0xea992a22, 0xa0060b30, 0x363482c9, 0xba591112, 0x0109ab3a, 0xade79437, 0x6112a3b7)
  {
    hide Schedule, Rounds;
    Rounds16(block);
    var s0 := State(0xc5d53d8d, 0xa7a3623f, 0xc2606d6d, 0x9dc68b63, 0xaa47c347, 0x49f5114a, 0xe1257970, 0x8ada8930);
    Words24(block);
    RoundIs(block, 24, s0, 0x983e5152, 0xc8215c1a, 0x1c2c2838, 0x2823ef91);
    var s1 := Moved(s0, 0x1c2c2838, 0x2823ef91);
    RoundIs(block, 25, s1, 0xa831c66d, 0xb73679a2, 0xcde8037d, 0x14383d8e);
    var s2 := Moved(s1, 0xcde8037d, 0x14383d8e);
    RoundIs(block, 26, s2, 0xb00327c8, 0xe5bc3909, 0xb62ec4bc, 0xc74c6516);
    var s3 := Moved(s2, 0xb62ec4bc, 0xc74c6516);
    RoundIs(block, 27, s3, 0xbf597fc7, 0x32663c5b, 0x77d37528, 0xedffbff8);
    var s4 := Moved(s3, 0x77d37528, 0xedffbff8);
    RoundIs(block, 28, s4, 0xc6e00bf3, 0x9d209d67, 0x363482c9, 0x6112a3b7);
    var s5 := Moved(s4, 0x363482c9, 0x6112a3b7);
    RoundIs(block, 29, s5, 0xd5a79147, 0xec8726cb, 0xa0060b30, 0xade79437);
    var s6 := Moved(s5, 0xa0060b30, 0xade79437);
    RoundIs(block, 30, s6, 0x06ca6351, 0x702138a4, 0xea992a22, 0x0109ab3a);
    var s7 := Moved(s6, 0xea992a22, 0x0109ab3a);
    RoundIs(block, 31, s7, 0x14292967, 0xd3b7973b, 0x73b33bf5, 0xba591112);
  }

  lemma Rounds32(block: Bytes)
    requires AbcBlock(block)
    ensures Rounds(IV, block, 40)
      == State(0x79ea687a, 0x6dc57a8a, 0x34df1604, 0x41a65cb1, 0x1efbc0a0, 0xf0781bc8, 0xa507a53d, 0x0772a26b)
  {
    hide Schedule, Rounds;
    Rounds24(block);
    var s0 := State(0x73b33bf5, 0xea992a22, 0xa0060b30, 0x363482c9, 0xba591112, 0x0109ab3a, 0xade79437, 0x6112a3b7);
    Words32(block);
    RoundIs(block, 32, s0, 0x27b70a85, 0x93f5997f, 0x98e12507, 0x9cd9f5f6);
    var s1 := Moved(s0, 0x98e12507, 0x9cd9f5f6);
    RoundIs(block, 33, s1, 0x2e1b2138, 0x3b68ba73, 0xfe604df5, 0x59249dd3);
    var s2 := Moved(s1, 0xfe604df5, 0x59249dd3);
    RoundIs(block, 34, s2, 0x4d2c6dfc, 0xaff4ffc1, 0xa9a7738c, 0x085f3833);
    var s3 := Moved(s2, 0xa9a7738c, 0x085f3833);
    RoundIs(block, 35, s3, 0x53380d13, 0xf10a5c62, 0x65a0cfe4, 0xf4b002d6);
    var s4 := Moved(s3, 0x65a0cfe4, 0xf4b002d6);
    RoundIs(block, 36, s4, 0x650a7354, 0x0a8b3996, 0x41a65cb1, 0x0772a26b);
    var s5 := Moved(s4, 0x41a65cb1, 0x0772a26b);
    RoundIs(block, 37, s5, 0x766a0abb, 0x72af830a, 0x34df1604, 0xa507a53d);
    var s6 := Moved(s5, 0x34df1604, 0xa507a53d);
    RoundIs(block, 38, s6, 0x81c2c92e, 0x9409e33e, 0x6dc57a8a, 0xf0781bc8);
    var s7 := Moved(s6, 0x6dc57a8a, 0xf0781bc8);
    RoundIs(block, 39, s7, 0x92722c85, 0x24641522, 0x79ea687a, 0x1efbc0a0);
  }

  lemma Rounds40(block: Bytes)
    requires AbcBlock(block)
    ensures Rounds(IV, block, 48)
      == State(0x4172328d, 0xa14c14b0, 0x72ab4b91, 0x26628815, 0xfecf0bc6, 0xd57b94a9, 0xb7755da1, 0xa80f11f0)
  {
    hide Schedule, Rounds;
    Rounds32(block);
    var s0 := State(0x79ea687a, 0x6dc57a8a, 0x34df1604, 0x41a65cb1, 0x1efbc0a0, 0xf0781bc8, 0xa507a53d, 0x0772a26b);
    Words40(block);
    RoundIs(block, 40, s0, 0xa2bfe8a1, 0x9f47bf94, 0xd6670766, 0x26352d63);
    var s1 := Moved(s0, 0xd6670766, 0x26352d63);
    RoundIs(block, 41, s1, 0xa81a664b, 0xf0a64f5a, 0xdf46652f, 0x838b2711);
    var s2 := Moved(s1, 0xdf46652f, 0x838b2711);
    RoundIs(block, 42, s2, 0xc24b8b70, 0x3e246a79, 0x17aa0dfe, 0xdecd4715);
    var s3 := Moved(s2, 0x17aa0dfe, 0xdecd4715);
    RoundIs(block, 43, s3, 0xc76c51a3, 0x27333ba3, 0x9d4baf93, 0xfda24c2e);
    var s4 := Moved(s3, 0x9d4baf93, 0xfda24c2e);
    RoundIs(block, 44, s4, 0xd192e819, 0x0c4763f2, 0x26628815, 0xa80f11f0);
    var s5 := Moved(s4, 0x26628815, 0xa80f11f0);
    RoundIs(block, 45, s5, 0xd6990624, 0x840abf27, 0x72ab4b91, 0xb7755da1);
    var s6 := Moved(s5, 0x72ab4b91, 0xb7755da1);
    RoundIs(block, 46, s6, 0xf40e3585, 0x7a290d5d, 0xa14c14b0, 0xd57b94a9);
    var s7 := Moved(s6, 0xa14c14b0, 0xd57b94a9);
    RoundIs(block, 47, s7, 0x106aa070, 0x065c43da, 0x4172328d, 0xfecf0bc6);
  }

  lemma Rounds48(block: Bytes)
    requires AbcBlock(block)
    ensures Rounds(IV, block, 56)
      == State(0x38cc9913, 0x3ec45cdb, 0xf5702fdb, 0x101fd28f, 0x54cb266b, 0xe50e1b4f, 0x9f4787c3, 0x529e7d00)
  {
    hide Schedule, Rounds;
    Rounds40(block);
    var s0 := State(0x4172328d, 0xa14c14b0, 0x72ab4b91, 0x26628815, 0xfecf0bc6, 0xd57b94a9, 0xb7755da1, 0xa80f11f0);
    Words48(block);
    RoundIs(block, 48, s0, 0x19a4c116, 0xfb3e89cb, 0x05757ceb, 0xbd714038);
    var s1 := Moved(s0, 0x05757ceb, 0xbd714038);
    RoundIs(block, 49, s1, 0x1e376c08, 0xcc7617db, 0xf11bfaa8, 0x6e5c390c);
    var s2 := Moved(s1, 0xf11bfaa8, 0x6e5c390c);
    RoundIs(block, 50, s2, 0x2748774c, 0xb9e66c34, 0x7a0508a1, 0x52f1ccf7);
    var s3 := Moved(s2, 0x7a0508a1, 0x52f1ccf7);
    RoundIs(block, 51, s3, 0x34b0bcb5, 0xa9993667, 0x886e7a22, 0x49231c1e);
    var s4 := Moved(s3, 0x886e7a22, 0x49231c1e);
    RoundIs(block, 52, s4, 0x391c0cb3, 0x84badedd, 0x101fd28f, 0x529e7d00);
    var s5 := Moved(s4, 0x101fd28f, 0x529e7d00);
    RoundIs(block, 53, s5, 0x4ed8aa4a, 0xc21462bc, 0xf5702fdb, 0x9f4787c3);
    var s6 := Moved(s5, 0xf5702fdb, 0x9f4787c3);
    RoundIs(block, 54, s6, 0x5b9cca4f, 0x1487472c, 0x3ec45cdb, 0xe50e1b4f);
    var s7 := Moved(s6, 0x3ec45cdb, 0xe50e1b4f);
    RoundIs(block, 55, s7, 0x682e6ff3, 0xb20f7a99, 0x38cc9913, 0x54cb266b);
  }

  lemma Rounds56(block: Bytes)
    requires AbcBlock(block)
    ensures Rounds(IV, block, 64)
      == State(0x506e3058, 0xd39a2165, 0x04d24d6c, 0xb85e2ce9, 0x5ef50f24, 0xfb121210, 0x948d25b6, 0x961f4894)
  {
    hide Schedule, Rounds;
    Rounds48(block);
    var s0 := State(0x38cc9913, 0x3ec45cdb, 0xf5702fdb, 0x101fd28f, 0x54cb266b, 0xe50e1b4f, 0x9f4787c3, 0x529e7d00);
    Words56(block);
    RoundIs(block, 56, s0, 0x748f82ee, 0xef57b9cd, 0xfcd1887b, 0x9b5e906c);
    var s1 := Moved(s0, 0xfcd1887b, 0x9b5e906c);
    RoundIs(block, 57, s1, 0x78a5636f, 0xebe6b238, 0xc062d46f, 0x7e44008e);
    var s2 := Moved(s1, 0xc062d46f, 0x7e44008e);
    RoundIs(block, 58, s2, 0x84c87814, 0x9fe3095e, 0xffb70472, 0x6d83bfc6);
    var s3 := Moved(s2, 0xffb70472, 0x6d83bfc6);
    RoundIs(block, 59, s3, 0x8cc70208, 0x78bc8d4b, 0xb6ae8fff, 0xb21bad3d);
    var s4 := Moved(s3, 0xb6ae8fff, 0xb21bad3d);
    RoundIs(block, 60, s4, 0x90befffa, 0xa43fcf15, 0xb85e2ce9, 0x961f4894);
    var s5 := Moved(s4, 0xb85e2ce9, 0x961f4894);
    RoundIs(block, 61, s5, 0xa4506ceb, 0x668b2ff8, 0x04d24d6c, 0x948d25b6);
    var s6 := Moved(s5, 0x04d24d6c, 0x948d25b6);
    RoundIs(block, 62, s6, 0xbef9a3f7, 0xeeaba2cc, 0xd39a2165, 0xfb121210);
    var s7 := Moved(s6, 0xd39a2165, 0xfb121210);
    RoundIs(block, 63, s7, 0xc67178f2, 0x12b1edeb, 0x506e3058, 0x5ef50f24);
  }

  lemma RoundsStart(block: Bytes)
    requires |block| == 64
    ensures Rounds(IV, block, 0) == IV
  {}

  // ----- The digest ---------------------------------------------------------------------------

  lemma ZerosAre(n: nat)
    ensures forall i :: 0 <= i < n ==> Zeros(n)[i] == 0
  {
    if n > 0 { ZerosAre(n - 1); }
  }

  lemma LengthOfAbc()
    ensures BigEndian(24, 8) == [0, 0, 0, 0, 0, 0, 0, 24]
  {
    assert BigEndian(0, 1) == [0];
    assert BigEndian(0, 3) == [0, 0, 0];
    assert BigEndian(0, 5) == [0, 0, 0, 0, 0];
    assert BigEndian(0, 7) == [0, 0, 0, 0, 0, 0, 0];
  }

  lemma PaddedAbc(m: Bytes)
    requires m == [0x61, 0x62, 0x63]
    ensures AbcBlock(Pad(m))
  {
    LengthOfAbc();
    ZerosAre(52);
    assert Pad(m) == m + ([0x80] + Zeros(52) + BigEndian(24, 8));
    hide Zeros, BigEndian, Pad;
  }

  lemma OneBlock(block: Bytes)
    requires |block| == 64
    ensures Fold(IV, block) == AddState(IV, Rounds(IV, block, 64))
  {
    hide Rounds, AddState;
    assert block[..0] == [] && block[0..] == block;
    assert Fold(IV, []) == IV;
  }

  lemma Sums()
    ensures AddState(IV,
      State(0x506e3058, 0xd39a2165, 0x04d24d6c, 0xb85e2ce9, 0x5ef50f24, 0xfb121210, 0x948d25b6, 0x961f4894))
      == State(0xba7816bf, 0x8f01cfea, 0x414140de, 0x5dae2223, 0xb00361a3, 0x96177a9c, 0xb410ff61, 0xf20015ad)
  {}

  lemma WordsWritten()
    ensures WordBytes(0xba7816bf) == [0xba, 0x78, 0x16, 0xbf] && WordBytes(0x8f01cfea) == [0x8f, 0x01, 0xcf, 0xea]
    ensures WordBytes(0x414140de) == [0x41, 0x41, 0x40, 0xde] && WordBytes(0x5dae2223) == [0x5d, 0xae, 0x22, 0x23]
    ensures WordBytes(0xb00361a3) == [0xb0, 0x03, 0x61, 0xa3] && WordBytes(0x96177a9c) == [0x96, 0x17, 0x7a, 0x9c]
    ensures WordBytes(0xb410ff61) == [0xb4, 0x10, 0xff, 0x61] && WordBytes(0xf20015ad) == [0xf2, 0x00, 0x15, 0xad]
  {}

  lemma FoldOfAbc(block: Bytes)
    requires AbcBlock(block) && |block| == 64
    ensures Fold(IV, block)
      == State(0xba7816bf, 0x8f01cfea, 0x414140de, 0x5dae2223, 0xb00361a3, 0x96177a9c, 0xb410ff61, 0xf20015ad)
  {
    hide *;
    OneBlock(block);
    Rounds56(block);
    Sums();
  }

  lemma DigestIs()
    ensures Digest(
      State(0xba7816bf, 0x8f01cfea, 0x414140de, 0x5dae2223, 0xb00361a3, 0x96177a9c, 0xb410ff61, 0xf20015ad)) == [
      0xba, 0x78, 0x16, 0xbf, 0x8f, 0x01, 0xcf, 0xea, 0x41, 0x41, 0x40, 0xde, 0x5d, 0xae, 0x22, 0x23,
      0xb0, 0x03, 0x61, 0xa3, 0x96, 0x17, 0x7a, 0x9c, 0xb4, 0x10, 0xff, 0x61, 0xf2, 0x00, 0x15, 0xad]
  {
    WordsWritten();
    hide WordBytes;
  }

  /** The digest that FIPS 180-4 publishes for the message `abc`. */
  lemma DigestOfAbc(m: Bytes)
    requires m == [0x61, 0x62, 0x63]
    ensures Hash(m) == [
      0xba, 0x78, 0x16, 0xbf, 0x8f, 0x01, 0xcf, 0xea, 0x41, 0x41, 0x40, 0xde, 0x5d, 0xae, 0x22, 0x23,
      0xb0, 0x03, 0x61, 0xa3, 0x96, 0x17, 0x7a, 0x9c, 0xb4, 0x10, 0xff, 0x61, 0xf2, 0x00, 0x15, 0xad]
  {
    hide *;
    PaddedAbc(m);
    BlockLength(Pad(m));
    FoldOfAbc(Pad(m));
    DigestIs();
    HashIs(m);
  }

  lemma HashIs(m: Bytes)
    ensures Hash(m) == Digest(Fold(IV, Pad(m)))
  { hide Pad, Fold, Digest; }

  lemma BlockLength(block: Bytes)
    requires AbcBlock(block)
    ensures |block| == 64
  {}
}
