/** The test vector of FIPS 180-4 for "abc": the digest computed step by step from the
    definitions, with every intermediate word written out. */
module FipsVector {
  import opened CTypes
  import opened Fips180

  const ABC: seq<byte> := [0x61, 0x62, 0x63]

  /** The message schedule of the padded block. */
  function W(): (w: seq<bv32>)
    ensures |w| == 64
  {
    W_LOW + W_HIGH
  }

  const W_LOW: seq<bv32> :=
    [0x61626380, 0x00000000, 0x00000000, 0x00000000, 0x00000000, 0x00000000, 0x00000000, 0x00000000,
     0x00000000, 0x00000000, 0x00000000, 0x00000000, 0x00000000, 0x00000000, 0x00000000, 0x00000018,
     0x61626380, 0x000f0000, 0x7da86405, 0x600003c6, 0x3e9d7b78, 0x0183fc00, 0x12dcbfdb, 0xe2e2c38e,
     0xc8215c1a, 0xb73679a2, 0xe5bc3909, 0x32663c5b, 0x9d209d67, 0xec8726cb, 0x702138a4, 0xd3b7973b]

  const W_HIGH: seq<bv32> :=
    [0x93f5997f, 0x3b68ba73, 0xaff4ffc1, 0xf10a5c62, 0x0a8b3996, 0x72af830a, 0x9409e33e, 0x24641522,
     0x9f47bf94, 0xf0a64f5a, 0x3e246a79, 0x27333ba3, 0x0c4763f2, 0x840abf27, 0x7a290d5d, 0x065c43da,
     0xfb3e89cb, 0xcc7617db, 0xb9e66c34, 0xa9993667, 0x84badedd, 0xc21462bc, 0x1487472c, 0xb20f7a99,
     0xef57b9cd, 0xebe6b238, 0x9fe3095e, 0x78bc8d4b, 0xa43fcf15, 0x668b2ff8, 0xeeaba2cc, 0x12b1edeb]

  ghost predicate Extends(t: nat)
    requires 16 <= t < 64
  {
    W()[t] == NextWord(W()[..t])
  }

  /** Word `t` of the table is the one the definition gives; the numbers are those it uses. */
  lemma Word(t: nat, w2: bv32, w7: bv32, w15: bv32, w16: bv32)
    requires 16 <= t < 64
    requires W()[t - 2] == w2 && W()[t - 7] == w7 && W()[t - 15] == w15 && W()[t - 16] == w16
    requires W()[t] == Expansion(w2, w7, w15, w16)
    ensures Extends(t)
  {
    hide Expansion, W;
  }

  lemma Words16()
    ensures forall t :: 16 <= t < 24 ==> Extends(t)
  {
    hide Extends, NextWord;
    Word(16, 0x00000000, 0x00000000, 0x00000000, 0x61626380);
    Word(17, 0x00000018, 0x00000000, 0x00000000, 0x00000000);
    Word(18, 0x61626380, 0x00000000, 0x00000000, 0x00000000);
    Word(19, 0x000f0000, 0x00000000, 0x00000000, 0x00000000);
    Word(20, 0x7da86405, 0x00000000, 0x00000000, 0x00000000);
    Word(21, 0x600003c6, 0x00000000, 0x00000000, 0x00000000);
    Word(22, 0x3e9d7b78, 0x00000018, 0x00000000, 0x00000000);
    Word(23, 0x0183fc00, 0x61626380, 0x00000000, 0x00000000);
  }

  lemma Words24()
    ensures forall t :: 24 <= t < 32 ==> Extends(t)
  {
    hide Extends, NextWord;
    Word(24, 0x12dcbfdb, 0x000f0000, 0x00000000, 0x00000000);
    Word(25, 0xe2e2c38e, 0x7da86405, 0x00000000, 0x00000000);
    Word(26, 0xc8215c1a, 0x600003c6, 0x00000000, 0x00000000);
    Word(27, 0xb73679a2, 0x3e9d7b78, 0x00000000, 0x00000000);
    Word(28, 0xe5bc3909, 0x0183fc00, 0x00000000, 0x00000000);
    Word(29, 0x32663c5b, 0x12dcbfdb, 0x00000000, 0x00000000);
    Word(30, 0x9d209d67, 0xe2e2c38e, 0x00000018, 0x00000000);
    Word(31, 0xec8726cb, 0xc8215c1a, 0x61626380, 0x00000018);
  }

  lemma Words32()
    ensures forall t :: 32 <= t < 40 ==> Extends(t)
  {
    hide Extends, NextWord;
    Word(32, 0x702138a4, 0xb73679a2, 0x000f0000, 0x61626380);
    Word(33, 0xd3b7973b, 0xe5bc3909, 0x7da86405, 0x000f0000);
    Word(34, 0x93f5997f, 0x32663c5b, 0x600003c6, 0x7da86405);
    Word(35, 0x3b68ba73, 0x9d209d67, 0x3e9d7b78, 0x600003c6);
    Word(36, 0xaff4ffc1, 0xec8726cb, 0x0183fc00, 0x3e9d7b78);
    Word(37, 0xf10a5c62, 0x702138a4, 0x12dcbfdb, 0x0183fc00);
    Word(38, 0x0a8b3996, 0xd3b7973b, 0xe2e2c38e, 0x12dcbfdb);
    Word(39, 0x72af830a, 0x93f5997f, 0xc8215c1a, 0xe2e2c38e);
  }

  lemma Words40()
    ensures forall t :: 40 <= t < 48 ==> Extends(t)
  {
    hide Extends, NextWord;
    Word(40, 0x9409e33e, 0x3b68ba73, 0xb73679a2, 0xc8215c1a);
    Word(41, 0x24641522, 0xaff4ffc1, 0xe5bc3909, 0xb73679a2);
    Word(42, 0x9f47bf94, 0xf10a5c62, 0x32663c5b, 0xe5bc3909);
    Word(43, 0xf0a64f5a, 0x0a8b3996, 0x9d209d67, 0x32663c5b);
    Word(44, 0x3e246a79, 0x72af830a, 0xec8726cb, 0x9d209d67);
    Word(45, 0x27333ba3, 0x9409e33e, 0x702138a4, 0xec8726cb);
    Word(46, 0x0c4763f2, 0x24641522, 0xd3b7973b, 0x702138a4);
    Word(47, 0x840abf27, 0x9f47bf94, 0x93f5997f, 0xd3b7973b);
  }

  lemma Words48()
    ensures forall t :: 48 <= t < 56 ==> Extends(t)
  {
    hide Extends, NextWord;
    Word(48, 0x7a290d5d, 0xf0a64f5a, 0x3b68ba73, 0x93f5997f);
    Word(49, 0x065c43da, 0x3e246a79, 0xaff4ffc1, 0x3b68ba73);
    Word(50, 0xfb3e89cb, 0x27333ba3, 0xf10a5c62, 0xaff4ffc1);
    Word(51, 0xcc7617db, 0x0c4763f2, 0x0a8b3996, 0xf10a5c62);
    Word(52, 0xb9e66c34, 0x840abf27, 0x72af830a, 0x0a8b3996);
    Word(53, 0xa9993667, 0x7a290d5d, 0x9409e33e, 0x72af830a);
    Word(54, 0x84badedd, 0x065c43da, 0x24641522, 0x9409e33e);
    Word(55, 0xc21462bc, 0xfb3e89cb, 0x9f47bf94, 0x24641522);
  }

  lemma Words56()
    ensures forall t :: 56 <= t < 64 ==> Extends(t)
  {
    hide Extends, NextWord;
    Word(56, 0x1487472c, 0xcc7617db, 0xf0a64f5a, 0x9f47bf94);
    Word(57, 0xb20f7a99, 0xb9e66c34, 0x3e246a79, 0xf0a64f5a);
    Word(58, 0xef57b9cd, 0xa9993667, 0x27333ba3, 0x3e246a79);
    Word(59, 0xebe6b238, 0x84badedd, 0x0c4763f2, 0x27333ba3);
    Word(60, 0x9fe3095e, 0xc21462bc, 0x840abf27, 0x0c4763f2);
    Word(61, 0x78bc8d4b, 0x1487472c, 0x7a290d5d, 0x840abf27);
    Word(62, 0xa43fcf15, 0xb20f7a99, 0x065c43da, 0x7a290d5d);
    Word(63, 0x668b2ff8, 0xef57b9cd, 0xfb3e89cb, 0x065c43da);
  }

  lemma Step(n: nat, s: Hash, k: bv32, w: bv32)
    requires n < 64 && Rounds(IV, W(), n) == s && K()[n] == k && W()[n] == w
    ensures Rounds(IV, W(), n + 1) == Round(s, k, w)
  {
    hide Round;
  }

  lemma Rounds0()
    requires Rounds(IV, W(), 0) == Hash(0x6a09e667, 0xbb67ae85, 0x3c6ef372, 0xa54ff53a, 0x510e527f, 0x9b05688c, 0x1f83d9ab, 0x5be0cd19)
    ensures Rounds(IV, W(), 8) == Hash(0x85a07b5f, 0xe5030380, 0x2b4209f5, 0x04409a6a, 0x0c657a79, 0x9b27a401, 0x714260ad, 0x43ada245)
  {
    hide Rounds;
    Step(0, Hash(0x6a09e667, 0xbb67ae85, 0x3c6ef372, 0xa54ff53a, 0x510e527f, 0x9b05688c, 0x1f83d9ab, 0x5be0cd19), 0x428a2f98, 0x61626380);
    Step(1, Hash(0x5d6aebcd, 0x6a09e667, 0xbb67ae85, 0x3c6ef372, 0xfa2a4622, 0x510e527f, 0x9b05688c, 0x1f83d9ab), 0x71374491, 0x00000000);
    Step(2, Hash(0x5a6ad9ad, 0x5d6aebcd, 0x6a09e667, 0xbb67ae85, 0x78ce7989, 0xfa2a4622, 0x510e527f, 0x9b05688c), 0xb5c0fbcf, 0x00000000);
    Step(3, Hash(0xc8c347a7, 0x5a6ad9ad, 0x5d6aebcd, 0x6a09e667, 0xf92939eb, 0x78ce7989, 0xfa2a4622, 0x510e527f), 0xe9b5dba5, 0x00000000);
    Step(4, Hash(0xd550f666, 0xc8c347a7, 0x5a6ad9ad, 0x5d6aebcd, 0x24e00850, 0xf92939eb, 0x78ce7989, 0xfa2a4622), 0x3956c25b, 0x00000000);
    Step(5, Hash(0x04409a6a, 0xd550f666, 0xc8c347a7, 0x5a6ad9ad, 0x43ada245, 0x24e00850, 0xf92939eb, 0x78ce7989), 0x59f111f1, 0x00000000);
    Step(6, Hash(0x2b4209f5, 0x04409a6a, 0xd550f666, 0xc8c347a7, 0x714260ad, 0x43ada245, 0x24e00850, 0xf92939eb), 0x923f82a4, 0x00000000);
    Step(7, Hash(0xe5030380, 0x2b4209f5, 0x04409a6a, 0xd550f666, 0x9b27a401, 0x714260ad, 0x43ada245, 0x24e00850), 0xab1c5ed5, 0x00000000);
  }

  lemma Rounds8()
    requires Rounds(IV, W(), 8) == Hash(0x85a07b5f, 0xe5030380, 0x2b4209f5, 0x04409a6a, 0x0c657a79, 0x9b27a401, 0x714260ad, 0x43ada245)
    ensures Rounds(IV, W(), 16) == Hash(0xb0fa238e, 0xc0645fde, 0xd932eb16, 0x87912990, 0x07590dcd, 0x0b92f20c, 0x745a48de, 0x1e578218)
  {
    hide Rounds;
    Step(8, Hash(0x85a07b5f, 0xe5030380, 0x2b4209f5, 0x04409a6a, 0x0c657a79, 0x9b27a401, 0x714260ad, 0x43ada245), 0xd807aa98, 0x00000000);
    Step(9, Hash(0x8e04ecb9, 0x85a07b5f, 0xe5030380, 0x2b4209f5, 0x32ca2d8c, 0x0c657a79, 0x9b27a401, 0x714260ad), 0x12835b01, 0x00000000);
    Step(10, Hash(0x8c87346b, 0x8e04ecb9, 0x85a07b5f, 0xe5030380, 0x1cc92596, 0x32ca2d8c, 0x0c657a79, 0x9b27a401), 0x243185be, 0x00000000);
    Step(11, Hash(0x4798a3f4, 0x8c87346b, 0x8e04ecb9, 0x85a07b5f, 0x436b23e8, 0x1cc92596, 0x32ca2d8c, 0x0c657a79), 0x550c7dc3, 0x00000000);
    Step(12, Hash(0xf71fc5a9, 0x4798a3f4, 0x8c87346b, 0x8e04ecb9, 0x816fd6e9, 0x436b23e8, 0x1cc92596, 0x32ca2d8c), 0x72be5d74, 0x00000000);
    Step(13, Hash(0x87912990, 0xf71fc5a9, 0x4798a3f4, 0x8c87346b, 0x1e578218, 0x816fd6e9, 0x436b23e8, 0x1cc92596), 0x80deb1fe, 0x00000000);
    Step(14, Hash(0xd932eb16, 0x87912990, 0xf71fc5a9, 0x4798a3f4, 0x745a48de, 0x1e578218, 0x816fd6e9, 0x436b23e8), 0x9bdc06a7, 0x00000000);
    Step(15, Hash(0xc0645fde, 0xd932eb16, 0x87912990, 0xf71fc5a9, 0x0b92f20c, 0x745a48de, 0x1e578218, 0x816fd6e9), 0xc19bf174, 0x00000018);
  }

  lemma Rounds16()
    requires Rounds(IV, W(), 16) == Hash(0xb0fa238e, 0xc0645fde, 0xd932eb16, 0x87912990, 0x07590dcd, 0x0b92f20c, 0x745a48de, 0x1e578218)
    ensures Rounds(IV, W(), 24) == Hash(0xc5d53d8d, 0xa7a3623f, 0xc2606d6d, 0x9dc68b63, 0xaa47c347, 0x49f5114a, 0xe1257970, 0x8ada8930)
  {
    hide Rounds;
    Step(16, Hash(0xb0fa238e, 0xc0645fde, 0xd932eb16, 0x87912990, 0x07590dcd, 0x0b92f20c, 0x745a48de, 0x1e578218), 0xe49b69c1, 0x61626380);
    Step(17, Hash(0x21da9a9b, 0xb0fa238e, 0xc0645fde, 0xd932eb16, 0x8034229c, 0x07590dcd, 0x0b92f20c, 0x745a48de), 0xefbe4786, 0x000f0000);
    Step(18, Hash(0xc2fbd9d1, 0x21da9a9b, 0xb0fa238e, 0xc0645fde, 0x846ee454, 0x8034229c, 0x07590dcd, 0x0b92f20c), 0x0fc19dc6, 0x7da86405);
    Step(19, Hash(0xfe777bbf, 0xc2fbd9d1, 0x21da9a9b, 0xb0fa238e, 0xcc899961, 0x846ee454, 0x8034229c, 0x07590dcd), 0x240ca1cc, 0x600003c6);
    Step(20, Hash(0xe1f20c33, 0xfe777bbf, 0xc2fbd9d1, 0x21da9a9b, 0xb0638179, 0xcc899961, 0x846ee454, 0x8034229c), 0x2de92c6f, 0x3e9d7b78);
    Step(21, Hash(0x9dc68b63, 0xe1f20c33, 0xfe777bbf, 0xc2fbd9d1, 0x8ada8930, 0xb0638179, 0xcc899961, 0x846ee454), 0x4a7484aa, 0x0183fc00);
    Step(22, Hash(0xc2606d6d, 0x9dc68b63, 0xe1f20c33, 0xfe777bbf, 0xe1257970, 0x8ada8930, 0xb0638179, 0xcc899961), 0x5cb0a9dc, 0x12dcbfdb);
    Step(23, Hash(0xa7a3623f, 0xc2606d6d, 0x9dc68b63, 0xe1f20c33, 0x49f5114a, 0xe1257970, 0x8ada8930, 0xb0638179), 0x76f988da, 0xe2e2c38e);
  }

  lemma Rounds24()
    requires Rounds(IV, W(), 24) == Hash(0xc5d53d8d, 0xa7a3623f, 0xc2606d6d, 0x9dc68b63, 0xaa47c347, 0x49f5114a, 0xe1257970, 0x8ada8930)
    ensures Rounds(IV, W(), 32) == Hash(0x73b33bf5, 0xea992a22, 0xa0060b30, 0x363482c9, 0xba591112, 0x0109ab3a, 0xade79437, 0x6112a3b7)
  {
    hide Rounds;
    Step(24, Hash(0xc5d53d8d, 0xa7a3623f, 0xc2606d6d, 0x9dc68b63, 0xaa47c347, 0x49f5114a, 0xe1257970, 0x8ada8930), 0x983e5152, 0xc8215c1a);
    Step(25, Hash(0x1c2c2838, 0xc5d53d8d, 0xa7a3623f, 0xc2606d6d, 0x2823ef91, 0xaa47c347, 0x49f5114a, 0xe1257970), 0xa831c66d, 0xb73679a2);
    Step(26, Hash(0xcde8037d, 0x1c2c2838, 0xc5d53d8d, 0xa7a3623f, 0x14383d8e, 0x2823ef91, 0xaa47c347, 0x49f5114a), 0xb00327c8, 0xe5bc3909);
    Step(27, Hash(0xb62ec4bc, 0xcde8037d, 0x1c2c2838, 0xc5d53d8d, 0xc74c6516, 0x14383d8e, 0x2823ef91, 0xaa47c347), 0xbf597fc7, 0x32663c5b);
    Step(28, Hash(0x77d37528, 0xb62ec4bc, 0xcde8037d, 0x1c2c2838, 0xedffbff8, 0xc74c6516, 0x14383d8e, 0x2823ef91), 0xc6e00bf3, 0x9d209d67);
    Step(29, Hash(0x363482c9, 0x77d37528, 0xb62ec4bc, 0xcde8037d, 0x6112a3b7, 0xedffbff8, 0xc74c6516, 0x14383d8e), 0xd5a79147, 0xec8726cb);
    Step(30, Hash(0xa0060b30, 0x363482c9, 0x77d37528, 0xb62ec4bc, 0xade79437, 0x6112a3b7, 0xedffbff8, 0xc74c6516), 0x06ca6351, 0x702138a4);
    Step(31, Hash(0xea992a22, 0xa0060b30, 0x363482c9, 0x77d37528, 0x0109ab3a, 0xade79437, 0x6112a3b7, 0xedffbff8), 0x14292967, 0xd3b7973b);
  }

  lemma Rounds32()
    requires Rounds(IV, W(), 32) == Hash(0x73b33bf5, 0xea992a22, 0xa0060b30, 0x363482c9, 0xba591112, 0x0109ab3a, 0xade79437, 0x6112a3b7)
    ensures Rounds(IV, W(), 40) == Hash(0x79ea687a, 0x6dc57a8a, 0x34df1604, 0x41a65cb1, 0x1efbc0a0, 0xf0781bc8, 0xa507a53d, 0x0772a26b)
  {
    hide Rounds;
    Step(32, Hash(0x73b33bf5, 0xea992a22, 0xa0060b30, 0x363482c9, 0xba591112, 0x0109ab3a, 0xade79437, 0x6112a3b7), 0x27b70a85, 0x93f5997f);
    Step(33, Hash(0x98e12507, 0x73b33bf5, 0xea992a22, 0xa0060b30, 0x9cd9f5f6, 0xba591112, 0x0109ab3a, 0xade79437), 0x2e1b2138, 0x3b68ba73);
    Step(34, Hash(0xfe604df5, 0x98e12507, 0x73b33bf5, 0xea992a22, 0x59249dd3, 0x9cd9f5f6, 0xba591112, 0x0109ab3a), 0x4d2c6dfc, 0xaff4ffc1);
    Step(35, Hash(0xa9a7738c, 0xfe604df5, 0x98e12507, 0x73b33bf5, 0x085f3833, 0x59249dd3, 0x9cd9f5f6, 0xba591112), 0x53380d13, 0xf10a5c62);
    Step(36, Hash(0x65a0cfe4, 0xa9a7738c, 0xfe604df5, 0x98e12507, 0xf4b002d6, 0x085f3833, 0x59249dd3, 0x9cd9f5f6), 0x650a7354, 0x0a8b3996);
    Step(37, Hash(0x41a65cb1, 0x65a0cfe4, 0xa9a7738c, 0xfe604df5, 0x0772a26b, 0xf4b002d6, 0x085f3833, 0x59249dd3), 0x766a0abb, 0x72af830a);
    Step(38, Hash(0x34df1604, 0x41a65cb1, 0x65a0cfe4, 0xa9a7738c, 0xa507a53d, 0x0772a26b, 0xf4b002d6, 0x085f3833), 0x81c2c92e, 0x9409e33e);
    Step(39, Hash(0x6dc57a8a, 0x34df1604, 0x41a65cb1, 0x65a0cfe4, 0xf0781bc8, 0xa507a53d, 0x0772a26b, 0xf4b002d6), 0x92722c85, 0x24641522);
  }

  lemma Rounds40()
    requires Rounds(IV, W(), 40) == Hash(0x79ea687a, 0x6dc57a8a, 0x34df1604, 0x41a65cb1, 0x1efbc0a0, 0xf0781bc8, 0xa507a53d, 0x0772a26b)
    ensures Rounds(IV, W(), 48) == Hash(0x4172328d, 0xa14c14b0, 0x72ab4b91, 0x26628815, 0xfecf0bc6, 0xd57b94a9, 0xb7755da1, 0xa80f11f0)
  {
    hide Rounds;
    Step(40, Hash(0x79ea687a, 0x6dc57a8a, 0x34df1604, 0x41a65cb1, 0x1efbc0a0, 0xf0781bc8, 0xa507a53d, 0x0772a26b), 0xa2bfe8a1, 0x9f47bf94);
    Step(41, Hash(0xd6670766, 0x79ea687a, 0x6dc57a8a, 0x34df1604, 0x26352d63, 0x1efbc0a0, 0xf0781bc8, 0xa507a53d), 0xa81a664b, 0xf0a64f5a);
    Step(42, Hash(0xdf46652f, 0xd6670766, 0x79ea687a, 0x6dc57a8a, 0x838b2711, 0x26352d63, 0x1efbc0a0, 0xf0781bc8), 0xc24b8b70, 0x3e246a79);
    Step(43, Hash(0x17aa0dfe, 0xdf46652f, 0xd6670766, 0x79ea687a, 0xdecd4715, 0x838b2711, 0x26352d63, 0x1efbc0a0), 0xc76c51a3, 0x27333ba3);
    Step(44, Hash(0x9d4baf93, 0x17aa0dfe, 0xdf46652f, 0xd6670766, 0xfda24c2e, 0xdecd4715, 0x838b2711, 0x26352d63), 0xd192e819, 0x0c4763f2);
    Step(45, Hash(0x26628815, 0x9d4baf93, 0x17aa0dfe, 0xdf46652f, 0xa80f11f0, 0xfda24c2e, 0xdecd4715, 0x838b2711), 0xd6990624, 0x840abf27);
    Step(46, Hash(0x72ab4b91, 0x26628815, 0x9d4baf93, 0x17aa0dfe, 0xb7755da1, 0xa80f11f0, 0xfda24c2e, 0xdecd4715), 0xf40e3585, 0x7a290d5d);
    Step(47, Hash(0xa14c14b0, 0x72ab4b91, 0x26628815, 0x9d4baf93, 0xd57b94a9, 0xb7755da1, 0xa80f11f0, 0xfda24c2e), 0x106aa070, 0x065c43da);
  }

  lemma Rounds48()
    requires Rounds(IV, W(), 48) == Hash(0x4172328d, 0xa14c14b0, 0x72ab4b91, 0x26628815, 0xfecf0bc6, 0xd57b94a9, 0xb7755da1, 0xa80f11f0)
    ensures Rounds(IV, W(), 56) == Hash(0x38cc9913, 0x3ec45cdb, 0xf5702fdb, 0x101fd28f, 0x54cb266b, 0xe50e1b4f, 0x9f4787c3, 0x529e7d00)
  {
    hide Rounds;
    Step(48, Hash(0x4172328d, 0xa14c14b0, 0x72ab4b91, 0x26628815, 0xfecf0bc6, 0xd57b94a9, 0xb7755da1, 0xa80f11f0), 0x19a4c116, 0xfb3e89cb);
    Step(49, Hash(0x05757ceb, 0x4172328d, 0xa14c14b0, 0x72ab4b91, 0xbd714038, 0xfecf0bc6, 0xd57b94a9, 0xb7755da1), 0x1e376c08, 0xcc7617db);
    Step(50, Hash(0xf11bfaa8, 0x05757ceb, 0x4172328d, 0xa14c14b0, 0x6e5c390c, 0xbd714038, 0xfecf0bc6, 0xd57b94a9), 0x2748774c, 0xb9e66c34);
    Step(51, Hash(0x7a0508a1, 0xf11bfaa8, 0x05757ceb, 0x4172328d, 0x52f1ccf7, 0x6e5c390c, 0xbd714038, 0xfecf0bc6), 0x34b0bcb5, 0xa9993667);
    Step(52, Hash(0x886e7a22, 0x7a0508a1, 0xf11bfaa8, 0x05757ceb, 0x49231c1e, 0x52f1ccf7, 0x6e5c390c, 0xbd714038), 0x391c0cb3, 0x84badedd);
    Step(53, Hash(0x101fd28f, 0x886e7a22, 0x7a0508a1, 0xf11bfaa8, 0x529e7d00, 0x49231c1e, 0x52f1ccf7, 0x6e5c390c), 0x4ed8aa4a, 0xc21462bc);
    Step(54, Hash(0xf5702fdb, 0x101fd28f, 0x886e7a22, 0x7a0508a1, 0x9f4787c3, 0x529e7d00, 0x49231c1e, 0x52f1ccf7), 0x5b9cca4f, 0x1487472c);
    Step(55, Hash(0x3ec45cdb, 0xf5702fdb, 0x101fd28f, 0x886e7a22, 0xe50e1b4f, 0x9f4787c3, 0x529e7d00, 0x49231c1e), 0x682e6ff3, 0xb20f7a99);
  }

  lemma Rounds56()
    requires Rounds(IV, W(), 56) == Hash(0x38cc9913, 0x3ec45cdb, 0xf5702fdb, 0x101fd28f, 0x54cb266b, 0xe50e1b4f, 0x9f4787c3, 0x529e7d00)
    ensures Rounds(IV, W(), 64) == Hash(0x506e3058, 0xd39a2165, 0x04d24d6c, 0xb85e2ce9, 0x5ef50f24, 0xfb121210, 0x948d25b6, 0x961f4894)
  {
    hide Rounds;
    Step(56, Hash(0x38cc9913, 0x3ec45cdb, 0xf5702fdb, 0x101fd28f, 0x54cb266b, 0xe50e1b4f, 0x9f4787c3, 0x529e7d00), 0x748f82ee, 0xef57b9cd);
    Step(57, Hash(0xfcd1887b, 0x38cc9913, 0x3ec45cdb, 0xf5702fdb, 0x9b5e906c, 0x54cb266b, 0xe50e1b4f, 0x9f4787c3), 0x78a5636f, 0xebe6b238);
    Step(58, Hash(0xc062d46f, 0xfcd1887b, 0x38cc9913, 0x3ec45cdb, 0x7e44008e, 0x9b5e906c, 0x54cb266b, 0xe50e1b4f), 0x84c87814, 0x9fe3095e);
    Step(59, Hash(0xffb70472, 0xc062d46f, 0xfcd1887b, 0x38cc9913, 0x6d83bfc6, 0x7e44008e, 0x9b5e906c, 0x54cb266b), 0x8cc70208, 0x78bc8d4b);
    Step(60, Hash(0xb6ae8fff, 0xffb70472, 0xc062d46f, 0xfcd1887b, 0xb21bad3d, 0x6d83bfc6, 0x7e44008e, 0x9b5e906c), 0x90befffa, 0xa43fcf15);
    Step(61, Hash(0xb85e2ce9, 0xb6ae8fff, 0xffb70472, 0xc062d46f, 0x961f4894, 0xb21bad3d, 0x6d83bfc6, 0x7e44008e), 0xa4506ceb, 0x668b2ff8);
    Step(62, Hash(0x04d24d6c, 0xb85e2ce9, 0xb6ae8fff, 0xffb70472, 0x948d25b6, 0x961f4894, 0xb21bad3d, 0x6d83bfc6), 0xbef9a3f7, 0xeeaba2cc);
    Step(63, Hash(0xd39a2165, 0x04d24d6c, 0xb85e2ce9, 0xb6ae8fff, 0xfb121210, 0x948d25b6, 0x961f4894, 0xb21bad3d), 0xc67178f2, 0x12b1edeb);
  }

  lemma TableExtends(t: nat)
    requires 16 <= t < 64
    ensures W()[t] == NextWord(W()[..t])
  {
    hide NextWord, W;
    Words16();
    Words24();
    Words32();
    Words40();
    Words48();
    Words56();
    assert Extends(t);
  }

  lemma LowBytes()
    ensures LowByte(24) == 24 && LowByte(0) == 0
  {
    hide ByteFrom;
    ByteFromValue(24);
    ByteFromValue(0);
    Same(ByteFrom(24), 24);
    Same(ByteFrom(0), 0);
  }

  lemma Same(b: byte, c: byte)
    requires b as nat == c as nat
    ensures b == c
  {
    assert (b as nat) as byte == b && (c as nat) as byte == c;
  }

  lemma LengthOfAbc()
    ensures BitLength(3) == [0, 0, 0, 0, 0, 0, 0, 24]
  {
    hide LowByte;
    LowBytes();
    NoBytes();
    BigEndianStep(0, 0);
    BigEndianStep(0, 1);
    BigEndianStep(0, 2);
    BigEndianStep(0, 3);
    BigEndianStep(0, 4);
    BigEndianStep(0, 5);
    BigEndianStep(0, 6);
    BigEndianStep(24, 7);
  }

  lemma NoBytes()
    ensures BigEndian(0, 0) == []
  {}

  lemma BigEndianStep(n: nat, bytes: nat)
    ensures BigEndian(n, bytes + 1) == BigEndian(n / 0x100, bytes) + [LowByte(n)]
  {}

  lemma BlockOfAbc()
    ensures BlockWords(OneBlock(ABC)) == W()[..16]
  {
    hide Pack, BitLength, W;
    LengthOfAbc();
    ShortZeroCount(3);
    var block := OneBlock(ABC);
    assert block == ABC + ([0x80] + Zeros(52) + [0, 0, 0, 0, 0, 0, 0, 24]);
    assert block[0] == 0x61 && block[1] == 0x62 && block[2] == 0x63 && block[3] == 0x80 && block[63] == 24;
    assert forall k :: 4 <= k < 63 ==> block[k] == 0;
    FirstWords();
    forall t | 0 <= t < 16
      ensures BlockWords(block)[t] == W()[t]
    {
    }
  }

  lemma FirstWords()
    ensures W()[0] == Pack(0x61, 0x62, 0x63, 0x80) && W()[15] == Pack(0, 0, 0, 24)
    ensures forall t :: 1 <= t < 15 ==> W()[t] == Pack(0, 0, 0, 0)
  {}

  lemma {:induction false} ScheduleIsTable(n: nat)
    requires n <= 64
    ensures Schedule(W()[..16], n) == W()[..n]
  {
    hide W, NextWord;
    if n != 0 {
      ScheduleIsTable(n - 1);
      if n > 16 {
        TableExtends(n - 1);
      }
      assert W()[..n] == W()[..n - 1] + [W()[n - 1]];
    }
  }

  lemma RoundsOfAbc()
    ensures Rounds(IV, W(), 64) == Hash(0x506e3058, 0xd39a2165, 0x04d24d6c, 0xb85e2ce9, 0x5ef50f24, 0xfb121210, 0x948d25b6, 0x961f4894)
  {
    hide W;
    NoRounds();
    hide Rounds;
    Rounds0();
    Rounds8();
    Rounds16();
    Rounds24();
    Rounds32();
    Rounds40();
    Rounds48();
    Rounds56();
  }

  lemma NoRounds()
    ensures Rounds(IV, W(), 0) == IV
  {}

  /** The standard's digest of "abc". */
  lemma DigestOfAbc()
    ensures Sha256(ABC) == Hash(0xba7816bf, 0x8f01cfea, 0x414140de, 0x5dae2223, 0xb00361a3, 0x96177a9c, 0xb410ff61, 0xf20015ad)
  {
    hide W, Rounds, Schedule, BlockWords, OneBlock;
    BlockOfAbc();
    ScheduleIsTable(64);
    assert W()[..64] == W();
    RoundsOfAbc();
    OneBlockDigest(ABC);
    AddedToInitial();
  }

  lemma AddedToInitial()
    ensures Add(Hash(0x506e3058, 0xd39a2165, 0x04d24d6c, 0xb85e2ce9, 0x5ef50f24, 0xfb121210, 0x948d25b6, 0x961f4894), IV)
         == Hash(0xba7816bf, 0x8f01cfea, 0x414140de, 0x5dae2223, 0xb00361a3, 0x96177a9c, 0xb410ff61, 0xf20015ad)
  {}

  lemma OneBlockDigest(m: seq<byte>)
    requires |m| <= 55
    ensures Sha256(m) == Add(Rounds(IV, Schedule(BlockWords(OneBlock(m)), 64), 64), IV)
  {
    hide Rounds, Schedule, BlockWords;
    var p := OneBlock(m);
    assert p[..64] == p && p[64..] == [];
    assert HashBlocks(IV, p) == HashBlocks(Compress(IV, p[..64]), p[64..]);
  }
}
