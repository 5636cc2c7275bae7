/**
 The example of FIPS 180-4 for a message of one block: the hash of "abc", word by word.

 Specification and implementation share the functions of the standard; this is what those
 functions come to.
 */
module Sha256Example {
  import opened WireFormat
  import opened Sha256
  import opened Sha256Constants

  const ABC: seq<bv8> := [0x61, 0x62, 0x63]
  const BLOCK: seq<bv8> := [0x61, 0x62, 0x63, 0x80] + Zeros(52) + [0, 0, 0, 0, 0, 0, 0, 0x18]

  const W0: seq<Word> := [0x61626380, 0x00000000, 0x00000000, 0x00000000, 0x00000000, 0x00000000, 0x00000000, 0x00000000]
  const W1: seq<Word> := [0x00000000, 0x00000000, 0x00000000, 0x00000000, 0x00000000, 0x00000000, 0x00000000, 0x00000018]
  const W2: seq<Word> := [0x61626380, 0x000f0000, 0x7da86405, 0x600003c6, 0x3e9d7b78, 0x0183fc00, 0x12dcbfdb, 0xe2e2c38e]
  const W3: seq<Word> := [0xc8215c1a, 0xb73679a2, 0xe5bc3909, 0x32663c5b, 0x9d209d67, 0xec8726cb, 0x702138a4, 0xd3b7973b]
  const W4: seq<Word> := [0x93f5997f, 0x3b68ba73, 0xaff4ffc1, 0xf10a5c62, 0x0a8b3996, 0x72af830a, 0x9409e33e, 0x24641522]
  const W5: seq<Word> := [0x9f47bf94, 0xf0a64f5a, 0x3e246a79, 0x27333ba3, 0x0c4763f2, 0x840abf27, 0x7a290d5d, 0x065c43da]
  const W6: seq<Word> := [0xfb3e89cb, 0xcc7617db, 0xb9e66c34, 0xa9993667, 0x84badedd, 0xc21462bc, 0x1487472c, 0xb20f7a99]
  const W7: seq<Word> := [0xef57b9cd, 0xebe6b238, 0x9fe3095e, 0x78bc8d4b, 0xa43fcf15, 0x668b2ff8, 0xeeaba2cc, 0x12b1edeb]

  /** The message schedule. */
  const WORDS: seq<Word> := ((W0 + W1) + (W2 + W3)) + ((W4 + W5) + (W6 + W7))

  // ---- the tables, eight words at a time ----

  predicate WRow0(w: seq<Word>) {
    |w| == 64 && w[0] == 0x61626380 && w[1] == 0x00000000 && w[2] == 0x00000000 && w[3] == 0x00000000 &&
    w[4] == 0x00000000 && w[5] == 0x00000000 && w[6] == 0x00000000 && w[7] == 0x00000000
  }

  predicate WRow1(w: seq<Word>) {
    |w| == 64 && w[8] == 0x00000000 && w[9] == 0x00000000 && w[10] == 0x00000000 && w[11] == 0x00000000 &&
    w[12] == 0x00000000 && w[13] == 0x00000000 && w[14] == 0x00000000 && w[15] == 0x00000018
  }

  predicate WRow2(w: seq<Word>) {
    |w| == 64 && w[16] == 0x61626380 && w[17] == 0x000f0000 && w[18] == 0x7da86405 && w[19] == 0x600003c6 &&
    w[20] == 0x3e9d7b78 && w[21] == 0x0183fc00 && w[22] == 0x12dcbfdb && w[23] == 0xe2e2c38e
  }

  predicate WRow3(w: seq<Word>) {
    |w| == 64 && w[24] == 0xc8215c1a && w[25] == 0xb73679a2 && w[26] == 0xe5bc3909 && w[27] == 0x32663c5b &&
    w[28] == 0x9d209d67 && w[29] == 0xec8726cb && w[30] == 0x702138a4 && w[31] == 0xd3b7973b
  }

  predicate WRow4(w: seq<Word>) {
    |w| == 64 && w[32] == 0x93f5997f && w[33] == 0x3b68ba73 && w[34] == 0xaff4ffc1 && w[35] == 0xf10a5c62 &&
    w[36] == 0x0a8b3996 && w[37] == 0x72af830a && w[38] == 0x9409e33e && w[39] == 0x24641522
  }

  predicate WRow5(w: seq<Word>) {
    |w| == 64 && w[40] == 0x9f47bf94 && w[41] == 0xf0a64f5a && w[42] == 0x3e246a79 && w[43] == 0x27333ba3 &&
    w[44] == 0x0c4763f2 && w[45] == 0x840abf27 && w[46] == 0x7a290d5d && w[47] == 0x065c43da
  }

  predicate WRow6(w: seq<Word>) {
    |w| == 64 && w[48] == 0xfb3e89cb && w[49] == 0xcc7617db && w[50] == 0xb9e66c34 && w[51] == 0xa9993667 &&
    w[52] == 0x84badedd && w[53] == 0xc21462bc && w[54] == 0x1487472c && w[55] == 0xb20f7a99
  }

  predicate WRow7(w: seq<Word>) {
    |w| == 64 && w[56] == 0xef57b9cd && w[57] == 0xebe6b238 && w[58] == 0x9fe3095e && w[59] == 0x78bc8d4b &&
    w[60] == 0xa43fcf15 && w[61] == 0x668b2ff8 && w[62] == 0xeeaba2cc && w[63] == 0x12b1edeb
  }

  lemma Schedule64()
    ensures WRow0(WORDS) && WRow1(WORDS) && WRow2(WORDS) && WRow3(WORDS) && WRow4(WORDS) && WRow5(WORDS) && WRow6(WORDS) && WRow7(WORDS)
  {
    FirstWordRows();
    LastWordRows();
  }

  lemma FirstWordRows()
    ensures WRow0(WORDS) && WRow1(WORDS) && WRow2(WORDS) && WRow3(WORDS)
  {
  }

  lemma LastWordRows()
    ensures WRow4(WORDS) && WRow5(WORDS) && WRow6(WORDS) && WRow7(WORDS)
  {
  }

  // ---- padding ----

  lemma {:induction false} ZerosAre(n: nat, i: nat)
    requires i < n
    ensures Zeros(n)[i] == 0
  {
    if i < n - 1 {
      ZerosAre(n - 1, i);
    }
  }

  lemma LengthOfAbc()
    ensures LengthField(24, 8) == [0, 0, 0, 0, 0, 0, 0, 0x18]
  {
    assert LengthField(0, 4) == [0, 0, 0, 0];
    assert LengthField(0, 7) == [0, 0, 0, 0, 0, 0, 0];
  }

  lemma PaddedAbc()
    ensures Padded(ABC) == BLOCK && |BLOCK| == 64
  {
    assert ZeroCount(3) == 52;
    LengthOfAbc();
    assert [0x61, 0x62, 0x63] + [0x80] == [0x61, 0x62, 0x63, 0x80];
  }

  lemma BlockBytes(i: nat)
    requires i < 64
    ensures |BLOCK| == 64 && BLOCK[i] == if i < 4 then [0x61, 0x62, 0x63, 0x80][i] else if i == 63 then 0x18 else 0
  {
    if 4 <= i < 56 {
      ZerosAre(52, i - 4);
    }
  }

  lemma FirstWords(t: nat)
    requires t < 16
    ensures |BLOCK| == 64 && WordAt(BLOCK, t) == if t == 0 then 0x61626380 else if t == 15 then 0x18 else 0
  {
    BlockBytes(4 * t);
    BlockBytes(4 * t + 1);
    BlockBytes(4 * t + 2);
    BlockBytes(4 * t + 3);
    assert WordOf(0x61, 0x62, 0x63, 0x80) == 0x61626380 && WordOf(0, 0, 0, 0x18) == 0x18 && WordOf(0, 0, 0, 0) == 0;
  }

  // ---- the schedule ----

  predicate Follows(w: seq<Word>, t: nat)
    requires 16 <= t < 64 == |w|
  {
    w[t] == Expanded(w[t - 16], w[t - 15], w[t - 7], w[t - 2])
  }

  lemma FollowsRow2(w: seq<Word>)
    requires WRow0(w) && WRow1(w) && WRow2(w)
    ensures forall t :: 16 <= t < 24 ==> Follows(w, t)
  {
    assert Follows(w, 16);
    assert Follows(w, 17);
    assert Follows(w, 18);
    assert Follows(w, 19);
    assert Follows(w, 20);
    assert Follows(w, 21);
    assert Follows(w, 22);
    assert Follows(w, 23);
  }

  lemma FollowsRow3(w: seq<Word>)
    requires WRow1(w) && WRow2(w) && WRow3(w)
    ensures forall t :: 24 <= t < 32 ==> Follows(w, t)
  {
    assert Follows(w, 24);
    assert Follows(w, 25);
    assert Follows(w, 26);
    assert Follows(w, 27);
    assert Follows(w, 28);
    assert Follows(w, 29);
    assert Follows(w, 30);
    assert Follows(w, 31);
  }

  lemma FollowsRow4(w: seq<Word>)
    requires WRow2(w) && WRow3(w) && WRow4(w)
    ensures forall t :: 32 <= t < 40 ==> Follows(w, t)
  {
    assert Follows(w, 32);
    assert Follows(w, 33);
    assert Follows(w, 34);
    assert Follows(w, 35);
    assert Follows(w, 36);
    assert Follows(w, 37);
    assert Follows(w, 38);
    assert Follows(w, 39);
  }

  lemma FollowsRow5(w: seq<Word>)
    requires WRow3(w) && WRow4(w) && WRow5(w)
    ensures forall t :: 40 <= t < 48 ==> Follows(w, t)
  {
    assert Follows(w, 40);
    assert Follows(w, 41);
    assert Follows(w, 42);
    assert Follows(w, 43);
    assert Follows(w, 44);
    assert Follows(w, 45);
    assert Follows(w, 46);
    assert Follows(w, 47);
  }

  lemma FollowsRow6(w: seq<Word>)
    requires WRow4(w) && WRow5(w) && WRow6(w)
    ensures forall t :: 48 <= t < 56 ==> Follows(w, t)
  {
    assert Follows(w, 48);
    assert Follows(w, 49);
    assert Follows(w, 50);
    assert Follows(w, 51);
    assert Follows(w, 52);
    assert Follows(w, 53);
    assert Follows(w, 54);
    assert Follows(w, 55);
  }

  lemma FollowsRow7(w: seq<Word>)
    requires WRow5(w) && WRow6(w) && WRow7(w)
    ensures forall t :: 56 <= t < 64 ==> Follows(w, t)
  {
    assert Follows(w, 56);
    assert Follows(w, 57);
    assert Follows(w, 58);
    assert Follows(w, 59);
    assert Follows(w, 60);
    assert Follows(w, 61);
    assert Follows(w, 62);
    assert Follows(w, 63);
  }

  lemma AllFollow()
    ensures |WORDS| == 64 && forall t :: 16 <= t < 64 ==> Follows(WORDS, t)
  {
    Schedule64();
    FollowsRow2(WORDS);
    FollowsRow3(WORDS);
    FollowsRow4(WORDS);
    FollowsRow5(WORDS);
    FollowsRow6(WORDS);
    FollowsRow7(WORDS);
  }

  lemma FirstSixteen(t: nat, w: seq<Word>)
    requires t < 16 && WRow0(w) && WRow1(w)
    ensures w[t] == if t == 0 then 0x61626380 else if t == 15 then 0x18 else 0
  {
  }

  lemma {:induction false} ScheduleIs(n: nat, w: seq<Word>)
    requires n <= 64 == |w| && |BLOCK| == 64
    requires forall t :: 0 <= t < 16 ==> w[t] == WordAt(BLOCK, t)
    requires forall t :: 16 <= t < 64 ==> Follows(w, t)
    ensures Schedule(BLOCK, n) == w[..n]
  {
    if n > 0 {
      ScheduleIs(n - 1, w);
      var t := n - 1;
      NextWord(t, w, Schedule(BLOCK, t));
    }
  }

  lemma NextWord(t: nat, w: seq<Word>, before: seq<Word>)
    requires t < 64 == |w| && |BLOCK| == 64 && before == w[..t]
    requires if t < 16 then w[t] == WordAt(BLOCK, t) else Follows(w, t)
    ensures ScheduleNext(BLOCK, before) == w[..t + 1]
  {
  }

  // ---- the rounds ----

  lemma OneMore(k: seq<Word>, w: seq<Word>, t: nat, v: Chain, kt: Word, wt: Word, v': Chain)
    requires |k| == 64 == |w| && t < 64 && Rounds(k, H0, w, t) == v && k[t] == kt && w[t] == wt && Round(v, kt, wt) == v'
    ensures Rounds(k, H0, w, t + 1) == v'
  {
  }

  lemma RoundsRow0(k: seq<Word>, w: seq<Word>)
    requires KRow0(k) && WRow0(w) && Rounds(k, H0, w, 0) == Chain(0x6a09e667, 0xbb67ae85, 0x3c6ef372, 0xa54ff53a, 0x510e527f, 0x9b05688c, 0x1f83d9ab, 0x5be0cd19)
    ensures Rounds(k, H0, w, 8) == Chain(0x85a07b5f, 0xe5030380, 0x2b4209f5, 0x04409a6a, 0x0c657a79, 0x9b27a401, 0x714260ad, 0x43ada245)
  {
    OneMore(k, w, 0, Chain(0x6a09e667, 0xbb67ae85, 0x3c6ef372, 0xa54ff53a, 0x510e527f, 0x9b05688c, 0x1f83d9ab, 0x5be0cd19), 0x428a2f98, 0x61626380,
            Chain(0x5d6aebcd, 0x6a09e667, 0xbb67ae85, 0x3c6ef372, 0xfa2a4622, 0x510e527f, 0x9b05688c, 0x1f83d9ab));
    OneMore(k, w, 1, Chain(0x5d6aebcd, 0x6a09e667, 0xbb67ae85, 0x3c6ef372, 0xfa2a4622, 0x510e527f, 0x9b05688c, 0x1f83d9ab), 0x71374491, 0x00000000,
            Chain(0x5a6ad9ad, 0x5d6aebcd, 0x6a09e667, 0xbb67ae85, 0x78ce7989, 0xfa2a4622, 0x510e527f, 0x9b05688c));
    OneMore(k, w, 2, Chain(0x5a6ad9ad, 0x5d6aebcd, 0x6a09e667, 0xbb67ae85, 0x78ce7989, 0xfa2a4622, 0x510e527f, 0x9b05688c), 0xb5c0fbcf, 0x00000000,
            Chain(0xc8c347a7, 0x5a6ad9ad, 0x5d6aebcd, 0x6a09e667, 0xf92939eb, 0x78ce7989, 0xfa2a4622, 0x510e527f));
    OneMore(k, w, 3, Chain(0xc8c347a7, 0x5a6ad9ad, 0x5d6aebcd, 0x6a09e667, 0xf92939eb, 0x78ce7989, 0xfa2a4622, 0x510e527f), 0xe9b5dba5, 0x00000000,
            Chain(0xd550f666, 0xc8c347a7, 0x5a6ad9ad, 0x5d6aebcd, 0x24e00850, 0xf92939eb, 0x78ce7989, 0xfa2a4622));
    OneMore(k, w, 4, Chain(0xd550f666, 0xc8c347a7, 0x5a6ad9ad, 0x5d6aebcd, 0x24e00850, 0xf92939eb, 0x78ce7989, 0xfa2a4622), 0x3956c25b, 0x00000000,
            Chain(0x04409a6a, 0xd550f666, 0xc8c347a7, 0x5a6ad9ad, 0x43ada245, 0x24e00850, 0xf92939eb, 0x78ce7989));
    OneMore(k, w, 5, Chain(0x04409a6a, 0xd550f666, 0xc8c347a7, 0x5a6ad9ad, 0x43ada245, 0x24e00850, 0xf92939eb, 0x78ce7989), 0x59f111f1, 0x00000000,
            Chain(0x2b4209f5, 0x04409a6a, 0xd550f666, 0xc8c347a7, 0x714260ad, 0x43ada245, 0x24e00850, 0xf92939eb));
    OneMore(k, w, 6, Chain(0x2b4209f5, 0x04409a6a, 0xd550f666, 0xc8c347a7, 0x714260ad, 0x43ada245, 0x24e00850, 0xf92939eb), 0x923f82a4, 0x00000000,
            Chain(0xe5030380, 0x2b4209f5, 0x04409a6a, 0xd550f666, 0x9b27a401, 0x714260ad, 0x43ada245, 0x24e00850));
    OneMore(k, w, 7, Chain(0xe5030380, 0x2b4209f5, 0x04409a6a, 0xd550f666, 0x9b27a401, 0x714260ad, 0x43ada245, 0x24e00850), 0xab1c5ed5, 0x00000000,
            Chain(0x85a07b5f, 0xe5030380, 0x2b4209f5, 0x04409a6a, 0x0c657a79, 0x9b27a401, 0x714260ad, 0x43ada245));
  }

  lemma RoundsRow1(k: seq<Word>, w: seq<Word>)
    requires KRow1(k) && WRow1(w) && Rounds(k, H0, w, 8) == Chain(0x85a07b5f, 0xe5030380, 0x2b4209f5, 0x04409a6a, 0x0c657a79, 0x9b27a401, 0x714260ad, 0x43ada245)
    ensures Rounds(k, H0, w, 16) == Chain(0xb0fa238e, 0xc0645fde, 0xd932eb16, 0x87912990, 0x07590dcd, 0x0b92f20c, 0x745a48de, 0x1e578218)
  {
    OneMore(k, w, 8, Chain(0x85a07b5f, 0xe5030380, 0x2b4209f5, 0x04409a6a, 0x0c657a79, 0x9b27a401, 0x714260ad, 0x43ada245), 0xd807aa98, 0x00000000,
            Chain(0x8e04ecb9, 0x85a07b5f, 0xe5030380, 0x2b4209f5, 0x32ca2d8c, 0x0c657a79, 0x9b27a401, 0x714260ad));
    OneMore(k, w, 9, Chain(0x8e04ecb9, 0x85a07b5f, 0xe5030380, 0x2b4209f5, 0x32ca2d8c, 0x0c657a79, 0x9b27a401, 0x714260ad), 0x12835b01, 0x00000000,
            Chain(0x8c87346b, 0x8e04ecb9, 0x85a07b5f, 0xe5030380, 0x1cc92596, 0x32ca2d8c, 0x0c657a79, 0x9b27a401));
    OneMore(k, w, 10, Chain(0x8c87346b, 0x8e04ecb9, 0x85a07b5f, 0xe5030380, 0x1cc92596, 0x32ca2d8c, 0x0c657a79, 0x9b27a401), 0x243185be, 0x00000000,
            Chain(0x4798a3f4, 0x8c87346b, 0x8e04ecb9, 0x85a07b5f, 0x436b23e8, 0x1cc92596, 0x32ca2d8c, 0x0c657a79));
    OneMore(k, w, 11, Chain(0x4798a3f4, 0x8c87346b, 0x8e04ecb9, 0x85a07b5f, 0x436b23e8, 0x1cc92596, 0x32ca2d8c, 0x0c657a79), 0x550c7dc3, 0x00000000,
            Chain(0xf71fc5a9, 0x4798a3f4, 0x8c87346b, 0x8e04ecb9, 0x816fd6e9, 0x436b23e8, 0x1cc92596, 0x32ca2d8c));
    OneMore(k, w, 12, Chain(0xf71fc5a9, 0x4798a3f4, 0x8c87346b, 0x8e04ecb9, 0x816fd6e9, 0x436b23e8, 0x1cc92596, 0x32ca2d8c), 0x72be5d74, 0x00000000,
            Chain(0x87912990, 0xf71fc5a9, 0x4798a3f4, 0x8c87346b, 0x1e578218, 0x816fd6e9, 0x436b23e8, 0x1cc92596));
    OneMore(k, w, 13, Chain(0x87912990, 0xf71fc5a9, 0x4798a3f4, 0x8c87346b, 0x1e578218, 0x816fd6e9, 0x436b23e8, 0x1cc92596), 0x80deb1fe, 0x00000000,
            Chain(0xd932eb16, 0x87912990, 0xf71fc5a9, 0x4798a3f4, 0x745a48de, 0x1e578218, 0x816fd6e9, 0x436b23e8));
    OneMore(k, w, 14, Chain(0xd932eb16, 0x87912990, 0xf71fc5a9, 0x4798a3f4, 0x745a48de, 0x1e578218, 0x816fd6e9, 0x436b23e8), 0x9bdc06a7, 0x00000000,
            Chain(0xc0645fde, 0xd932eb16, 0x87912990, 0xf71fc5a9, 0x0b92f20c, 0x745a48de, 0x1e578218, 0x816fd6e9));
    OneMore(k, w, 15, Chain(0xc0645fde, 0xd932eb16, 0x87912990, 0xf71fc5a9, 0x0b92f20c, 0x745a48de, 0x1e578218, 0x816fd6e9), 0xc19bf174, 0x00000018,
            Chain(0xb0fa238e, 0xc0645fde, 0xd932eb16, 0x87912990, 0x07590dcd, 0x0b92f20c, 0x745a48de, 0x1e578218));
  }

  lemma RoundsRow2(k: seq<Word>, w: seq<Word>)
    requires KRow2(k) && WRow2(w) && Rounds(k, H0, w, 16) == Chain(0xb0fa238e, 0xc0645fde, 0xd932eb16, 0x87912990, 0x07590dcd, 0x0b92f20c, 0x745a48de, 0x1e578218)
    ensures Rounds(k, H0, w, 24) == Chain(0xc5d53d8d, 0xa7a3623f, 0xc2606d6d, 0x9dc68b63, 0xaa47c347, 0x49f5114a, 0xe1257970, 0x8ada8930)
  {
    OneMore(k, w, 16, Chain(0xb0fa238e, 0xc0645fde, 0xd932eb16, 0x87912990, 0x07590dcd, 0x0b92f20c, 0x745a48de, 0x1e578218), 0xe49b69c1, 0x61626380,
            Chain(0x21da9a9b, 0xb0fa238e, 0xc0645fde, 0xd932eb16, 0x8034229c, 0x07590dcd, 0x0b92f20c, 0x745a48de));
    OneMore(k, w, 17, Chain(0x21da9a9b, 0xb0fa238e, 0xc0645fde, 0xd932eb16, 0x8034229c, 0x07590dcd, 0x0b92f20c, 0x745a48de), 0xefbe4786, 0x000f0000,
            Chain(0xc2fbd9d1, 0x21da9a9b, 0xb0fa238e, 0xc0645fde, 0x846ee454, 0x8034229c, 0x07590dcd, 0x0b92f20c));
    OneMore(k, w, 18, Chain(0xc2fbd9d1, 0x21da9a9b, 0xb0fa238e, 0xc0645fde, 0x846ee454, 0x8034229c, 0x07590dcd, 0x0b92f20c), 0x0fc19dc6, 0x7da86405,
            Chain(0xfe777bbf, 0xc2fbd9d1, 0x21da9a9b, 0xb0fa238e, 0xcc899961, 0x846ee454, 0x8034229c, 0x07590dcd));
    OneMore(k, w, 19, Chain(0xfe777bbf, 0xc2fbd9d1, 0x21da9a9b, 0xb0fa238e, 0xcc899961, 0x846ee454, 0x8034229c, 0x07590dcd), 0x240ca1cc, 0x600003c6,
            Chain(0xe1f20c33, 0xfe777bbf, 0xc2fbd9d1, 0x21da9a9b, 0xb0638179, 0xcc899961, 0x846ee454, 0x8034229c));
    OneMore(k, w, 20, Chain(0xe1f20c33, 0xfe777bbf, 0xc2fbd9d1, 0x21da9a9b, 0xb0638179, 0xcc899961, 0x846ee454, 0x8034229c), 0x2de92c6f, 0x3e9d7b78,
            Chain(0x9dc68b63, 0xe1f20c33, 0xfe777bbf, 0xc2fbd9d1, 0x8ada8930, 0xb0638179, 0xcc899961, 0x846ee454));
    OneMore(k, w, 21, Chain(0x9dc68b63, 0xe1f20c33, 0xfe777bbf, 0xc2fbd9d1, 0x8ada8930, 0xb0638179, 0xcc899961, 0x846ee454), 0x4a7484aa, 0x0183fc00,
            Chain(0xc2606d6d, 0x9dc68b63, 0xe1f20c33, 0xfe777bbf, 0xe1257970, 0x8ada8930, 0xb0638179, 0xcc899961));
    OneMore(k, w, 22, Chain(0xc2606d6d, 0x9dc68b63, 0xe1f20c33, 0xfe777bbf, 0xe1257970, 0x8ada8930, 0xb0638179, 0xcc899961), 0x5cb0a9dc, 0x12dcbfdb,
            Chain(0xa7a3623f, 0xc2606d6d, 0x9dc68b63, 0xe1f20c33, 0x49f5114a, 0xe1257970, 0x8ada8930, 0xb0638179));
    OneMore(k, w, 23, Chain(0xa7a3623f, 0xc2606d6d, 0x9dc68b63, 0xe1f20c33, 0x49f5114a, 0xe1257970, 0x8ada8930, 0xb0638179), 0x76f988da, 0xe2e2c38e,
            Chain(0xc5d53d8d, 0xa7a3623f, 0xc2606d6d, 0x9dc68b63, 0xaa47c347, 0x49f5114a, 0xe1257970, 0x8ada8930));
  }

  lemma RoundsRow3(k: seq<Word>, w: seq<Word>)
    requires KRow3(k) && WRow3(w) && Rounds(k, H0, w, 24) == Chain(0xc5d53d8d, 0xa7a3623f, 0xc2606d6d, 0x9dc68b63, 0xaa47c347, 0x49f5114a, 0xe1257970, 0x8ada8930)
    ensures Rounds(k, H0, w, 32) == Chain(0x73b33bf5, 0xea992a22, 0xa0060b30, 0x363482c9, 0xba591112, 0x0109ab3a, 0xade79437, 0x6112a3b7)
  {
    OneMore(k, w, 24, Chain(0xc5d53d8d, 0xa7a3623f, 0xc2606d6d, 0x9dc68b63, 0xaa47c347, 0x49f5114a, 0xe1257970, 0x8ada8930), 0x983e5152, 0xc8215c1a,
            Chain(0x1c2c2838, 0xc5d53d8d, 0xa7a3623f, 0xc2606d6d, 0x2823ef91, 0xaa47c347, 0x49f5114a, 0xe1257970));
    OneMore(k, w, 25, Chain(0x1c2c2838, 0xc5d53d8d, 0xa7a3623f, 0xc2606d6d, 0x2823ef91, 0xaa47c347, 0x49f5114a, 0xe1257970), 0xa831c66d, 0xb73679a2,
            Chain(0xcde8037d, 0x1c2c2838, 0xc5d53d8d, 0xa7a3623f, 0x14383d8e, 0x2823ef91, 0xaa47c347, 0x49f5114a));
    OneMore(k, w, 26, Chain(0xcde8037d, 0x1c2c2838, 0xc5d53d8d, 0xa7a3623f, 0x14383d8e, 0x2823ef91, 0xaa47c347, 0x49f5114a), 0xb00327c8, 0xe5bc3909,
            Chain(0xb62ec4bc, 0xcde8037d, 0x1c2c2838, 0xc5d53d8d, 0xc74c6516, 0x14383d8e, 0x2823ef91, 0xaa47c347));
    OneMore(k, w, 27, Chain(0xb62ec4bc, 0xcde8037d, 0x1c2c2838, 0xc5d53d8d, 0xc74c6516, 0x14383d8e, 0x2823ef91, 0xaa47c347), 0xbf597fc7, 0x32663c5b,
            Chain(0x77d37528, 0xb62ec4bc, 0xcde8037d, 0x1c2c2838, 0xedffbff8, 0xc74c6516, 0x14383d8e, 0x2823ef91));
    OneMore(k, w, 28, Chain(0x77d37528, 0xb62ec4bc, 0xcde8037d, 0x1c2c2838, 0xedffbff8, 0xc74c6516, 0x14383d8e, 0x2823ef91), 0xc6e00bf3, 0x9d209d67,
            Chain(0x363482c9, 0x77d37528, 0xb62ec4bc, 0xcde8037d, 0x6112a3b7, 0xedffbff8, 0xc74c6516, 0x14383d8e));
    OneMore(k, w, 29, Chain(0x363482c9, 0x77d37528, 0xb62ec4bc, 0xcde8037d, 0x6112a3b7, 0xedffbff8, 0xc74c6516, 0x14383d8e), 0xd5a79147, 0xec8726cb,
            Chain(0xa0060b30, 0x363482c9, 0x77d37528, 0xb62ec4bc, 0xade79437, 0x6112a3b7, 0xedffbff8, 0xc74c6516));
    OneMore(k, w, 30, Chain(0xa0060b30, 0x363482c9, 0x77d37528, 0xb62ec4bc, 0xade79437, 0x6112a3b7, 0xedffbff8, 0xc74c6516), 0x06ca6351, 0x702138a4,
            Chain(0xea992a22, 0xa0060b30, 0x363482c9, 0x77d37528, 0x0109ab3a, 0xade79437, 0x6112a3b7, 0xedffbff8));
    OneMore(k, w, 31, Chain(0xea992a22, 0xa0060b30, 0x363482c9, 0x77d37528, 0x0109ab3a, 0xade79437, 0x6112a3b7, 0xedffbff8), 0x14292967, 0xd3b7973b,
            Chain(0x73b33bf5, 0xea992a22, 0xa0060b30, 0x363482c9, 0xba591112, 0x0109ab3a, 0xade79437, 0x6112a3b7));
  }

  lemma RoundsRow4(k: seq<Word>, w: seq<Word>)
    requires KRow4(k) && WRow4(w) && Rounds(k, H0, w, 32) == Chain(0x73b33bf5, 0xea992a22, 0xa0060b30, 0x363482c9, 0xba591112, 0x0109ab3a, 0xade79437, 0x6112a3b7)
    ensures Rounds(k, H0, w, 40) == Chain(0x79ea687a, 0x6dc57a8a, 0x34df1604, 0x41a65cb1, 0x1efbc0a0, 0xf0781bc8, 0xa507a53d, 0x0772a26b)
  {
    OneMore(k, w, 32, Chain(0x73b33bf5, 0xea992a22, 0xa0060b30, 0x363482c9, 0xba591112, 0x0109ab3a, 0xade79437, 0x6112a3b7), 0x27b70a85, 0x93f5997f,
            Chain(0x98e12507, 0x73b33bf5, 0xea992a22, 0xa0060b30, 0x9cd9f5f6, 0xba591112, 0x0109ab3a, 0xade79437));
    OneMore(k, w, 33, Chain(0x98e12507, 0x73b33bf5, 0xea992a22, 0xa0060b30, 0x9cd9f5f6, 0xba591112, 0x0109ab3a, 0xade79437), 0x2e1b2138, 0x3b68ba73,
            Chain(0xfe604df5, 0x98e12507, 0x73b33bf5, 0xea992a22, 0x59249dd3, 0x9cd9f5f6, 0xba591112, 0x0109ab3a));
    OneMore(k, w, 34, Chain(0xfe604df5, 0x98e12507, 0x73b33bf5, 0xea992a22, 0x59249dd3, 0x9cd9f5f6, 0xba591112, 0x0109ab3a), 0x4d2c6dfc, 0xaff4ffc1,
            Chain(0xa9a7738c, 0xfe604df5, 0x98e12507, 0x73b33bf5, 0x085f3833, 0x59249dd3, 0x9cd9f5f6, 0xba591112));
    OneMore(k, w, 35, Chain(0xa9a7738c, 0xfe604df5, 0x98e12507, 0x73b33bf5, 0x085f3833, 0x59249dd3, 0x9cd9f5f6, 0xba591112), 0x53380d13, 0xf10a5c62,
            Chain(0x65a0cfe4, 0xa9a7738c, 0xfe604df5, 0x98e12507, 0xf4b002d6, 0x085f3833, 0x59249dd3, 0x9cd9f5f6));
    OneMore(k, w, 36, Chain(0x65a0cfe4, 0xa9a7738c, 0xfe604df5, 0x98e12507, 0xf4b002d6, 0x085f3833, 0x59249dd3, 0x9cd9f5f6), 0x650a7354, 0x0a8b3996,
            Chain(0x41a65cb1, 0x65a0cfe4, 0xa9a7738c, 0xfe604df5, 0x0772a26b, 0xf4b002d6, 0x085f3833, 0x59249dd3));
    OneMore(k, w, 37, Chain(0x41a65cb1, 0x65a0cfe4, 0xa9a7738c, 0xfe604df5, 0x0772a26b, 0xf4b002d6, 0x085f3833, 0x59249dd3), 0x766a0abb, 0x72af830a,
            Chain(0x34df1604, 0x41a65cb1, 0x65a0cfe4, 0xa9a7738c, 0xa507a53d, 0x0772a26b, 0xf4b002d6, 0x085f3833));
    OneMore(k, w, 38, Chain(0x34df1604, 0x41a65cb1, 0x65a0cfe4, 0xa9a7738c, 0xa507a53d, 0x0772a26b, 0xf4b002d6, 0x085f3833), 0x81c2c92e, 0x9409e33e,
            Chain(0x6dc57a8a, 0x34df1604, 0x41a65cb1, 0x65a0cfe4, 0xf0781bc8, 0xa507a53d, 0x0772a26b, 0xf4b002d6));
    OneMore(k, w, 39, Chain(0x6dc57a8a, 0x34df1604, 0x41a65cb1, 0x65a0cfe4, 0xf0781bc8, 0xa507a53d, 0x0772a26b, 0xf4b002d6), 0x92722c85, 0x24641522,
            Chain(0x79ea687a, 0x6dc57a8a, 0x34df1604, 0x41a65cb1, 0x1efbc0a0, 0xf0781bc8, 0xa507a53d, 0x0772a26b));
  }

  lemma RoundsRow5(k: seq<Word>, w: seq<Word>)
    requires KRow5(k) && WRow5(w) && Rounds(k, H0, w, 40) == Chain(0x79ea687a, 0x6dc57a8a, 0x34df1604, 0x41a65cb1, 0x1efbc0a0, 0xf0781bc8, 0xa507a53d, 0x0772a26b)
    ensures Rounds(k, H0, w, 48) == Chain(0x4172328d, 0xa14c14b0, 0x72ab4b91, 0x26628815, 0xfecf0bc6, 0xd57b94a9, 0xb7755da1, 0xa80f11f0)
  {
    OneMore(k, w, 40, Chain(0x79ea687a, 0x6dc57a8a, 0x34df1604, 0x41a65cb1, 0x1efbc0a0, 0xf0781bc8, 0xa507a53d, 0x0772a26b), 0xa2bfe8a1, 0x9f47bf94,
            Chain(0xd6670766, 0x79ea687a, 0x6dc57a8a, 0x34df1604, 0x26352d63, 0x1efbc0a0, 0xf0781bc8, 0xa507a53d));
    OneMore(k, w, 41, Chain(0xd6670766, 0x79ea687a, 0x6dc57a8a, 0x34df1604, 0x26352d63, 0x1efbc0a0, 0xf0781bc8, 0xa507a53d), 0xa81a664b, 0xf0a64f5a,
            Chain(0xdf46652f, 0xd6670766, 0x79ea687a, 0x6dc57a8a, 0x838b2711, 0x26352d63, 0x1efbc0a0, 0xf0781bc8));
    OneMore(k, w, 42, Chain(0xdf46652f, 0xd6670766, 0x79ea687a, 0x6dc57a8a, 0x838b2711, 0x26352d63, 0x1efbc0a0, 0xf0781bc8), 0xc24b8b70, 0x3e246a79,
            Chain(0x17aa0dfe, 0xdf46652f, 0xd6670766, 0x79ea687a, 0xdecd4715, 0x838b2711, 0x26352d63, 0x1efbc0a0));
    OneMore(k, w, 43, Chain(0x17aa0dfe, 0xdf46652f, 0xd6670766, 0x79ea687a, 0xdecd4715, 0x838b2711, 0x26352d63, 0x1efbc0a0), 0xc76c51a3, 0x27333ba3,
            Chain(0x9d4baf93, 0x17aa0dfe, 0xdf46652f, 0xd6670766, 0xfda24c2e, 0xdecd4715, 0x838b2711, 0x26352d63));
    OneMore(k, w, 44, Chain(0x9d4baf93, 0x17aa0dfe, 0xdf46652f, 0xd6670766, 0xfda24c2e, 0xdecd4715, 0x838b2711, 0x26352d63), 0xd192e819, 0x0c4763f2,
            Chain(0x26628815, 0x9d4baf93, 0x17aa0dfe, 0xdf46652f, 0xa80f11f0, 0xfda24c2e, 0xdecd4715, 0x838b2711));
    OneMore(k, w, 45, Chain(0x26628815, 0x9d4baf93, 0x17aa0dfe, 0xdf46652f, 0xa80f11f0, 0xfda24c2e, 0xdecd4715, 0x838b2711), 0xd6990624, 0x840abf27,
            Chain(0x72ab4b91, 0x26628815, 0x9d4baf93, 0x17aa0dfe, 0xb7755da1, 0xa80f11f0, 0xfda24c2e, 0xdecd4715));
    OneMore(k, w, 46, Chain(0x72ab4b91, 0x26628815, 0x9d4baf93, 0x17aa0dfe, 0xb7755da1, 0xa80f11f0, 0xfda24c2e, 0xdecd4715), 0xf40e3585, 0x7a290d5d,
            Chain(0xa14c14b0, 0x72ab4b91, 0x26628815, 0x9d4baf93, 0xd57b94a9, 0xb7755da1, 0xa80f11f0, 0xfda24c2e));
    OneMore(k, w, 47, Chain(0xa14c14b0, 0x72ab4b91, 0x26628815, 0x9d4baf93, 0xd57b94a9, 0xb7755da1, 0xa80f11f0, 0xfda24c2e), 0x106aa070, 0x065c43da,
            Chain(0x4172328d, 0xa14c14b0, 0x72ab4b91, 0x26628815, 0xfecf0bc6, 0xd57b94a9, 0xb7755da1, 0xa80f11f0));
  }

  lemma RoundsRow6(k: seq<Word>, w: seq<Word>)
    requires KRow6(k) && WRow6(w) && Rounds(k, H0, w, 48) == Chain(0x4172328d, 0xa14c14b0, 0x72ab4b91, 0x26628815, 0xfecf0bc6, 0xd57b94a9, 0xb7755da1, 0xa80f11f0)
    ensures Rounds(k, H0, w, 56) == Chain(0x38cc9913, 0x3ec45cdb, 0xf5702fdb, 0x101fd28f, 0x54cb266b, 0xe50e1b4f, 0x9f4787c3, 0x529e7d00)
  {
    OneMore(k, w, 48, Chain(0x4172328d, 0xa14c14b0, 0x72ab4b91, 0x26628815, 0xfecf0bc6, 0xd57b94a9, 0xb7755da1, 0xa80f11f0), 0x19a4c116, 0xfb3e89cb,
            Chain(0x05757ceb, 0x4172328d, 0xa14c14b0, 0x72ab4b91, 0xbd714038, 0xfecf0bc6, 0xd57b94a9, 0xb7755da1));
    OneMore(k, w, 49, Chain(0x05757ceb, 0x4172328d, 0xa14c14b0, 0x72ab4b91, 0xbd714038, 0xfecf0bc6, 0xd57b94a9, 0xb7755da1), 0x1e376c08, 0xcc7617db,
            Chain(0xf11bfaa8, 0x05757ceb, 0x4172328d, 0xa14c14b0, 0x6e5c390c, 0xbd714038, 0xfecf0bc6, 0xd57b94a9));
    OneMore(k, w, 50, Chain(0xf11bfaa8, 0x05757ceb, 0x4172328d, 0xa14c14b0, 0x6e5c390c, 0xbd714038, 0xfecf0bc6, 0xd57b94a9), 0x2748774c, 0xb9e66c34,
            Chain(0x7a0508a1, 0xf11bfaa8, 0x05757ceb, 0x4172328d, 0x52f1ccf7, 0x6e5c390c, 0xbd714038, 0xfecf0bc6));
    OneMore(k, w, 51, Chain(0x7a0508a1, 0xf11bfaa8, 0x05757ceb, 0x4172328d, 0x52f1ccf7, 0x6e5c390c, 0xbd714038, 0xfecf0bc6), 0x34b0bcb5, 0xa9993667,
            Chain(0x886e7a22, 0x7a0508a1, 0xf11bfaa8, 0x05757ceb, 0x49231c1e, 0x52f1ccf7, 0x6e5c390c, 0xbd714038));
    OneMore(k, w, 52, Chain(0x886e7a22, 0x7a0508a1, 0xf11bfaa8, 0x05757ceb, 0x49231c1e, 0x52f1ccf7, 0x6e5c390c, 0xbd714038), 0x391c0cb3, 0x84badedd,
            Chain(0x101fd28f, 0x886e7a22, 0x7a0508a1, 0xf11bfaa8, 0x529e7d00, 0x49231c1e, 0x52f1ccf7, 0x6e5c390c));
    OneMore(k, w, 53, Chain(0x101fd28f, 0x886e7a22, 0x7a0508a1, 0xf11bfaa8, 0x529e7d00, 0x49231c1e, 0x52f1ccf7, 0x6e5c390c), 0x4ed8aa4a, 0xc21462bc,
            Chain(0xf5702fdb, 0x101fd28f, 0x886e7a22, 0x7a0508a1, 0x9f4787c3, 0x529e7d00, 0x49231c1e, 0x52f1ccf7));
    OneMore(k, w, 54, Chain(0xf5702fdb, 0x101fd28f, 0x886e7a22, 0x7a0508a1, 0x9f4787c3, 0x529e7d00, 0x49231c1e, 0x52f1ccf7), 0x5b9cca4f, 0x1487472c,
            Chain(0x3ec45cdb, 0xf5702fdb, 0x101fd28f, 0x886e7a22, 0xe50e1b4f, 0x9f4787c3, 0x529e7d00, 0x49231c1e));
    OneMore(k, w, 55, Chain(0x3ec45cdb, 0xf5702fdb, 0x101fd28f, 0x886e7a22, 0xe50e1b4f, 0x9f4787c3, 0x529e7d00, 0x49231c1e), 0x682e6ff3, 0xb20f7a99,
            Chain(0x38cc9913, 0x3ec45cdb, 0xf5702fdb, 0x101fd28f, 0x54cb266b, 0xe50e1b4f, 0x9f4787c3, 0x529e7d00));
  }

  lemma RoundsRow7(k: seq<Word>, w: seq<Word>)
    requires KRow7(k) && WRow7(w) && Rounds(k, H0, w, 56) == Chain(0x38cc9913, 0x3ec45cdb, 0xf5702fdb, 0x101fd28f, 0x54cb266b, 0xe50e1b4f, 0x9f4787c3, 0x529e7d00)
    ensures Rounds(k, H0, w, 64) == Chain(0x506e3058, 0xd39a2165, 0x04d24d6c, 0xb85e2ce9, 0x5ef50f24, 0xfb121210, 0x948d25b6, 0x961f4894)
  {
    OneMore(k, w, 56, Chain(0x38cc9913, 0x3ec45cdb, 0xf5702fdb, 0x101fd28f, 0x54cb266b, 0xe50e1b4f, 0x9f4787c3, 0x529e7d00), 0x748f82ee, 0xef57b9cd,
            Chain(0xfcd1887b, 0x38cc9913, 0x3ec45cdb, 0xf5702fdb, 0x9b5e906c, 0x54cb266b, 0xe50e1b4f, 0x9f4787c3));
    OneMore(k, w, 57, Chain(0xfcd1887b, 0x38cc9913, 0x3ec45cdb, 0xf5702fdb, 0x9b5e906c, 0x54cb266b, 0xe50e1b4f, 0x9f4787c3), 0x78a5636f, 0xebe6b238,
            Chain(0xc062d46f, 0xfcd1887b, 0x38cc9913, 0x3ec45cdb, 0x7e44008e, 0x9b5e906c, 0x54cb266b, 0xe50e1b4f));
    OneMore(k, w, 58, Chain(0xc062d46f, 0xfcd1887b, 0x38cc9913, 0x3ec45cdb, 0x7e44008e, 0x9b5e906c, 0x54cb266b, 0xe50e1b4f), 0x84c87814, 0x9fe3095e,
            Chain(0xffb70472, 0xc062d46f, 0xfcd1887b, 0x38cc9913, 0x6d83bfc6, 0x7e44008e, 0x9b5e906c, 0x54cb266b));
    OneMore(k, w, 59, Chain(0xffb70472, 0xc062d46f, 0xfcd1887b, 0x38cc9913, 0x6d83bfc6, 0x7e44008e, 0x9b5e906c, 0x54cb266b), 0x8cc70208, 0x78bc8d4b,
            Chain(0xb6ae8fff, 0xffb70472, 0xc062d46f, 0xfcd1887b, 0xb21bad3d, 0x6d83bfc6, 0x7e44008e, 0x9b5e906c));
    OneMore(k, w, 60, Chain(0xb6ae8fff, 0xffb70472, 0xc062d46f, 0xfcd1887b, 0xb21bad3d, 0x6d83bfc6, 0x7e44008e, 0x9b5e906c), 0x90befffa, 0xa43fcf15,
            Chain(0xb85e2ce9, 0xb6ae8fff, 0xffb70472, 0xc062d46f, 0x961f4894, 0xb21bad3d, 0x6d83bfc6, 0x7e44008e));
    OneMore(k, w, 61, Chain(0xb85e2ce9, 0xb6ae8fff, 0xffb70472, 0xc062d46f, 0x961f4894, 0xb21bad3d, 0x6d83bfc6, 0x7e44008e), 0xa4506ceb, 0x668b2ff8,
            Chain(0x04d24d6c, 0xb85e2ce9, 0xb6ae8fff, 0xffb70472, 0x948d25b6, 0x961f4894, 0xb21bad3d, 0x6d83bfc6));
    OneMore(k, w, 62, Chain(0x04d24d6c, 0xb85e2ce9, 0xb6ae8fff, 0xffb70472, 0x948d25b6, 0x961f4894, 0xb21bad3d, 0x6d83bfc6), 0xbef9a3f7, 0xeeaba2cc,
            Chain(0xd39a2165, 0x04d24d6c, 0xb85e2ce9, 0xb6ae8fff, 0xfb121210, 0x948d25b6, 0x961f4894, 0xb21bad3d));
    OneMore(k, w, 63, Chain(0xd39a2165, 0x04d24d6c, 0xb85e2ce9, 0xb6ae8fff, 0xfb121210, 0x948d25b6, 0x961f4894, 0xb21bad3d), 0xc67178f2, 0x12b1edeb,
            Chain(0x506e3058, 0xd39a2165, 0x04d24d6c, 0xb85e2ce9, 0x5ef50f24, 0xfb121210, 0x948d25b6, 0x961f4894));
  }

  lemma AllRoundsOfAbc()
    ensures |WORDS| == 64 && Rounds(K, H0, WORDS, 64) == Chain(0x506e3058, 0xd39a2165, 0x04d24d6c, 0xb85e2ce9, 0x5ef50f24, 0xfb121210, 0x948d25b6, 0x961f4894)
  {
    Table();
    Schedule64();
    RoundsRow0(K, WORDS);
    RoundsRow1(K, WORDS);
    RoundsRow2(K, WORDS);
    RoundsRow3(K, WORDS);
    RoundsRow4(K, WORDS);
    RoundsRow5(K, WORDS);
    RoundsRow6(K, WORDS);
    RoundsRow7(K, WORDS);
  }

  // ---- the hash ----

  lemma HashValue()
    ensures |BLOCK| == 64 && Blocks(K, BLOCK) == HASH
  {
    BlockBytes(0);
    Schedule64();
    forall t | 0 <= t < 16
      ensures WORDS[t] == WordAt(BLOCK, t)
    {
      FirstSixteen(t, WORDS);
      FirstWords(t);
    }
    AllFollow();
    ScheduleIs(64, WORDS);
    assert WORDS[..64] == WORDS;
    AllRoundsOfAbc();
    OneBlock(BLOCK, WORDS);
  }

  lemma OneBlock(block: seq<bv8>, w: seq<Word>)
    requires |block| == 64 && |w| == 64 && Schedule(block, 64) == w
    ensures Blocks(K, block) == Add(H0, Rounds(K, H0, w, 64))
  {
    assert block[..0] == [] && block[0..] == block;
    assert Blocks(K, []) == H0;
  }

  lemma WordsSnoc(words: seq<Word>, w: Word, bytes: seq<bv8>, four: seq<bv8>)
    requires WordsBytes(words) == bytes && WordBytes(w) == four
    ensures WordsBytes(words + [w]) == bytes + four
  {
    assert (words + [w])[..|words|] == words;
  }

  const HASH: Chain := Chain(0xba7816bf, 0x8f01cfea, 0x414140de, 0x5dae2223, 0xb00361a3, 0x96177a9c, 0xb410ff61, 0xf20015ad)

  lemma HashBytes()
    ensures WordsBytes(Words(HASH)) ==
            [0xba, 0x78, 0x16, 0xbf] +
            [0x8f, 0x01, 0xcf, 0xea] +
            [0x41, 0x41, 0x40, 0xde] +
            [0x5d, 0xae, 0x22, 0x23] +
            [0xb0, 0x03, 0x61, 0xa3] +
            [0x96, 0x17, 0x7a, 0x9c] +
            [0xb4, 0x10, 0xff, 0x61] +
            [0xf2, 0x00, 0x15, 0xad]
  {
    var words: seq<Word>, bytes: seq<bv8> := [], [];
    WordsSnoc(words, 0xba7816bf, bytes, [0xba, 0x78, 0x16, 0xbf]);
    words, bytes := words + [0xba7816bf], bytes + [0xba, 0x78, 0x16, 0xbf];
    WordsSnoc(words, 0x8f01cfea, bytes, [0x8f, 0x01, 0xcf, 0xea]);
    words, bytes := words + [0x8f01cfea], bytes + [0x8f, 0x01, 0xcf, 0xea];
    WordsSnoc(words, 0x414140de, bytes, [0x41, 0x41, 0x40, 0xde]);
    words, bytes := words + [0x414140de], bytes + [0x41, 0x41, 0x40, 0xde];
    WordsSnoc(words, 0x5dae2223, bytes, [0x5d, 0xae, 0x22, 0x23]);
    words, bytes := words + [0x5dae2223], bytes + [0x5d, 0xae, 0x22, 0x23];
    WordsSnoc(words, 0xb00361a3, bytes, [0xb0, 0x03, 0x61, 0xa3]);
    words, bytes := words + [0xb00361a3], bytes + [0xb0, 0x03, 0x61, 0xa3];
    WordsSnoc(words, 0x96177a9c, bytes, [0x96, 0x17, 0x7a, 0x9c]);
    words, bytes := words + [0x96177a9c], bytes + [0x96, 0x17, 0x7a, 0x9c];
    WordsSnoc(words, 0xb410ff61, bytes, [0xb4, 0x10, 0xff, 0x61]);
    words, bytes := words + [0xb410ff61], bytes + [0xb4, 0x10, 0xff, 0x61];
    WordsSnoc(words, 0xf20015ad, bytes, [0xf2, 0x00, 0x15, 0xad]);
    words, bytes := words + [0xf20015ad], bytes + [0xf2, 0x00, 0x15, 0xad];
    assert words == Words(HASH);
  }

  /** The hash of "abc" is the one that the standard's example and the program's own tests name. */
  lemma AbcHash()
    ensures Fips180(ABC) ==
            [0xba, 0x78, 0x16, 0xbf] +
            [0x8f, 0x01, 0xcf, 0xea] +
            [0x41, 0x41, 0x40, 0xde] +
            [0x5d, 0xae, 0x22, 0x23] +
            [0xb0, 0x03, 0x61, 0xa3] +
            [0x96, 0x17, 0x7a, 0x9c] +
            [0xb4, 0x10, 0xff, 0x61] +
            [0xf2, 0x00, 0x15, 0xad]
  {
    PaddedAbc();
    HashValue();
    HashBytes();
  }
}
