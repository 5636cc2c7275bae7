/**
 The constants of SHA-256 are what sections 4.2.2 and 5.3.3 of FIPS 180-4 say: the first 32 bits of
 the fractions of the cube roots of the first 64 primes, and of the square roots of the first 8.
 */
module Sha256Constants {
  import opened Sha256

  /** `n` and the word `w` after the point are the cube root of `p`, cut off. */
  predicate CubeRoot(p: nat, n: nat, w: nat) {
    var c := n * 0x1_0000_0000 + w;
    c * c * c <= p * 0x1_0000_0000_0000_0000_0000_0000 < (c + 1) * (c + 1) * (c + 1)
  }

  predicate SquareRoot(p: nat, n: nat, w: nat) {
    var c := n * 0x1_0000_0000 + w;
    c * c <= p * 0x1_0000_0000_0000_0000 < (c + 1) * (c + 1)
  }

  /** The word is the fraction of the cube root of `p`. */
  ghost predicate CubeWord(p: nat, w: Word) {
    var v := w as int;
    exists n: nat :: n < 0x100 && CubeRoot(p, n, v)
  }

  ghost predicate SquareWord(p: nat, w: Word) {
    var v := w as int;
    exists n: nat :: n < 0x100 && SquareRoot(p, n, v)
  }

  lemma CubeIs(p: nat, n: nat, v: nat, w: Word)
    requires n < 0x100 && CubeRoot(p, n, v) && w as int == v
    ensures CubeWord(p, w)
  {
  }

  lemma SquareIs(p: nat, n: nat, w: Word)
    requires n < 0x100 && SquareRoot(p, n, w as int)
    ensures SquareWord(p, w)
  {
  }

  // ---- the table, eight words at a time ----

  predicate KRow0(k: seq<Word>) {
    |k| == 64 && k[0] == 0x428a2f98 && k[1] == 0x71374491 && k[2] == 0xb5c0fbcf && k[3] == 0xe9b5dba5 &&
    k[4] == 0x3956c25b && k[5] == 0x59f111f1 && k[6] == 0x923f82a4 && k[7] == 0xab1c5ed5
  }

  predicate KRow1(k: seq<Word>) {
    |k| == 64 && k[8] == 0xd807aa98 && k[9] == 0x12835b01 && k[10] == 0x243185be && k[11] == 0x550c7dc3 &&
    k[12] == 0x72be5d74 && k[13] == 0x80deb1fe && k[14] == 0x9bdc06a7 && k[15] == 0xc19bf174
  }

  predicate KRow2(k: seq<Word>) {
    |k| == 64 && k[16] == 0xe49b69c1 && k[17] == 0xefbe4786 && k[18] == 0x0fc19dc6 && k[19] == 0x240ca1cc &&
    k[20] == 0x2de92c6f && k[21] == 0x4a7484aa && k[22] == 0x5cb0a9dc && k[23] == 0x76f988da
  }

  predicate KRow3(k: seq<Word>) {
    |k| == 64 && k[24] == 0x983e5152 && k[25] == 0xa831c66d && k[26] == 0xb00327c8 && k[27] == 0xbf597fc7 &&
    k[28] == 0xc6e00bf3 && k[29] == 0xd5a79147 && k[30] == 0x06ca6351 && k[31] == 0x14292967
  }

  predicate KRow4(k: seq<Word>) {
    |k| == 64 && k[32] == 0x27b70a85 && k[33] == 0x2e1b2138 && k[34] == 0x4d2c6dfc && k[35] == 0x53380d13 &&
    k[36] == 0x650a7354 && k[37] == 0x766a0abb && k[38] == 0x81c2c92e && k[39] == 0x92722c85
  }

  predicate KRow5(k: seq<Word>) {
    |k| == 64 && k[40] == 0xa2bfe8a1 && k[41] == 0xa81a664b && k[42] == 0xc24b8b70 && k[43] == 0xc76c51a3 &&
    k[44] == 0xd192e819 && k[45] == 0xd6990624 && k[46] == 0xf40e3585 && k[47] == 0x106aa070
  }

  predicate KRow6(k: seq<Word>) {
    |k| == 64 && k[48] == 0x19a4c116 && k[49] == 0x1e376c08 && k[50] == 0x2748774c && k[51] == 0x34b0bcb5 &&
    k[52] == 0x391c0cb3 && k[53] == 0x4ed8aa4a && k[54] == 0x5b9cca4f && k[55] == 0x682e6ff3
  }

  predicate KRow7(k: seq<Word>) {
    |k| == 64 && k[56] == 0x748f82ee && k[57] == 0x78a5636f && k[58] == 0x84c87814 && k[59] == 0x8cc70208 &&
    k[60] == 0x90befffa && k[61] == 0xa4506ceb && k[62] == 0xbef9a3f7 && k[63] == 0xc67178f2
  }

  ghost predicate Roots0(k: seq<Word>) {
    |k| == 64 && CubeWord(2, k[0]) && CubeWord(3, k[1]) && CubeWord(5, k[2]) && CubeWord(7, k[3]) &&
    CubeWord(11, k[4]) && CubeWord(13, k[5]) && CubeWord(17, k[6]) && CubeWord(19, k[7])
  }

  ghost predicate Roots1(k: seq<Word>) {
    |k| == 64 && CubeWord(23, k[8]) && CubeWord(29, k[9]) && CubeWord(31, k[10]) && CubeWord(37, k[11]) &&
    CubeWord(41, k[12]) && CubeWord(43, k[13]) && CubeWord(47, k[14]) && CubeWord(53, k[15])
  }

  ghost predicate Roots2(k: seq<Word>) {
    |k| == 64 && CubeWord(59, k[16]) && CubeWord(61, k[17]) && CubeWord(67, k[18]) && CubeWord(71, k[19]) &&
    CubeWord(73, k[20]) && CubeWord(79, k[21]) && CubeWord(83, k[22]) && CubeWord(89, k[23])
  }

  ghost predicate Roots3(k: seq<Word>) {
    |k| == 64 && CubeWord(97, k[24]) && CubeWord(101, k[25]) && CubeWord(103, k[26]) && CubeWord(107, k[27]) &&
    CubeWord(109, k[28]) && CubeWord(113, k[29]) && CubeWord(127, k[30]) && CubeWord(131, k[31])
  }

  ghost predicate Roots4(k: seq<Word>) {
    |k| == 64 && CubeWord(137, k[32]) && CubeWord(139, k[33]) && CubeWord(149, k[34]) && CubeWord(151, k[35]) &&
    CubeWord(157, k[36]) && CubeWord(163, k[37]) && CubeWord(167, k[38]) && CubeWord(173, k[39])
  }

  ghost predicate Roots5(k: seq<Word>) {
    |k| == 64 && CubeWord(179, k[40]) && CubeWord(181, k[41]) && CubeWord(191, k[42]) && CubeWord(193, k[43]) &&
    CubeWord(197, k[44]) && CubeWord(199, k[45]) && CubeWord(211, k[46]) && CubeWord(223, k[47])
  }

  ghost predicate Roots6(k: seq<Word>) {
    |k| == 64 && CubeWord(227, k[48]) && CubeWord(229, k[49]) && CubeWord(233, k[50]) && CubeWord(239, k[51]) &&
    CubeWord(241, k[52]) && CubeWord(251, k[53]) && CubeWord(257, k[54]) && CubeWord(263, k[55])
  }

  ghost predicate Roots7(k: seq<Word>) {
    |k| == 64 && CubeWord(269, k[56]) && CubeWord(271, k[57]) && CubeWord(277, k[58]) && CubeWord(281, k[59]) &&
    CubeWord(283, k[60]) && CubeWord(293, k[61]) && CubeWord(307, k[62]) && CubeWord(311, k[63])
  }

  lemma Table()
    ensures KRow0(K) && KRow1(K) && KRow2(K) && KRow3(K) && KRow4(K) && KRow5(K) && KRow6(K) && KRow7(K)
  {
    FirstHalf();
    SecondHalf();
  }

  lemma FirstHalf()
    ensures KRow0(K) && KRow1(K) && KRow2(K) && KRow3(K)
  {
  }

  lemma SecondHalf()
    ensures KRow4(K) && KRow5(K) && KRow6(K) && KRow7(K)
  {
  }

  lemma CubeRow0(k: seq<Word>)
    requires KRow0(k)
    ensures Roots0(k)
  {
    CubeIs(2, 1, 0x428a2f98, 0x428a2f98);
    CubeIs(3, 1, 0x71374491, 0x71374491);
    CubeIs(5, 1, 0xb5c0fbcf, 0xb5c0fbcf);
    CubeIs(7, 1, 0xe9b5dba5, 0xe9b5dba5);
    CubeIs(11, 2, 0x3956c25b, 0x3956c25b);
    CubeIs(13, 2, 0x59f111f1, 0x59f111f1);
    CubeIs(17, 2, 0x923f82a4, 0x923f82a4);
    CubeIs(19, 2, 0xab1c5ed5, 0xab1c5ed5);
  }

  lemma CubeRow1(k: seq<Word>)
    requires KRow1(k)
    ensures Roots1(k)
  {
    CubeIs(23, 2, 0xd807aa98, 0xd807aa98);
    CubeIs(29, 3, 0x12835b01, 0x12835b01);
    CubeIs(31, 3, 0x243185be, 0x243185be);
    CubeIs(37, 3, 0x550c7dc3, 0x550c7dc3);
    CubeIs(41, 3, 0x72be5d74, 0x72be5d74);
    CubeIs(43, 3, 0x80deb1fe, 0x80deb1fe);
    CubeIs(47, 3, 0x9bdc06a7, 0x9bdc06a7);
    CubeIs(53, 3, 0xc19bf174, 0xc19bf174);
  }

  lemma CubeRow2(k: seq<Word>)
    requires KRow2(k)
    ensures Roots2(k)
  {
    CubeIs(59, 3, 0xe49b69c1, 0xe49b69c1);
    CubeIs(61, 3, 0xefbe4786, 0xefbe4786);
    CubeIs(67, 4, 0x0fc19dc6, 0x0fc19dc6);
    CubeIs(71, 4, 0x240ca1cc, 0x240ca1cc);
    CubeIs(73, 4, 0x2de92c6f, 0x2de92c6f);
    CubeIs(79, 4, 0x4a7484aa, 0x4a7484aa);
    CubeIs(83, 4, 0x5cb0a9dc, 0x5cb0a9dc);
    CubeIs(89, 4, 0x76f988da, 0x76f988da);
  }

  lemma CubeRow3(k: seq<Word>)
    requires KRow3(k)
    ensures Roots3(k)
  {
    CubeIs(97, 4, 0x983e5152, 0x983e5152);
    CubeIs(101, 4, 0xa831c66d, 0xa831c66d);
    CubeIs(103, 4, 0xb00327c8, 0xb00327c8);
    CubeIs(107, 4, 0xbf597fc7, 0xbf597fc7);
    CubeIs(109, 4, 0xc6e00bf3, 0xc6e00bf3);
    CubeIs(113, 4, 0xd5a79147, 0xd5a79147);
    CubeIs(127, 5, 0x06ca6351, 0x06ca6351);
    CubeIs(131, 5, 0x14292967, 0x14292967);
  }

  lemma CubeRow4(k: seq<Word>)
    requires KRow4(k)
    ensures Roots4(k)
  {
    CubeIs(137, 5, 0x27b70a85, 0x27b70a85);
    CubeIs(139, 5, 0x2e1b2138, 0x2e1b2138);
    CubeIs(149, 5, 0x4d2c6dfc, 0x4d2c6dfc);
    CubeIs(151, 5, 0x53380d13, 0x53380d13);
    CubeIs(157, 5, 0x650a7354, 0x650a7354);
    CubeIs(163, 5, 0x766a0abb, 0x766a0abb);
    CubeIs(167, 5, 0x81c2c92e, 0x81c2c92e);
    CubeIs(173, 5, 0x92722c85, 0x92722c85);
  }

  lemma CubeRow5(k: seq<Word>)
    requires KRow5(k)
    ensures Roots5(k)
  {
    CubeIs(179, 5, 0xa2bfe8a1, 0xa2bfe8a1);
    CubeIs(181, 5, 0xa81a664b, 0xa81a664b);
    CubeIs(191, 5, 0xc24b8b70, 0xc24b8b70);
    CubeIs(193, 5, 0xc76c51a3, 0xc76c51a3);
    CubeIs(197, 5, 0xd192e819, 0xd192e819);
    CubeIs(199, 5, 0xd6990624, 0xd6990624);
    CubeIs(211, 5, 0xf40e3585, 0xf40e3585);
    CubeIs(223, 6, 0x106aa070, 0x106aa070);
  }

  lemma CubeRow6(k: seq<Word>)
    requires KRow6(k)
    ensures Roots6(k)
  {
    CubeIs(227, 6, 0x19a4c116, 0x19a4c116);
    CubeIs(229, 6, 0x1e376c08, 0x1e376c08);
    CubeIs(233, 6, 0x2748774c, 0x2748774c);
    CubeIs(239, 6, 0x34b0bcb5, 0x34b0bcb5);
    CubeIs(241, 6, 0x391c0cb3, 0x391c0cb3);
    CubeIs(251, 6, 0x4ed8aa4a, 0x4ed8aa4a);
    CubeIs(257, 6, 0x5b9cca4f, 0x5b9cca4f);
    CubeIs(263, 6, 0x682e6ff3, 0x682e6ff3);
  }

  lemma CubeRow7(k: seq<Word>)
    requires KRow7(k)
    ensures Roots7(k)
  {
    CubeIs(269, 6, 0x748f82ee, 0x748f82ee);
    CubeIs(271, 6, 0x78a5636f, 0x78a5636f);
    CubeIs(277, 6, 0x84c87814, 0x84c87814);
    CubeIs(281, 6, 0x8cc70208, 0x8cc70208);
    CubeIs(283, 6, 0x90befffa, 0x90befffa);
    CubeIs(293, 6, 0xa4506ceb, 0xa4506ceb);
    CubeIs(307, 6, 0xbef9a3f7, 0xbef9a3f7);
    CubeIs(311, 6, 0xc67178f2, 0xc67178f2);
  }

  /** Each word of `K` belongs to its prime, the first 64 in order. */
  lemma TableIsRoots()
    ensures Roots0(K) && Roots1(K) && Roots2(K) && Roots3(K) && Roots4(K) && Roots5(K) && Roots6(K) && Roots7(K)
  {
    Table();
    CubeRow0(K);
    CubeRow1(K);
    CubeRow2(K);
    CubeRow3(K);
    CubeRow4(K);
    CubeRow5(K);
    CubeRow6(K);
    CubeRow7(K);
  }

  /** Each word of the initial hash value belongs to its prime. */
  lemma InitialIsRoots()
    ensures SquareWord(2, H0.a) && SquareWord(3, H0.b) && SquareWord(5, H0.c) && SquareWord(7, H0.d)
    ensures SquareWord(11, H0.e) && SquareWord(13, H0.f) && SquareWord(17, H0.g) && SquareWord(19, H0.h)
  {
    SquareIs(2, 1, 0x6a09e667);
    SquareIs(3, 1, 0xbb67ae85);
    SquareIs(5, 2, 0x3c6ef372);
    SquareIs(7, 2, 0xa54ff53a);
    SquareIs(11, 3, 0x510e527f);
    SquareIs(13, 3, 0x9b05688c);
    SquareIs(17, 4, 0x1f83d9ab);
    SquareIs(19, 4, 0x5be0cd19);
  }
}
