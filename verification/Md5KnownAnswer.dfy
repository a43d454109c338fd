/**
 The digest of the empty message, worked out step by step: the first entry of the test suite in
 appendix A.5 of RFC 1321.  One known answer ties down what every definition of the digest says at
 once: initial registers, round functions, shifts, constants, final additions, padding, byte order.
 */
module Md5KnownAnswer {
  import opened Common
  import opened Md5Schedule
  import opened Md5Core
  import opened Md5Stream

  /** The one block of the padded empty message, as words. */
  const EmptyBlock: seq<Word> := [0x80, 0, 0, 0, 0, 0, 0, 0, 0, 0, 0, 0, 0, 0, 0, 0]

  // ---------- One step ----------

  /** Powers of two for the shifts in use and their complements. */
  function Power(n: nat): int {
    match n
    case 4 => 0x10 case 5 => 0x20 case 6 => 0x40 case 7 => 0x80
    case 9 => 0x200 case 10 => 0x400 case 11 => 0x800 case 12 => 0x1000
    case 14 => 0x4000 case 15 => 0x8000 case 16 => 0x10000 case 17 => 0x20000
    case 18 => 0x40000 case 20 => 0x100000 case 21 => 0x200000 case 22 => 0x400000
    case 23 => 0x800000 case 25 => 0x2000000 case 26 => 0x4000000 case 27 => 0x8000000
    case 28 => 0x10000000
    case _ => 0
  }

  lemma PowerIsPow2(n: nat)
    ensures Power(n) != 0 ==> Power(n) == Pow2(n)
  {
    hide Pow2;
    Pow2Values();
    Pow2Low();
    Doublings(4, 16);
    Doublings(8, 0x100);
    Doublings(12, 0x1000);
    Doublings(16, 0x1_0000);
    Doublings(20, 0x10_0000);
    Doublings(24, 0x100_0000);
  }

  lemma Pow2Low()
    ensures Pow2(4) == 16
  {
  }

  lemma Doublings(n: nat, p: int)
    ensures Pow2(n) == p ==> Pow2(n + 1) == 2 * p && Pow2(n + 2) == 4 * p && Pow2(n + 3) == 8 * p && Pow2(n + 4) == 16 * p
  {
  }

  /** The registers after n steps on the block. */
  function After(n: nat): State {
    Steps(Mix, n, IV, EmptyBlock)
  }

  /** Number of the message word, shift and constant of step n. */
  function Row(n: nat): (nat, Amount, Word) {
    (K(n), Shift(n), T(n))
  }

  lemma WordOf(k: nat)
    requires k < 16
    ensures EmptyBlock[k] == if k == 0 then 0x80 else 0
  {
  }

  /** f is the value of the round function, hi and lo are the two parts of the sum that the
      rotation exchanges, and next is the new value of the register. */
  lemma Advance(n: nat, a: Word, b: Word, c: Word, d: Word, f: Word, k: nat, s: Amount, t: Word, hi: int, lo: int, next: Word)
    ensures
      && After(n) == Regs(a, b, c, d) && Aux(RoundOf(n), b, c, d) == f && Row(n) == (k, s, t)
      && Power(s) != 0 && Power(32 - s) != 0 && 0 <= lo < Power(32 - s)
      && (a + f + (if k == 0 then 0x80 else 0) + t) % TWO_32 == Power(32 - s) * hi + lo
      && (Power(s) * lo + hi + b) % TWO_32 == next
      ==> After(n + 1) == Regs(d, next, b, c)
  {
    hide Aux, Power, RoundOf, K, Shift, T, MixWith;
    WordOf(K(n));
    MixBy(f, a, b, if k == 0 then 0x80 else 0, s, t, hi, lo, next);
  }

  lemma MixBy(f: Word, a: Word, b: Word, x: Word, s: Amount, t: Word, hi: int, lo: int, next: Word)
    ensures
      && Power(s) != 0 && Power(32 - s) != 0 && 0 <= lo < Power(32 - s)
      && (a + f + x + t) % TWO_32 == Power(32 - s) * hi + lo
      && (Power(s) * lo + hi + b) % TWO_32 == next
      ==> MixWith(f, a, b, x, s, t) == next
  {
    hide Power, RotateLeft, Pow2;
    if Power(s) != 0 && Power(32 - s) != 0 && 0 <= lo < Power(32 - s) && (a + f + x + t) % TWO_32 == Power(32 - s) * hi + lo {
      PowerIsPow2(s);
      PowerIsPow2(32 - s);
      SumOfFour(a, f, x, t);
      RotateLeftMoves(Add(Add(Add(a, f), x), t), s, hi, lo);
    }
  }

  lemma SumOfFour(a: Word, f: Word, x: Word, t: Word)
    ensures Add(Add(Add(a, f), x), t) == (a + f + x + t) % TWO_32
  {
    AddThenWrap(a + f, x);
    AddThenWrap(a + f + x, t);
  }

  // ---------- The sixty-four steps ----------

  lemma Values0To7()
    ensures Aux(FF, 0xefcdab89, 0x98badcfe, 0x10325476) == 0x98badcfe
    ensures Aux(FF, 0xa5202774, 0xefcdab89, 0x98badcfe) == 0xbd9afb8a
    ensures Aux(FF, 0xf59592dd, 0xa5202774, 0xefcdab89) == 0xaf482b54
    ensures Aux(FF, 0xe7f06b23, 0xf59592dd, 0xa5202774) == 0xe5900655
    ensures Aux(FF, 0x1b163203, 0xe7f06b23, 0xf59592dd) == 0xe791a2df
    ensures Aux(FF, 0x32033344, 0x1b163203, 0xe7f06b23) == 0xd7f27a23
    ensures Aux(FF, 0x2f35d494, 0x32033344, 0x1b163203) == 0x32033207
    ensures Aux(FF, 0xf5b158db, 0x2f35d494, 0x32033344) == 0x27337394
  {
  }

  lemma Rows0To7()
    ensures Row(0) == (0, 7, 0xd76aa478) && Row(1) == (1, 12, 0xe8c7b756)
    ensures Row(2) == (2, 17, 0x242070db) && Row(3) == (3, 22, 0xc1bdceee)
    ensures Row(4) == (4, 7, 0xf57c0faf) && Row(5) == (5, 12, 0x4787c62a)
    ensures Row(6) == (6, 17, 0xa8304613) && Row(7) == (7, 22, 0xfd469501)
  {
  }

  lemma Values8To15()
    ensures Aux(FF, 0x9bc13ce9, 0xf5b158db, 0x2f35d494) == 0xb5b5d8dd
    ensures Aux(FF, 0x3893b991, 0x9bc13ce9, 0xf5b158db) == 0xdda178cb
    ensures Aux(FF, 0xfce4a312, 0x3893b991, 0x9bc13ce9) == 0x3b81bdf9
    ensures Aux(FF, 0xe1ef0576, 0xfce4a312, 0x3893b991) == 0xf8f4b993
    ensures Aux(FF, 0x70768a29, 0xe1ef0576, 0xfce4a312) == 0xece62132
    ensures Aux(FF, 0xf56c7cf1, 0x70768a29, 0xe1ef0576) == 0x70e70927
    ensures Aux(FF, 0x374943a7, 0xf56c7cf1, 0x70768a29) == 0x757ec8a9
    ensures Aux(FF, 0x5aa53f75, 0x374943a7, 0xf56c7cf1) == 0xb74943a5
  {
  }

  lemma Rows8To15()
    ensures Row(8) == (8, 7, 0x698098d8) && Row(9) == (9, 12, 0x8b44f7af)
    ensures Row(10) == (10, 17, 0xffff5bb1) && Row(11) == (11, 22, 0x895cd7be)
    ensures Row(12) == (12, 7, 0x6b901122) && Row(13) == (13, 12, 0xfd987193)
    ensures Row(14) == (14, 17, 0xa679438e) && Row(15) == (15, 22, 0x49b40821)
  {
  }

  lemma Values16To23()
    ensures Aux(GG, 0xd6819c6a, 0x5aa53f75, 0x374943a7) == 0x5ea53c72
    ensures Aux(GG, 0x1c7d7513, 0xd6819c6a, 0x5aa53f75) == 0x9c25b51b
    ensures Aux(GG, 0x7bd57a3a, 0x1c7d7513, 0xd6819c6a) == 0x5afd793b
    ensures Aux(GG, 0xc095f13a, 0x7bd57a3a, 0x1c7d7513) == 0x63957b3a
    ensures Aux(GG, 0xbd782e17, 0xc095f13a, 0x7bd57a3a) == 0xb950ab12
    ensures Aux(GG, 0x3d1e3e6c, 0xbd782e17, 0xc095f13a) == 0x3d7c3e2d
    ensures Aux(GG, 0x68b7b3e3, 0x3d1e3e6c, 0xbd782e17) == 0x2836326b
    ensures Aux(GG, 0xeb41643e, 0x68b7b3e3, 0x3d1e3e6c) == 0x69a1a5af
  {
  }

  lemma Rows16To23()
    ensures Row(16) == (1, 5, 0xf61e2562) && Row(17) == (6, 9, 0xc040b340)
    ensures Row(18) == (11, 14, 0x265e5a51) && Row(19) == (0, 20, 0xe9b6c7aa)
    ensures Row(20) == (5, 5, 0xd62f105d) && Row(21) == (10, 9, 0x02441453)
    ensures Row(22) == (15, 14, 0xd8a1e681) && Row(23) == (4, 20, 0xe7d3fbc8)
  {
  }

  lemma Values24To31()
    ensures Aux(GG, 0xe422531a, 0xeb41643e, 0x68b7b3e3) == 0xe362571e
    ensures Aux(GG, 0x306ec122, 0xe422531a, 0xeb41643e) == 0x24625322
    ensures Aux(GG, 0xd28c77c2, 0x306ec122, 0xe422531a) == 0xd04cd322
    ensures Aux(GG, 0xa3c663da, 0xd28c77c2, 0x306ec122) == 0xe2c677c2
    ensures Aux(GG, 0xa0572807, 0xa3c663da, 0xd28c77c2) == 0xa146201a
    ensures Aux(GG, 0x13707036, 0xa0572807, 0xa3c663da) == 0x03516817
    ensures Aux(GG, 0xae7813db, 0x13707036, 0xa0572807) == 0xb3705033
    ensures Aux(GG, 0x1c31c384, 0xae7813db, 0x13707036) == 0xbc3843cd
  {
  }

  lemma Rows24To31()
    ensures Row(24) == (9, 5, 0x21e1cde6) && Row(25) == (14, 9, 0xc33707d6)
    ensures Row(26) == (3, 14, 0xf4d50d87) && Row(27) == (8, 20, 0x455a14ed)
    ensures Row(28) == (13, 5, 0xa9e3e905) && Row(29) == (2, 9, 0xfcefa3f8)
    ensures Row(30) == (7, 14, 0x676f02d9) && Row(31) == (12, 20, 0x8d2a4c8a)
  {
  }

  lemma Values32To39()
    ensures Aux(HH, 0xa2205f1f, 0x1c31c384, 0xae7813db) == 0x10698f40
    ensures Aux(HH, 0xdf63eaa1, 0xa2205f1f, 0x1c31c384) == 0x6172763a
    ensures Aux(HH, 0xc3689f5b, 0xdf63eaa1, 0xa2205f1f) == 0xbe2b2ae5
    ensures Aux(HH, 0x12f3e755, 0xc3689f5b, 0xdf63eaa1) == 0x0ef892af
    ensures Aux(HH, 0x004b6669, 0x12f3e755, 0xc3689f5b) == 0xd1d01e67
    ensures Aux(HH, 0x5f7a9b2e, 0x004b6669, 0x12f3e755) == 0x4dc21a12
    ensures Aux(HH, 0xabc34e16, 0x5f7a9b2e, 0x004b6669) == 0xf4f2b351
    ensures Aux(HH, 0x91ca4cb7, 0xabc34e16, 0x5f7a9b2e) == 0x6573998f
  {
  }

  lemma Rows32To39()
    ensures Row(32) == (5, 4, 0xfffa3942) && Row(33) == (8, 11, 0x8771f681)
    ensures Row(34) == (11, 16, 0x6d9d6122) && Row(35) == (14, 23, 0xfde5380c)
    ensures Row(36) == (1, 4, 0xa4beea44) && Row(37) == (4, 11, 0x4bdecfa9)
    ensures Row(38) == (7, 16, 0xf6bb4b60) && Row(39) == (10, 23, 0xbebfbc70)
  {
  }

  lemma Values40To47()
    ensures Aux(HH, 0xc5dc8c15, 0x91ca4cb7, 0xabc34e16) == 0xffd58eb4
    ensures Aux(HH, 0x4497169d, 0xc5dc8c15, 0x91ca4cb7) == 0x1081d63f
    ensures Aux(HH, 0x76fd93d4, 0x4497169d, 0xc5dc8c15) == 0xf7b6095c
    ensures Aux(HH, 0xfd95f243, 0x76fd93d4, 0x4497169d) == 0xcfff770a
    ensures Aux(HH, 0x0fe32453, 0xfd95f243, 0x76fd93d4) == 0x848b45c4
    ensures Aux(HH, 0x3f55edfd, 0x0fe32453, 0xfd95f243) == 0xcd233bed
    ensures Aux(HH, 0x22a31f54, 0x3f55edfd, 0x0fe32453) == 0x1215d6fa
    ensures Aux(HH, 0x68d84ea2, 0x22a31f54, 0x3f55edfd) == 0x752ebc0b
  {
  }

  lemma Rows40To47()
    ensures Row(40) == (13, 4, 0x289b7ec6) && Row(41) == (0, 11, 0xeaa127fa)
    ensures Row(42) == (3, 16, 0xd4ef3085) && Row(43) == (6, 23, 0x04881d05)
    ensures Row(44) == (9, 4, 0xd9d4d039) && Row(45) == (12, 11, 0xe6db99e5)
    ensures Row(46) == (15, 16, 0x1fa27cf8) && Row(47) == (2, 23, 0xc4ac5665)
  {
  }

  lemma Values48To55()
    ensures Aux(II, 0xca7d2dbd, 0x68d84ea2, 0x22a31f54) == 0xb7a5a31d
    ensures Aux(II, 0x93aa2577, 0xca7d2dbd, 0x68d84ea2) == 0x5dd298c2
    ensures Aux(II, 0x1688dc85, 0x93aa2577, 0xca7d2dbd) == 0xa420fbb0
    ensures Aux(II, 0xcd85b8cb, 0x1688dc85, 0x93aa2577) == 0xfb5d264e
    ensures Aux(II, 0x561e0689, 0xcd85b8cb, 0x1688dc85) == 0x32fa9f30
    ensures Aux(II, 0x5625a114, 0x561e0689, 0xcd85b8cb) == 0x2061e1bd
    ensures Aux(II, 0x3450f42b, 0x5625a114, 0x561e0689) == 0xebd45c6b
    ensures Aux(II, 0x392ad0d0, 0x3450f42b, 0x5625a114) == 0x8daa2ad0
  {
  }

  lemma Rows48To55()
    ensures Row(48) == (0, 6, 0xf4292244) && Row(49) == (7, 10, 0x432aff97)
    ensures Row(50) == (14, 15, 0xab9423a7) && Row(51) == (5, 21, 0xfc93a039)
    ensures Row(52) == (12, 6, 0x655b59c3) && Row(53) == (3, 10, 0x8f0ccc92)
    ensures Row(54) == (10, 15, 0xffeff47d) && Row(55) == (1, 21, 0x85845dd1)
  {
  }

  lemma Values56To63()
    ensures Aux(II, 0x1e77fa61, 0x392ad0d0, 0x3450f42b) == 0xe6d52b25
    ensures Aux(II, 0x474a9c8c, 0x1e77fa61, 0x392ad0d0) == 0xd9a845ce
    ensures Aux(II, 0xdfce00bc, 0x474a9c8c, 0x1e77fa61) == 0xb8849932
    ensures Aux(II, 0x36594b14, 0xdfce00bc, 0x474a9c8c) == 0x61336bcb
    ensures Aux(II, 0x30130182, 0x36594b14, 0xdfce00bc) == 0x066ab4d7
    ensures Aux(II, 0x7246fad3, 0x30130182, 0x36594b14) == 0xcbf5ff79
    ensures Aux(II, 0x6e10a476, 0x7246fad3, 0x30130182) == 0x9dba04ac
    ensures Aux(II, 0xff4ea3eb, 0x6e10a476, 0x7246fad3) == 0x91ef0399
  {
  }

  lemma Rows56To63()
    ensures Row(56) == (8, 6, 0x6fa87e4f) && Row(57) == (15, 10, 0xfe2ce6e0)
    ensures Row(58) == (6, 15, 0xa3014314) && Row(59) == (13, 21, 0x4e0811a1)
    ensures Row(60) == (4, 6, 0xf7537e82) && Row(61) == (11, 10, 0xbd3af235)
    ensures Row(62) == (2, 15, 0x2ad7d2bb) && Row(63) == (9, 21, 0xeb86d391)
  {
  }

  lemma Steps0To7()
    ensures After(0) == Regs(0x67452301, 0xefcdab89, 0x98badcfe, 0x10325476) ==>
            After(8) == Regs(0x32033344, 0x9bc13ce9, 0xf5b158db, 0x2f35d494)
  {
    hide After, Aux, Row;
    Values0To7();
    Rows0To7();
    Advance(0, 0x67452301, 0xefcdab89, 0x98badcfe, 0x10325476, 0x98badcfe, 0, 7, 0xd76aa478, 0x6b, 0x16aa4f7, 0xa5202774);
    Advance(1, 0x10325476, 0xa5202774, 0xefcdab89, 0x98badcfe, 0xbd9afb8a, 1, 12, 0xe8c7b756, 0xb69, 0x50756, 0xf59592dd);
    Advance(2, 0x98badcfe, 0xf59592dd, 0xa5202774, 0xefcdab89, 0xaf482b54, 2, 17, 0x242070db, 0xd846, 0x792d, 0xe7f06b23);
    Advance(3, 0xefcdab89, 0xe7f06b23, 0xf59592dd, 0xa5202774, 0xe5900655, 3, 22, 0xc1bdceee, 0x25c6e0, 0xcc, 0x1b163203);
    Advance(4, 0xa5202774, 0x1b163203, 0xe7f06b23, 0xf59592dd, 0xe791a2df, 4, 7, 0xf57c0faf, 0x41, 0x2dda02, 0x32033344);
    Advance(5, 0xf59592dd, 0x32033344, 0x1b163203, 0xe7f06b23, 0xd7f27a23, 5, 12, 0x4787c62a, 0x150, 0xfd32a, 0x2f35d494);
    Advance(6, 0xe7f06b23, 0x2f35d494, 0x32033344, 0x1b163203, 0x32033207, 6, 17, 0xa8304613, 0x18447, 0x633d, 0xf5b158db);
    Advance(7, 0x1b163203, 0xf5b158db, 0x2f35d494, 0x32033344, 0x27337394, 7, 22, 0xfd469501, 0xfe40e, 0x298, 0x9bc13ce9);
  }

  lemma Steps8To15()
    ensures After(8) == Regs(0x32033344, 0x9bc13ce9, 0xf5b158db, 0x2f35d494) ==>
            After(16) == Regs(0xf56c7cf1, 0xd6819c6a, 0x5aa53f75, 0x374943a7)
  {
    hide After, Aux, Row;
    Values8To15();
    Rows8To15();
    Advance(8, 0x32033344, 0x9bc13ce9, 0xf5b158db, 0x2f35d494, 0xb5b5d8dd, 8, 7, 0x698098d8, 0x28, 0x139a4f9, 0x3893b991);
    Advance(9, 0x2f35d494, 0x3893b991, 0x9bc13ce9, 0xf5b158db, 0xdda178cb, 9, 12, 0x8b44f7af, 0x981, 0xc450e, 0xfce4a312);
    Advance(10, 0xf5b158db, 0xfce4a312, 0x3893b991, 0x9bc13ce9, 0x3b81bdf9, 10, 17, 0xffff5bb1, 0x6264, 0x7285, 0xe1ef0576);
    Advance(11, 0x9bc13ce9, 0xe1ef0576, 0xfce4a312, 0x3893b991, 0xf8f4b993, 11, 22, 0x895cd7be, 0x784b3, 0x23a, 0x70768a29);
    Advance(12, 0x3893b991, 0x70768a29, 0xe1ef0576, 0xfce4a312, 0xece62132, 12, 7, 0x6b901122, 0x48, 0x109ebe5, 0xf56c7cf1);
    Advance(13, 0xfce4a312, 0xf56c7cf1, 0x70768a29, 0xe1ef0576, 0x70e70927, 13, 12, 0xfd987193, 0x6b6, 0x41dcc, 0x374943a7);
    Advance(14, 0xe1ef0576, 0x374943a7, 0xf56c7cf1, 0x70768a29, 0x757ec8a9, 14, 17, 0xa679438e, 0x1fbce, 0x11ad, 0x5aa53f75);
    Advance(15, 0x70768a29, 0x5aa53f75, 0x374943a7, 0xf56c7cf1, 0xb74943a5, 15, 22, 0x49b40821, 0x1c5cf5, 0x1ef, 0xd6819c6a);
  }

  lemma Steps16To23()
    ensures After(16) == Regs(0xf56c7cf1, 0xd6819c6a, 0x5aa53f75, 0x374943a7) ==>
            After(24) == Regs(0x3d1e3e6c, 0xe422531a, 0xeb41643e, 0x68b7b3e3)
  {
    hide After, Aux, Row;
    Values16To23();
    Rows16To23();
    Advance(16, 0xf56c7cf1, 0xd6819c6a, 0x5aa53f75, 0x374943a7, 0x5ea53c72, 1, 5, 0xf61e2562, 0x9, 0x22fdec5, 0x1c7d7513);
    Advance(17, 0x374943a7, 0x1c7d7513, 0xd6819c6a, 0x5aa53f75, 0x9c25b51b, 6, 9, 0xc040b340, 0x127, 0x2fac02, 0x7bd57a3a);
    Advance(18, 0x5aa53f75, 0x7bd57a3a, 0x1c7d7513, 0xd6819c6a, 0x5afd793b, 11, 14, 0x265e5a51, 0x3700, 0x11301, 0xc095f13a);
    Advance(19, 0xd6819c6a, 0xc095f13a, 0x7bd57a3a, 0x1c7d7513, 0x63957b3a, 0, 20, 0xe9b6c7aa, 0x23cdd, 0xfce, 0xbd782e17);
    Advance(20, 0x1c7d7513, 0xbd782e17, 0xc095f13a, 0x7bd57a3a, 0xb950ab12, 5, 5, 0xd62f105d, 0x15, 0x3fd3082, 0x3d1e3e6c);
    Advance(21, 0x7bd57a3a, 0x3d1e3e6c, 0xbd782e17, 0xc095f13a, 0x3d7c3e2d, 10, 9, 0x02441453, 0x177, 0x15ccba, 0x68b7b3e3);
    Advance(22, 0xc095f13a, 0x68b7b3e3, 0x3d1e3e6c, 0xbd782e17, 0x2836326b, 15, 14, 0xd8a1e681, 0x305b, 0x20a26, 0xeb41643e);
    Advance(23, 0xbd782e17, 0xeb41643e, 0x68b7b3e3, 0x3d1e3e6c, 0x69a1a5af, 4, 20, 0xe7d3fbc8, 0xeedc, 0xf8e, 0xe422531a);
  }

  lemma Steps24To31()
    ensures After(24) == Regs(0x3d1e3e6c, 0xe422531a, 0xeb41643e, 0x68b7b3e3) ==>
            After(32) == Regs(0x13707036, 0xa2205f1f, 0x1c31c384, 0xae7813db)
  {
    hide After, Aux, Row;
    Values24To31();
    Rows24To31();
    Advance(24, 0x3d1e3e6c, 0xe422531a, 0xeb41643e, 0x68b7b3e3, 0xe362571e, 9, 5, 0x21e1cde6, 0x8, 0x2626370, 0x306ec122);
    Advance(25, 0x68b7b3e3, 0x306ec122, 0xe422531a, 0xeb41643e, 0x24625322, 14, 9, 0xc33707d6, 0xa0, 0x510edb, 0xd28c77c2);
    Advance(26, 0xeb41643e, 0xd28c77c2, 0x306ec122, 0xe422531a, 0xd04cd322, 3, 14, 0xf4d50d87, 0x2c18, 0x344e7, 0xa3c663da);
    Advance(27, 0xe422531a, 0xa3c663da, 0xd28c77c2, 0x306ec122, 0xe2c677c2, 8, 20, 0x455a14ed, 0xc42d, 0xfc9, 0xa0572807);
    Advance(28, 0x306ec122, 0xa0572807, 0xa3c663da, 0xd28c77c2, 0xa146201a, 13, 5, 0xa9e3e905, 0xf, 0x398ca41, 0x13707036);
    Advance(29, 0xd28c77c2, 0x13707036, 0xa0572807, 0xa3c663da, 0x03516817, 2, 9, 0xfcefa3f8, 0x1a5, 0x4d83d1, 0xae7813db);
    Advance(30, 0xa3c663da, 0xae7813db, 0x13707036, 0xa0572807, 0xb3705033, 7, 14, 0x676f02d9, 0x2fa9, 0x1b6e6, 0x1c31c384);
    Advance(31, 0xa0572807, 0x1c31c384, 0xae7813db, 0x13707036, 0xbc3843cd, 12, 20, 0x8d2a4c8a, 0xe9b9b, 0x85e, 0xa2205f1f);
  }

  lemma Steps32To39()
    ensures After(32) == Regs(0x13707036, 0xa2205f1f, 0x1c31c384, 0xae7813db) ==>
            After(40) == Regs(0x5f7a9b2e, 0xc5dc8c15, 0x91ca4cb7, 0xabc34e16)
  {
    hide After, Aux, Row;
    Values32To39();
    Rows32To39();
    Advance(32, 0x13707036, 0xa2205f1f, 0x1c31c384, 0xae7813db, 0x10698f40, 5, 4, 0xfffa3942, 0x2, 0x3d438b8, 0xdf63eaa1);
    Advance(33, 0xae7813db, 0xdf63eaa1, 0xa2205f1f, 0x1c31c384, 0x6172763a, 8, 11, 0x8771f681, 0x4ba, 0x1c8096, 0xc3689f5b);
    Advance(34, 0x1c31c384, 0xc3689f5b, 0xdf63eaa1, 0xa2205f1f, 0xbe2b2ae5, 11, 16, 0x6d9d6122, 0x47fa, 0x4f8b, 0x12f3e755);
    Advance(35, 0xa2205f1f, 0x12f3e755, 0xc3689f5b, 0xdf63eaa1, 0x0ef892af, 14, 23, 0xfde5380c, 0x577f14, 0x1da, 0x004b6669);
    Advance(36, 0xdf63eaa1, 0x004b6669, 0x12f3e755, 0xc3689f5b, 0xd1d01e67, 1, 4, 0xa4beea44, 0x5, 0x5f2f34c, 0x5f7a9b2e);
    Advance(37, 0xc3689f5b, 0x5f7a9b2e, 0x004b6669, 0x12f3e755, 0x4dc21a12, 4, 11, 0x4bdecfa9, 0x2e8, 0x98916, 0xabc34e16);
    Advance(38, 0x12f3e755, 0xabc34e16, 0x5f7a9b2e, 0x004b6669, 0xf4f2b351, 7, 16, 0xf6bb4b60, 0xfea1, 0xe606, 0x91ca4cb7);
    Advance(39, 0x004b6669, 0x91ca4cb7, 0xabc34e16, 0x5f7a9b2e, 0x6573998f, 10, 23, 0xbebfbc70, 0x123f5e, 0x68, 0xc5dc8c15);
  }

  lemma Steps40To47()
    ensures After(40) == Regs(0x5f7a9b2e, 0xc5dc8c15, 0x91ca4cb7, 0xabc34e16) ==>
            After(48) == Regs(0x3f55edfd, 0xca7d2dbd, 0x68d84ea2, 0x22a31f54)
  {
    hide After, Aux, Row;
    Values40To47();
    Rows40To47();
    Advance(40, 0x5f7a9b2e, 0xc5dc8c15, 0x91ca4cb7, 0xabc34e16, 0xffd58eb4, 13, 4, 0x289b7ec6, 0x8, 0x7eba8a8, 0x4497169d);
    Advance(41, 0xabc34e16, 0x4497169d, 0xc5dc8c15, 0x91ca4cb7, 0x1081d63f, 0, 11, 0xeaa127fa, 0x537, 0x64ccf, 0x76fd93d4);
    Advance(42, 0x91ca4cb7, 0x76fd93d4, 0x4497169d, 0xc5dc8c15, 0xf7b6095c, 3, 16, 0xd4ef3085, 0x5e6f, 0x8698, 0xfd95f243);
    Advance(43, 0xc5dc8c15, 0xfd95f243, 0x76fd93d4, 0x4497169d, 0xcfff770a, 6, 23, 0x04881d05, 0x4d3210, 0x24, 0x0fe32453);
    Advance(44, 0x4497169d, 0x0fe32453, 0xfd95f243, 0x76fd93d4, 0x848b45c4, 9, 4, 0xd9d4d039, 0xa, 0x2f72c9a, 0x3f55edfd);
    Advance(45, 0x76fd93d4, 0x3f55edfd, 0x0fe32453, 0xfd95f243, 0xcd233bed, 12, 11, 0xe6db99e5, 0x157, 0x1c69a6, 0x22a31f54);
    Advance(46, 0xfd95f243, 0x22a31f54, 0x3f55edfd, 0x0fe32453, 0x1215d6fa, 15, 16, 0x1fa27cf8, 0x2f4e, 0x4635, 0x68d84ea2);
    Advance(47, 0x0fe32453, 0x68d84ea2, 0x22a31f54, 0x3f55edfd, 0x752ebc0b, 2, 23, 0xc4ac5665, 0x24df1b, 0xc3, 0xca7d2dbd);
  }

  lemma Steps48To55()
    ensures After(48) == Regs(0x3f55edfd, 0xca7d2dbd, 0x68d84ea2, 0x22a31f54) ==>
            After(56) == Regs(0x5625a114, 0x1e77fa61, 0x392ad0d0, 0x3450f42b)
  {
    hide After, Aux, Row;
    Values48To55();
    Rows48To55();
    Advance(48, 0x3f55edfd, 0xca7d2dbd, 0x68d84ea2, 0x22a31f54, 0xb7a5a31d, 0, 6, 0xf4292244, 0x3a, 0x324b3de, 0x93aa2577);
    Advance(49, 0x22a31f54, 0x93aa2577, 0xca7d2dbd, 0x68d84ea2, 0x5dd298c2, 7, 10, 0x432aff97, 0x30e, 0x20b7ad, 0x1688dc85);
    Advance(50, 0x68d84ea2, 0x1688dc85, 0x93aa2577, 0xca7d2dbd, 0xa420fbb0, 14, 15, 0xab9423a7, 0x5c46, 0x16df9, 0xcd85b8cb);
    Advance(51, 0xca7d2dbd, 0xcd85b8cb, 0x1688dc85, 0x93aa2577, 0xfb5d264e, 5, 21, 0xfc93a039, 0x184dbe, 0x444, 0x561e0689);
    Advance(52, 0x93aa2577, 0x561e0689, 0xcd85b8cb, 0x1688dc85, 0x32fa9f30, 12, 6, 0x655b59c3, 0xb, 0x1e6a, 0x5625a114);
    Advance(53, 0x1688dc85, 0x5625a114, 0x561e0689, 0xcd85b8cb, 0x2061e1bd, 3, 10, 0x8f0ccc92, 0x317, 0x378ad4, 0x3450f42b);
    Advance(54, 0xcd85b8cb, 0x3450f42b, 0x5625a114, 0x561e0689, 0xebd45c6b, 10, 15, 0xffeff47d, 0x5ca5, 0x9b3, 0x392ad0d0);
    Advance(55, 0x561e0689, 0x392ad0d0, 0x3450f42b, 0x5625a114, 0x8daa2ad0, 1, 21, 0x85845dd1, 0xd2991, 0x72a, 0x1e77fa61);
  }

  lemma Steps56To63()
    ensures After(56) == Regs(0x5625a114, 0x1e77fa61, 0x392ad0d0, 0x3450f42b) ==>
            After(64) == Regs(0x7246fad3, 0x14e45506, 0xff4ea3eb, 0x6e10a476)
  {
    hide After, Aux, Row;
    Values56To63();
    Rows56To63();
    Advance(56, 0x5625a114, 0x1e77fa61, 0x392ad0d0, 0x3450f42b, 0xe6d52b25, 8, 6, 0x6fa87e4f, 0x2b, 0xa34a88, 0x474a9c8c);
    Advance(57, 0x3450f42b, 0x474a9c8c, 0x1e77fa61, 0x392ad0d0, 0xd9a845ce, 15, 10, 0xfe2ce6e0, 0x30, 0x2620d9, 0xdfce00bc);
    Advance(58, 0x392ad0d0, 0xdfce00bc, 0x474a9c8c, 0x1e77fa61, 0xb8849932, 6, 15, 0xa3014314, 0x4a58, 0xad16, 0x36594b14);
    Advance(59, 0x1e77fa61, 0x36594b14, 0xdfce00bc, 0x474a9c8c, 0x61336bcb, 13, 21, 0x4e0811a1, 0x19b66e, 0x7cd, 0x30130182);
    Advance(60, 0x474a9c8c, 0x30130182, 0x36594b14, 0xdfce00bc, 0x066ab4d7, 4, 6, 0xf7537e82, 0x11, 0x108cfe5, 0x7246fad3);
    Advance(61, 0xdfce00bc, 0x7246fad3, 0x30130182, 0x36594b14, 0xcbf5ff79, 11, 10, 0xbd3af235, 0x1a3, 0x3ef26a, 0x6e10a476);
    Advance(62, 0x36594b14, 0x6e10a476, 0x7246fad3, 0x30130182, 0x9dba04ac, 2, 15, 0x2ad7d2bb, 0x7f75, 0x1227b, 0xff4ea3eb);
    Advance(63, 0x30130182, 0xff4ea3eb, 0x6e10a476, 0x7246fad3, 0x91ef0399, 9, 21, 0xeb86d391, 0x15b11b, 0xac, 0x14e45506);
  }

  lemma AllSteps()
    ensures After(64) == Regs(0x7246fad3, 0x14e45506, 0xff4ea3eb, 0x6e10a476)
  {
    assert After(0) == IV by { NoSteps(); }
    hide After;
    Steps0To7();
    Steps8To15();
    Steps16To23();
    Steps24To31();
    Steps32To39();
    Steps40To47();
    Steps48To55();
    Steps56To63();
  }

  lemma NoSteps()
    ensures After(0) == IV
  {
  }

  // ---------- Padding and digest ----------

  lemma NoLength()
    ensures LengthField(0) == [0, 0, 0, 0, 0, 0, 0, 0]
  {
    hide EncodeWords, EncodeWord;
    var x: seq<Word> := [0, 0];
    assert LengthField(0) == EncodeWords(x);
    EncodeWordsAt(x, 0);
    EncodeWordsAt(x, 1);
    ZeroWord();
    var b := EncodeWords(x);
    assert b == b[0..4] + b[4..8];
  }

  lemma ZeroWord()
    ensures EncodeWord(0) == [0, 0, 0, 0]
  {
  }

  lemma PadLengthOfNothing()
    ensures ZeroCount(0) == 55
  {
  }

  lemma PadBytes(i: nat)
    ensures |Pad([])| == 64 && (i < 64 ==> Pad([])[i] == if i == 0 then 0x80 else 0)
  {
    hide LengthField, Zeros, ZeroCount;
    NoLength();
    PadLengthOfNothing();
    var z, l := Zeros(55), LengthField(0);
    var p: seq<Byte> := [0x80] + z + l;
    assert Pad([]) == p;
    if i < 64 { assert p[i] == if i == 0 then 0x80 else if i < 56 then z[i - 1] else l[i - 56]; }
  }

  lemma PadWord(p: seq<Byte>, i: nat)
    requires |p| == 64 && i < 16
    requires p[4 * i] == (if i == 0 then 0x80 else 0) && p[4 * i + 1] == 0 && p[4 * i + 2] == 0 && p[4 * i + 3] == 0
    ensures DecodeWords(p)[i] == EmptyBlock[i]
  {
    DecodeWordsAt(p, i);
    hide DecodeWords;
    WordOf(i);
  }

  lemma BlockLength()
    ensures |EmptyBlock| == 16
  {
  }

  lemma PadOfNothing()
    ensures |Pad([])| == 64 && DecodeWords(Pad([])) == EmptyBlock
  {
    hide DecodeWords, Pad, EmptyBlock;
    BlockLength();
    PadBytes(0);
    forall i | 0 <= i < 16 ensures DecodeWords(Pad([]))[i] == EmptyBlock[i] {
      PadBytes(4 * i);
      PadBytes(4 * i + 1);
      PadBytes(4 * i + 2);
      PadBytes(4 * i + 3);
      PadWord(Pad([]), i);
    }
  }

  /** The initial registers hold the bytes 01 23 45 67, 89 ab cd ef, fe dc ba 98 and 76 54 32 10. */
  lemma InitialBytes()
    ensures EncodeWord(IV.a) == [0x01, 0x23, 0x45, 0x67] && EncodeWord(IV.b) == [0x89, 0xab, 0xcd, 0xef]
    ensures EncodeWord(IV.c) == [0xfe, 0xdc, 0xba, 0x98] && EncodeWord(IV.d) == [0x76, 0x54, 0x32, 0x10]
  {
  }

  /** MD5 of the empty message is d41d8cd98f00b204e9800998ecf8427e. */
  lemma DigestOfNothing()
    ensures Md5Sum([]) == [0xd4, 0x1d, 0x8c, 0xd9, 0x8f, 0x00, 0xb2, 0x04, 0xe9, 0x80, 0x09, 0x98, 0xec, 0xf8, 0x42, 0x7e]
  {
    hide EncodeWords, Steps, Pad, DecodeWords;
    PadOfNothing();
    AllSteps();
    var p := Pad([]);
    FoldOne(p);
    DigestBytes();
  }

  lemma FoldOne(p: Block)
    ensures FoldBlocks(Compress, IV, p) == Compress(IV, p)
  {
    hide Compress;
    FoldOneMore(Compress, IV, p, 0);
    assert p[..0] == [] && p[0..64] == p && p[..64] == p;
  }

  lemma DigestBytes()
    ensures EncodeWords([0xd98c1dd4, 0x04b2008f, 0x980980e9, 0x7e42f8ec]) ==
            [0xd4, 0x1d, 0x8c, 0xd9, 0x8f, 0x00, 0xb2, 0x04, 0xe9, 0x80, 0x09, 0x98, 0xec, 0xf8, 0x42, 0x7e]
  {
    hide EncodeWords, EncodeWord;
    var x: seq<Word> := [0xd98c1dd4, 0x04b2008f, 0x980980e9, 0x7e42f8ec];
    DigestWords();
    EncodeWordsAt(x, 0);
    EncodeWordsAt(x, 1);
    EncodeWordsAt(x, 2);
    EncodeWordsAt(x, 3);
    var b := EncodeWords(x);
    assert b == b[0..4] + b[4..8] + b[8..12] + b[12..16];
  }

  lemma DigestWords()
    ensures EncodeWord(0xd98c1dd4) == [0xd4, 0x1d, 0x8c, 0xd9]
    ensures EncodeWord(0x04b2008f) == [0x8f, 0x00, 0xb2, 0x04]
    ensures EncodeWord(0x980980e9) == [0xe9, 0x80, 0x09, 0x98]
    ensures EncodeWord(0x7e42f8ec) == [0xec, 0xf8, 0x42, 0x7e]
  {
  }
}
