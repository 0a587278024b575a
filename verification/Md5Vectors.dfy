/** Known answers of MD5: appendix A.5 of RFC 1321. */
module Md5Vectors {
  import opened Basics
  import opened Md5Spec

  function Literal(a: bv32, b: bv32, c: bv32, d: bv32): Words {
    Words(Word(a), Word(b), Word(c), Word(d))
  }

  /** A block of sixteen words that are zero but for the first and the fifteenth. */
  ghost predicate Holds(x: seq<Word>, first: bv32, length: bv32) {
    && |x| == 16 && x[0] == Word(first) && x[14] == Word(length)
    && forall k :: 0 < k < 16 && k != 14 ==> x[k] == Word(0)
  }

  /** One more step, which gives the word `e`. */
  lemma Tick(x: seq<Word>, n: nat, w: Words, p: Plan, e: bv32) returns (w': Words)
    requires |x| == 16 && n < 64 && Steps(INITIAL, x, n) == w && Schedule(n) == p
    requires p.k < 16 && 0 < p.s < 32
    requires Mix(w.a, w.b, Mixing(p.round, w.b, w.c, w.d), x[p.k], p.s, p.t) == Word(e)
    ensures w' == Words(w.d, Word(e), w.b, w.c) && Steps(INITIAL, x, n + 1) == w'
  {
    w' := Words(w.d, Word(e), w.b, w.c);
  }

  // ----- the schedule

  lemma Plan1To4()
    ensures Schedule(0) == Plan(1, 0, 7, 0xd76aa478)
    ensures Schedule(1) == Plan(1, 1, 12, 0xe8c7b756)
    ensures Schedule(2) == Plan(1, 2, 17, 0x242070db)
    ensures Schedule(3) == Plan(1, 3, 22, 0xc1bdceee)
  {}

  lemma Plan5To8()
    ensures Schedule(4) == Plan(1, 4, 7, 0xf57c0faf)
    ensures Schedule(5) == Plan(1, 5, 12, 0x4787c62a)
    ensures Schedule(6) == Plan(1, 6, 17, 0xa8304613)
    ensures Schedule(7) == Plan(1, 7, 22, 0xfd469501)
  {}

  lemma Plan9To12()
    ensures Schedule(8) == Plan(1, 8, 7, 0x698098d8)
    ensures Schedule(9) == Plan(1, 9, 12, 0x8b44f7af)
    ensures Schedule(10) == Plan(1, 10, 17, 0xffff5bb1)
    ensures Schedule(11) == Plan(1, 11, 22, 0x895cd7be)
  {}

  lemma Plan13To16()
    ensures Schedule(12) == Plan(1, 12, 7, 0x6b901122)
    ensures Schedule(13) == Plan(1, 13, 12, 0xfd987193)
    ensures Schedule(14) == Plan(1, 14, 17, 0xa679438e)
    ensures Schedule(15) == Plan(1, 15, 22, 0x49b40821)
  {}

  lemma Plan17To20()
    ensures Schedule(16) == Plan(2, 1, 5, 0xf61e2562)
    ensures Schedule(17) == Plan(2, 6, 9, 0xc040b340)
    ensures Schedule(18) == Plan(2, 11, 14, 0x265e5a51)
    ensures Schedule(19) == Plan(2, 0, 20, 0xe9b6c7aa)
  {}

  lemma Plan21To24()
    ensures Schedule(20) == Plan(2, 5, 5, 0xd62f105d)
    ensures Schedule(21) == Plan(2, 10, 9, 0x02441453)
    ensures Schedule(22) == Plan(2, 15, 14, 0xd8a1e681)
    ensures Schedule(23) == Plan(2, 4, 20, 0xe7d3fbc8)
  {}

  lemma Plan25To28()
    ensures Schedule(24) == Plan(2, 9, 5, 0x21e1cde6)
    ensures Schedule(25) == Plan(2, 14, 9, 0xc33707d6)
    ensures Schedule(26) == Plan(2, 3, 14, 0xf4d50d87)
    ensures Schedule(27) == Plan(2, 8, 20, 0x455a14ed)
  {}

  lemma Plan29To32()
    ensures Schedule(28) == Plan(2, 13, 5, 0xa9e3e905)
    ensures Schedule(29) == Plan(2, 2, 9, 0xfcefa3f8)
    ensures Schedule(30) == Plan(2, 7, 14, 0x676f02d9)
    ensures Schedule(31) == Plan(2, 12, 20, 0x8d2a4c8a)
  {}

  lemma Plan33To36()
    ensures Schedule(32) == Plan(3, 5, 4, 0xfffa3942)
    ensures Schedule(33) == Plan(3, 8, 11, 0x8771f681)
    ensures Schedule(34) == Plan(3, 11, 16, 0x6d9d6122)
    ensures Schedule(35) == Plan(3, 14, 23, 0xfde5380c)
  {}

  lemma Plan37To40()
    ensures Schedule(36) == Plan(3, 1, 4, 0xa4beea44)
    ensures Schedule(37) == Plan(3, 4, 11, 0x4bdecfa9)
    ensures Schedule(38) == Plan(3, 7, 16, 0xf6bb4b60)
    ensures Schedule(39) == Plan(3, 10, 23, 0xbebfbc70)
  {}

  lemma Plan41To44()
    ensures Schedule(40) == Plan(3, 13, 4, 0x289b7ec6)
    ensures Schedule(41) == Plan(3, 0, 11, 0xeaa127fa)
    ensures Schedule(42) == Plan(3, 3, 16, 0xd4ef3085)
    ensures Schedule(43) == Plan(3, 6, 23, 0x04881d05)
  {}

  lemma Plan45To48()
    ensures Schedule(44) == Plan(3, 9, 4, 0xd9d4d039)
    ensures Schedule(45) == Plan(3, 12, 11, 0xe6db99e5)
    ensures Schedule(46) == Plan(3, 15, 16, 0x1fa27cf8)
    ensures Schedule(47) == Plan(3, 2, 23, 0xc4ac5665)
  {}

  lemma Plan49To52()
    ensures Schedule(48) == Plan(4, 0, 6, 0xf4292244)
    ensures Schedule(49) == Plan(4, 7, 10, 0x432aff97)
    ensures Schedule(50) == Plan(4, 14, 15, 0xab9423a7)
    ensures Schedule(51) == Plan(4, 5, 21, 0xfc93a039)
  {}

  lemma Plan53To56()
    ensures Schedule(52) == Plan(4, 12, 6, 0x655b59c3)
    ensures Schedule(53) == Plan(4, 3, 10, 0x8f0ccc92)
    ensures Schedule(54) == Plan(4, 10, 15, 0xffeff47d)
    ensures Schedule(55) == Plan(4, 1, 21, 0x85845dd1)
  {}

  lemma Plan57To60()
    ensures Schedule(56) == Plan(4, 8, 6, 0x6fa87e4f)
    ensures Schedule(57) == Plan(4, 15, 10, 0xfe2ce6e0)
    ensures Schedule(58) == Plan(4, 6, 15, 0xa3014314)
    ensures Schedule(59) == Plan(4, 13, 21, 0x4e0811a1)
  {}

  lemma Plan61To64()
    ensures Schedule(60) == Plan(4, 4, 6, 0xf7537e82)
    ensures Schedule(61) == Plan(4, 11, 10, 0xbd3af235)
    ensures Schedule(62) == Plan(4, 2, 15, 0x2ad7d2bb)
    ensures Schedule(63) == Plan(4, 9, 21, 0xeb86d391)
  {}

  // ----- the empty message

  lemma EmptyRound1(x: seq<Word>)
    requires Holds(x, 0x00000080, 0x00000000)
    ensures Steps(INITIAL, x, 16) == Literal(0xf56c7cf1, 0xd6819c6a, 0x5aa53f75, 0x374943a7)
  {
    hide Steps, Schedule;
    var w := Literal(0x67452301, 0xefcdab89, 0x98badcfe, 0x10325476);
    NoSteps(x);
    Plan1To4();
    w := Tick(x, 0, w, Plan(1, 0, 7, 0xd76aa478), 0xa5202774);
    w := Tick(x, 1, w, Plan(1, 1, 12, 0xe8c7b756), 0xf59592dd);
    w := Tick(x, 2, w, Plan(1, 2, 17, 0x242070db), 0xe7f06b23);
    w := Tick(x, 3, w, Plan(1, 3, 22, 0xc1bdceee), 0x1b163203);
    Plan5To8();
    w := Tick(x, 4, w, Plan(1, 4, 7, 0xf57c0faf), 0x32033344);
    w := Tick(x, 5, w, Plan(1, 5, 12, 0x4787c62a), 0x2f35d494);
    w := Tick(x, 6, w, Plan(1, 6, 17, 0xa8304613), 0xf5b158db);
    w := Tick(x, 7, w, Plan(1, 7, 22, 0xfd469501), 0x9bc13ce9);
    Plan9To12();
    w := Tick(x, 8, w, Plan(1, 8, 7, 0x698098d8), 0x3893b991);
    w := Tick(x, 9, w, Plan(1, 9, 12, 0x8b44f7af), 0xfce4a312);
    w := Tick(x, 10, w, Plan(1, 10, 17, 0xffff5bb1), 0xe1ef0576);
    w := Tick(x, 11, w, Plan(1, 11, 22, 0x895cd7be), 0x70768a29);
    Plan13To16();
    w := Tick(x, 12, w, Plan(1, 12, 7, 0x6b901122), 0xf56c7cf1);
    w := Tick(x, 13, w, Plan(1, 13, 12, 0xfd987193), 0x374943a7);
    w := Tick(x, 14, w, Plan(1, 14, 17, 0xa679438e), 0x5aa53f75);
    w := Tick(x, 15, w, Plan(1, 15, 22, 0x49b40821), 0xd6819c6a);
  }

  lemma EmptyRound2(x: seq<Word>)
    requires Holds(x, 0x00000080, 0x00000000)
    requires Steps(INITIAL, x, 16) == Literal(0xf56c7cf1, 0xd6819c6a, 0x5aa53f75, 0x374943a7)
    ensures Steps(INITIAL, x, 32) == Literal(0x13707036, 0xa2205f1f, 0x1c31c384, 0xae7813db)
  {
    hide Steps, Schedule;
    var w := Literal(0xf56c7cf1, 0xd6819c6a, 0x5aa53f75, 0x374943a7);
    Plan17To20();
    w := Tick(x, 16, w, Plan(2, 1, 5, 0xf61e2562), 0x1c7d7513);
    w := Tick(x, 17, w, Plan(2, 6, 9, 0xc040b340), 0x7bd57a3a);
    w := Tick(x, 18, w, Plan(2, 11, 14, 0x265e5a51), 0xc095f13a);
    w := Tick(x, 19, w, Plan(2, 0, 20, 0xe9b6c7aa), 0xbd782e17);
    Plan21To24();
    w := Tick(x, 20, w, Plan(2, 5, 5, 0xd62f105d), 0x3d1e3e6c);
    w := Tick(x, 21, w, Plan(2, 10, 9, 0x02441453), 0x68b7b3e3);
    w := Tick(x, 22, w, Plan(2, 15, 14, 0xd8a1e681), 0xeb41643e);
    w := Tick(x, 23, w, Plan(2, 4, 20, 0xe7d3fbc8), 0xe422531a);
    Plan25To28();
    w := Tick(x, 24, w, Plan(2, 9, 5, 0x21e1cde6), 0x306ec122);
    w := Tick(x, 25, w, Plan(2, 14, 9, 0xc33707d6), 0xd28c77c2);
    w := Tick(x, 26, w, Plan(2, 3, 14, 0xf4d50d87), 0xa3c663da);
    w := Tick(x, 27, w, Plan(2, 8, 20, 0x455a14ed), 0xa0572807);
    Plan29To32();
    w := Tick(x, 28, w, Plan(2, 13, 5, 0xa9e3e905), 0x13707036);
    w := Tick(x, 29, w, Plan(2, 2, 9, 0xfcefa3f8), 0xae7813db);
    w := Tick(x, 30, w, Plan(2, 7, 14, 0x676f02d9), 0x1c31c384);
    w := Tick(x, 31, w, Plan(2, 12, 20, 0x8d2a4c8a), 0xa2205f1f);
  }

  lemma EmptyRound3(x: seq<Word>)
    requires Holds(x, 0x00000080, 0x00000000)
    requires Steps(INITIAL, x, 32) == Literal(0x13707036, 0xa2205f1f, 0x1c31c384, 0xae7813db)
    ensures Steps(INITIAL, x, 48) == Literal(0x3f55edfd, 0xca7d2dbd, 0x68d84ea2, 0x22a31f54)
  {
    hide Steps, Schedule;
    var w := Literal(0x13707036, 0xa2205f1f, 0x1c31c384, 0xae7813db);
    Plan33To36();
    w := Tick(x, 32, w, Plan(3, 5, 4, 0xfffa3942), 0xdf63eaa1);
    w := Tick(x, 33, w, Plan(3, 8, 11, 0x8771f681), 0xc3689f5b);
    w := Tick(x, 34, w, Plan(3, 11, 16, 0x6d9d6122), 0x12f3e755);
    w := Tick(x, 35, w, Plan(3, 14, 23, 0xfde5380c), 0x004b6669);
    Plan37To40();
    w := Tick(x, 36, w, Plan(3, 1, 4, 0xa4beea44), 0x5f7a9b2e);
    w := Tick(x, 37, w, Plan(3, 4, 11, 0x4bdecfa9), 0xabc34e16);
    w := Tick(x, 38, w, Plan(3, 7, 16, 0xf6bb4b60), 0x91ca4cb7);
    w := Tick(x, 39, w, Plan(3, 10, 23, 0xbebfbc70), 0xc5dc8c15);
    Plan41To44();
    w := Tick(x, 40, w, Plan(3, 13, 4, 0x289b7ec6), 0x4497169d);
    w := Tick(x, 41, w, Plan(3, 0, 11, 0xeaa127fa), 0x76fd93d4);
    w := Tick(x, 42, w, Plan(3, 3, 16, 0xd4ef3085), 0xfd95f243);
    w := Tick(x, 43, w, Plan(3, 6, 23, 0x04881d05), 0x0fe32453);
    Plan45To48();
    w := Tick(x, 44, w, Plan(3, 9, 4, 0xd9d4d039), 0x3f55edfd);
    w := Tick(x, 45, w, Plan(3, 12, 11, 0xe6db99e5), 0x22a31f54);
    w := Tick(x, 46, w, Plan(3, 15, 16, 0x1fa27cf8), 0x68d84ea2);
    w := Tick(x, 47, w, Plan(3, 2, 23, 0xc4ac5665), 0xca7d2dbd);
  }

  lemma EmptyRound4(x: seq<Word>)
    requires Holds(x, 0x00000080, 0x00000000)
    requires Steps(INITIAL, x, 48) == Literal(0x3f55edfd, 0xca7d2dbd, 0x68d84ea2, 0x22a31f54)
    ensures Steps(INITIAL, x, 64) == Literal(0x7246fad3, 0x14e45506, 0xff4ea3eb, 0x6e10a476)
  {
    hide Steps, Schedule;
    var w := Literal(0x3f55edfd, 0xca7d2dbd, 0x68d84ea2, 0x22a31f54);
    Plan49To52();
    w := Tick(x, 48, w, Plan(4, 0, 6, 0xf4292244), 0x93aa2577);
    w := Tick(x, 49, w, Plan(4, 7, 10, 0x432aff97), 0x1688dc85);
    w := Tick(x, 50, w, Plan(4, 14, 15, 0xab9423a7), 0xcd85b8cb);
    w := Tick(x, 51, w, Plan(4, 5, 21, 0xfc93a039), 0x561e0689);
    Plan53To56();
    w := Tick(x, 52, w, Plan(4, 12, 6, 0x655b59c3), 0x5625a114);
    w := Tick(x, 53, w, Plan(4, 3, 10, 0x8f0ccc92), 0x3450f42b);
    w := Tick(x, 54, w, Plan(4, 10, 15, 0xffeff47d), 0x392ad0d0);
    w := Tick(x, 55, w, Plan(4, 1, 21, 0x85845dd1), 0x1e77fa61);
    Plan57To60();
    w := Tick(x, 56, w, Plan(4, 8, 6, 0x6fa87e4f), 0x474a9c8c);
    w := Tick(x, 57, w, Plan(4, 15, 10, 0xfe2ce6e0), 0xdfce00bc);
    w := Tick(x, 58, w, Plan(4, 6, 15, 0xa3014314), 0x36594b14);
    w := Tick(x, 59, w, Plan(4, 13, 21, 0x4e0811a1), 0x30130182);
    Plan61To64();
    w := Tick(x, 60, w, Plan(4, 4, 6, 0xf7537e82), 0x7246fad3);
    w := Tick(x, 61, w, Plan(4, 11, 10, 0xbd3af235), 0x6e10a476);
    w := Tick(x, 62, w, Plan(4, 2, 15, 0x2ad7d2bb), 0xff4ea3eb);
    w := Tick(x, 63, w, Plan(4, 9, 21, 0xeb86d391), 0x14e45506);
  }

  // ----- the message "abc"

  lemma AbcRound1(x: seq<Word>)
    requires Holds(x, 0x80636261, 0x00000018)
    ensures Steps(INITIAL, x, 16) == Literal(0xdda9b9a6, 0x72aff2e0, 0xe396856b, 0xa1051895)
  {
    hide Steps, Schedule;
    var w := Literal(0x67452301, 0xefcdab89, 0x98badcfe, 0x10325476);
    NoSteps(x);
    Plan1To4();
    w := Tick(x, 0, w, Plan(1, 0, 7, 0xd76aa478), 0xd6d117b4);
    w := Tick(x, 1, w, Plan(1, 1, 12, 0xe8c7b756), 0x344a8432);
    w := Tick(x, 2, w, Plan(1, 2, 17, 0x242070db), 0x2f6fbd72);
    w := Tick(x, 3, w, Plan(1, 3, 22, 0xc1bdceee), 0x7ad956f2);
    Plan5To8();
    w := Tick(x, 4, w, Plan(1, 4, 7, 0xf57c0faf), 0xc73741ef);
    w := Tick(x, 5, w, Plan(1, 5, 12, 0x4787c62a), 0x8bac3051);
    w := Tick(x, 6, w, Plan(1, 6, 17, 0xa8304613), 0x207dc67b);
    w := Tick(x, 7, w, Plan(1, 7, 22, 0xfd469501), 0x928d99f6);
    Plan9To12();
    w := Tick(x, 8, w, Plan(1, 8, 7, 0x698098d8), 0x854b3712);
    w := Tick(x, 9, w, Plan(1, 9, 12, 0x8b44f7af), 0x74e2f284);
    w := Tick(x, 10, w, Plan(1, 10, 17, 0xffff5bb1), 0x3020401c);
    w := Tick(x, 11, w, Plan(1, 11, 22, 0x895cd7be), 0x5ed49596);
    Plan13To16();
    w := Tick(x, 12, w, Plan(1, 12, 7, 0x6b901122), 0xdda9b9a6);
    w := Tick(x, 13, w, Plan(1, 13, 12, 0xfd987193), 0xa1051895);
    w := Tick(x, 14, w, Plan(1, 14, 17, 0xa679438e), 0xe396856b);
    w := Tick(x, 15, w, Plan(1, 15, 22, 0x49b40821), 0x72aff2e0);
  }

  lemma AbcRound2(x: seq<Word>)
    requires Holds(x, 0x80636261, 0x00000018)
    requires Steps(INITIAL, x, 16) == Literal(0xdda9b9a6, 0x72aff2e0, 0xe396856b, 0xa1051895)
    ensures Steps(INITIAL, x, 32) == Literal(0x790a77fb, 0x726342d3, 0xa62884aa, 0x9f47e4f8)
  {
    hide Steps, Schedule;
    var w := Literal(0xdda9b9a6, 0x72aff2e0, 0xe396856b, 0xa1051895);
    Plan17To20();
    w := Tick(x, 16, w, Plan(2, 1, 5, 0xf61e2562), 0x3e9e9126);
    w := Tick(x, 17, w, Plan(2, 6, 9, 0xc040b340), 0x4a1d804e);
    w := Tick(x, 18, w, Plan(2, 11, 14, 0x265e5a51), 0xe25e1652);
    w := Tick(x, 19, w, Plan(2, 0, 20, 0xe9b6c7aa), 0xb5b204e4);
    Plan21To24();
    w := Tick(x, 20, w, Plan(2, 5, 5, 0xd62f105d), 0x59a8ffda);
    w := Tick(x, 21, w, Plan(2, 10, 9, 0x02441453), 0x6d002f1e);
    w := Tick(x, 22, w, Plan(2, 15, 14, 0xd8a1e681), 0xabfc7920);
    w := Tick(x, 23, w, Plan(2, 4, 20, 0xe7d3fbc8), 0x47092c07);
    Plan25To28();
    w := Tick(x, 24, w, Plan(2, 9, 5, 0x21e1cde6), 0xb7f268cf);
    w := Tick(x, 25, w, Plan(2, 14, 9, 0xc33707d6), 0x09388eff);
    w := Tick(x, 26, w, Plan(2, 3, 14, 0xf4d50d87), 0xfe1623b1);
    w := Tick(x, 27, w, Plan(2, 8, 20, 0x455a14ed), 0x786acb8f);
    Plan29To32();
    w := Tick(x, 28, w, Plan(2, 13, 5, 0xa9e3e905), 0x790a77fb);
    w := Tick(x, 29, w, Plan(2, 2, 9, 0xfcefa3f8), 0x9f47e4f8);
    w := Tick(x, 30, w, Plan(2, 7, 14, 0x676f02d9), 0xa62884aa);
    w := Tick(x, 31, w, Plan(2, 12, 20, 0x8d2a4c8a), 0x726342d3);
  }

  lemma AbcRound3(x: seq<Word>)
    requires Holds(x, 0x80636261, 0x00000018)
    requires Steps(INITIAL, x, 32) == Literal(0x790a77fb, 0x726342d3, 0xa62884aa, 0x9f47e4f8)
    ensures Steps(INITIAL, x, 48) == Literal(0x7f2e507b, 0x7beb9700, 0x8fae6399, 0x99d9679d)
  {
    hide Steps, Schedule;
    var w := Literal(0x790a77fb, 0x726342d3, 0xa62884aa, 0x9f47e4f8);
    Plan33To36();
    w := Tick(x, 32, w, Plan(3, 5, 4, 0xfffa3942), 0xb3707ebf);
    w := Tick(x, 33, w, Plan(3, 8, 11, 0x8771f681), 0x60127b2e);
    w := Tick(x, 34, w, Plan(3, 11, 16, 0x6d9d6122), 0x8d212ff5);
    w := Tick(x, 35, w, Plan(3, 14, 23, 0xfde5380c), 0x3b0875c7);
    Plan37To40();
    w := Tick(x, 36, w, Plan(3, 1, 4, 0xa4beea44), 0x21b117b9);
    w := Tick(x, 37, w, Plan(3, 4, 11, 0x4bdecfa9), 0x6e7429d5);
    w := Tick(x, 38, w, Plan(3, 7, 16, 0xf6bb4b60), 0x3575227e);
    w := Tick(x, 39, w, Plan(3, 10, 23, 0xbebfbc70), 0x5a2f5ea5);
    Plan41To44();
    w := Tick(x, 40, w, Plan(3, 13, 4, 0x289b7ec6), 0x11de1779);
    w := Tick(x, 41, w, Plan(3, 0, 11, 0xeaa127fa), 0xfadcaa38);
    w := Tick(x, 42, w, Plan(3, 3, 16, 0xd4ef3085), 0x31c465ca);
    w := Tick(x, 43, w, Plan(3, 6, 23, 0x04881d05), 0x4c6124f4);
    Plan45To48();
    w := Tick(x, 44, w, Plan(3, 9, 4, 0xd9d4d039), 0x7f2e507b);
    w := Tick(x, 45, w, Plan(3, 12, 11, 0xe6db99e5), 0x99d9679d);
    w := Tick(x, 46, w, Plan(3, 15, 16, 0x1fa27cf8), 0x8fae6399);
    w := Tick(x, 47, w, Plan(3, 2, 23, 0xc4ac5665), 0x7beb9700);
  }

  lemma AbcRound4(x: seq<Word>)
    requires Holds(x, 0x80636261, 0x00000018)
    requires Steps(INITIAL, x, 48) == Literal(0x7f2e507b, 0x7beb9700, 0x8fae6399, 0x99d9679d)
    ensures Steps(INITIAL, x, 64) == Literal(0x310ade8f, 0xc08226b3, 0xe484b9d8, 0x624d8cb2)
  {
    hide Steps, Schedule;
    var w := Literal(0x7f2e507b, 0x7beb9700, 0x8fae6399, 0x99d9679d);
    Plan49To52();
    w := Tick(x, 48, w, Plan(4, 0, 6, 0xf4292244), 0x7b201df8);
    w := Tick(x, 49, w, Plan(4, 7, 10, 0x432aff97), 0xf4e8e96e);
    w := Tick(x, 50, w, Plan(4, 14, 15, 0xab9423a7), 0xb298cefd);
    w := Tick(x, 51, w, Plan(4, 5, 21, 0xfc93a039), 0x8bf025c4);
    Plan53To56();
    w := Tick(x, 52, w, Plan(4, 12, 6, 0x655b59c3), 0x06cc5e8a);
    w := Tick(x, 53, w, Plan(4, 3, 10, 0x8f0ccc92), 0x5b0d97aa);
    w := Tick(x, 54, w, Plan(4, 10, 15, 0xffeff47d), 0x7d632dd0);
    w := Tick(x, 55, w, Plan(4, 1, 21, 0x85845dd1), 0x3bfa2c27);
    Plan57To60();
    w := Tick(x, 56, w, Plan(4, 8, 6, 0x6fa87e4f), 0x7f81cc35);
    w := Tick(x, 57, w, Plan(4, 15, 10, 0xfe2ce6e0), 0x094454ab);
    w := Tick(x, 58, w, Plan(4, 6, 15, 0xa3014314), 0x4f9dbe3f);
    w := Tick(x, 59, w, Plan(4, 13, 21, 0x4e0811a1), 0x7327d604);
    Plan61To64();
    w := Tick(x, 60, w, Plan(4, 4, 6, 0xf7537e82), 0x310ade8f);
    w := Tick(x, 61, w, Plan(4, 11, 10, 0xbd3af235), 0x624d8cb2);
    w := Tick(x, 62, w, Plan(4, 2, 15, 0x2ad7d2bb), 0xe484b9d8);
    w := Tick(x, 63, w, Plan(4, 9, 21, 0xeb86d391), 0xc08226b3);
  }

  lemma NoSteps(x: seq<Word>)
    requires |x| == 16
    ensures Steps(INITIAL, x, 0) == Literal(0x67452301, 0xefcdab89, 0x98badcfe, 0x10325476)
  {}

  // ----- the digests

  lemma OneBlock(block: seq<Byte>)
    requires |block| == 64
    ensures Blocks(INITIAL, block) == Compress(INITIAL, block)
  {
    hide Compress;
    assert block[..64] == block && block[64..] == [];
    assert Blocks(Compress(INITIAL, block), []) == Compress(INITIAL, block);
  }

  lemma Bytes(w: bv32, a: Byte, b: Byte, c: Byte, d: Byte)
    requires w as int == a as int + 0x100 * b as int + 0x10000 * c as int + 0x1000000 * d as int
    ensures BytesOf(Word(w)) == [a, b, c, d]
  {
    hide Little;
    FourBytes(w as int, a, b, c, d);
  }

  lemma LengthOf(bits: Byte, len: nat)
    requires bits == 8 * len
    ensures LengthBytes(len) == [bits, 0, 0, 0, 0, 0, 0, 0]
  {
    hide Little;
    FourBytes(bits as int, bits, 0, 0, 0);
    FourBytes(0, 0, 0, 0, 0);
  }

  /** The one block of a message of less than 32 bytes. */
  lemma ShortBlock(m: seq<Byte>)
    requires |m| < 32
    ensures var block := Padded(m, |m|);
      && |block| == 64 && (forall i :: 0 <= i < |m| ==> block[i] == m[i]) && block[|m|] == 0x80 && block[56] == 8 * |m|
      && forall i :: |m| < i < 64 && i != 56 ==> block[i] == 0
  {
    hide LengthBytes;
    LengthOf(8 * |m|, |m|);
  }

  lemma WordsOf(block: seq<Byte>, first: bv32, length: bv32)
    requires |block| == 64 && WordAt(block, 0) == Word(first) && WordAt(block, 56) == Word(length)
    requires forall i :: 4 <= i < 64 && !(56 <= i < 60) ==> block[i] == 0
    ensures Holds(Decoded(block), first, length)
  {
    hide WordAt;
    var x := Decoded(block);
    assert x[0] == WordAt(block, 0) && x[14] == WordAt(block, 56);
    forall k | 0 < k < 16 && k != 14 ensures x[k] == Word(0) {
      assert x[k] == WordAt(block, 4 * k);
      ZeroWord(block, 4 * k);
    }
  }

  lemma WordIs(block: seq<Byte>, i: nat, a: Byte, b: Byte, c: Byte, d: Byte, w: bv32)
    requires i + 4 <= |block| && block[i] == a && block[i + 1] == b && block[i + 2] == c && block[i + 3] == d
    requires w as int == a as int + 0x100 * b as int + 0x10000 * c as int + 0x1000000 * d as int
    ensures WordAt(block, i) == Word(w)
  {
    AsWord(a as int + 0x100 * b as int + 0x10000 * c as int + 0x1000000 * d as int, w);
  }

  lemma AsWord(n: nat, w: bv32)
    requires w as int == n
    ensures n < 0x1_0000_0000 && n as bv32 == w
  {}

  lemma ZeroWord(block: seq<Byte>, i: nat)
    requires i + 4 <= |block| && block[i] == block[i + 1] == block[i + 2] == block[i + 3] == 0
    ensures WordAt(block, i) == Word(0)
  {}

  lemma EmptyState(block: seq<Byte>)
    requires |block| == 64 && Holds(Decoded(block), 0x00000080, 0x00000000)
    ensures Blocks(INITIAL, block) == Literal(0xd98c1dd4, 0x04b2008f, 0x980980e9, 0x7e42f8ec)
  {
    hide Steps, Decoded, Holds;
    var x := Decoded(block);
    EmptyRound1(x);
    EmptyRound2(x);
    EmptyRound3(x);
    EmptyRound4(x);
    OneBlock(block);
  }

  /** MD5 ("") = d41d8cd98f00b204e9800998ecf8427e */
  lemma EmptyDigest(m: seq<Byte>)
    requires m == []
    ensures Digest(m) == [
      0xd4, 0x1d, 0x8c, 0xd9, 0x8f, 0x00, 0xb2, 0x04,
      0xe9, 0x80, 0x09, 0x98, 0xec, 0xf8, 0x42, 0x7e]
  {
    hide Blocks, Steps, Padded, Little, Holds, Decoded;
    var block := Padded(m, 0);
    BlockEmpty(m);
    EmptyState(block);
    Bytes(0xd98c1dd4, 0xd4, 0x1d, 0x8c, 0xd9);
    Bytes(0x04b2008f, 0x8f, 0x00, 0xb2, 0x04);
    Bytes(0x980980e9, 0xe9, 0x80, 0x09, 0x98);
    Bytes(0x7e42f8ec, 0xec, 0xf8, 0x42, 0x7e);
  }

  lemma BlockEmpty(m: seq<Byte>)
    requires m == []
    ensures |Padded(m, 0)| == 64 && Holds(Decoded(Padded(m, 0)), 0x00000080, 0x00000000)
  {
    hide Padded, WordAt, Decoded, Holds;
    var block := Padded(m, 0);
    ShortBlock(m);
    WordIs(block, 0, 0x80, 0x00, 0x00, 0x00, 0x00000080);
    WordIs(block, 56, 0x00, 0x00, 0x00, 0x00, 0x00000000);
    WordsOf(block, 0x00000080, 0x00000000);
  }

  lemma AbcState(block: seq<Byte>)
    requires |block| == 64 && Holds(Decoded(block), 0x80636261, 0x00000018)
    ensures Blocks(INITIAL, block) == Literal(0x98500190, 0xb04fd23c, 0x7d3f96d6, 0x727fe128)
  {
    hide Steps, Decoded, Holds;
    var x := Decoded(block);
    AbcRound1(x);
    AbcRound2(x);
    AbcRound3(x);
    AbcRound4(x);
    OneBlock(block);
  }

  /** MD5 ("abc") = 900150983cd24fb0d6963f7d28e17f72 */
  lemma AbcDigest(m: seq<Byte>)
    requires m == [97, 98, 99]
    ensures Digest(m) == [
      0x90, 0x01, 0x50, 0x98, 0x3c, 0xd2, 0x4f, 0xb0,
      0xd6, 0x96, 0x3f, 0x7d, 0x28, 0xe1, 0x7f, 0x72]
  {
    hide Blocks, Steps, Padded, Little, Holds, Decoded;
    var block := Padded(m, 3);
    BlockAbc(m);
    AbcState(block);
    Bytes(0x98500190, 0x90, 0x01, 0x50, 0x98);
    Bytes(0xb04fd23c, 0x3c, 0xd2, 0x4f, 0xb0);
    Bytes(0x7d3f96d6, 0xd6, 0x96, 0x3f, 0x7d);
    Bytes(0x727fe128, 0x28, 0xe1, 0x7f, 0x72);
  }

  lemma BlockAbc(m: seq<Byte>)
    requires m == [97, 98, 99]
    ensures |Padded(m, 3)| == 64 && Holds(Decoded(Padded(m, 3)), 0x80636261, 0x00000018)
  {
    hide Padded, WordAt, Decoded, Holds;
    var block := Padded(m, 3);
    ShortBlock(m);
    WordIs(block, 0, 0x61, 0x62, 0x63, 0x80, 0x80636261);
    WordIs(block, 56, 0x18, 0x00, 0x00, 0x00, 0x00000018);
    WordsOf(block, 0x80636261, 0x00000018);
  }
}
