/** The rounds of `md5_process_block` as `md5.c` writes them out. */
module Md5Rounds {
  import opened Basics
  import opened Md5Spec

  function FF(b: bv32, c: bv32, d: bv32): bv32 { d ^ (b & (c ^ d)) }
  function FG(b: bv32, c: bv32, d: bv32): bv32 { FF(d, b, c) }
  function FH(b: bv32, c: bv32, d: bv32): bv32 { b ^ c ^ d }
  function FI(b: bv32, c: bv32, d: bv32): bv32 { c ^ (b | !d) }

  lemma SelectByBit(b: bv32, c: bv32, d: bv32)
    ensures d ^ (b & (c ^ d)) == (b & c) | (!b & d)
  {}

  lemma SelectByLastBit(b: bv32, c: bv32, d: bv32)
    ensures c ^ (d & (b ^ c)) == (b & d) | (c & !d)
  {}

  /** The optimised macro computes the function F of section 3.4. */
  lemma FFIsF(b: bv32, c: bv32, d: bv32)
    ensures FF(b, c, d) == F(b, c, d)
  {
    SelectByBit(b, c, d);
  }

  lemma FGIsG(b: bv32, c: bv32, d: bv32)
    ensures FG(b, c, d) == G(b, c, d)
  {
    SelectByLastBit(b, c, d);
  }

  function Macro(round: nat, b: Word, c: Word, d: Word): Word {
    if round == 1 then Word(FF(b.bits, c.bits, d.bits))
    else if round == 2 then Word(FG(b.bits, c.bits, d.bits))
    else if round == 3 then Word(FH(b.bits, c.bits, d.bits))
    else Word(FI(b.bits, c.bits, d.bits))
  }

  /** In each round the macros compute the function of section 3.4, for all words. */
  lemma MacroIsRfc(round: nat, b: Word, c: Word, d: Word)
    ensures Macro(round, b, c, d) == Mixing(round, b, c, d)
  {
    hide FF, FG, F, G;
    FFIsF(b.bits, c.bits, d.bits);
    FGIsG(b.bits, c.bits, d.bits);
  }

  /** The macro OP: `a += f (b, c, d) + x + T; CYCLIC (a, s); a += b`. */
  function Op(round: nat, a: Word, b: Word, c: Word, d: Word, x: Word, s: nat, t: bv32): Word
    requires 0 < s < 32
  {
    Plus(Rotate(Plus(a, Plus(Plus(Macro(round, b, c, d), x), Word(t))), s), b)
  }

  lemma PlusCommutes(x: Word, y: Word)
    ensures Plus(x, y) == Plus(y, x)
  {}

  lemma OpIsMix(round: nat, a: Word, b: Word, c: Word, d: Word, x: Word, s: nat, t: bv32)
    requires 0 < s < 32
    ensures Op(round, a, b, c, d, x, s, t) == Mix(a, b, Mixing(round, b, c, d), x, s, t)
  {
    hide Rotate, Plus, Macro, Mixing;
    MacroIsRfc(round, b, c, d);
    PlusCommutes(b, Rotate(Plus(a, Plus(Plus(Macro(round, b, c, d), x), Word(t))), s));
  }

  /** One OP of `md5.c` is one step of the schedule. */
  lemma OpIsStep(w: Words, x: seq<Word>, n: nat, p: Plan)
    requires |x| == 16 && n < 64 && p == Schedule(n)
    ensures Steps(w, x, n + 1)
         == var v := Steps(w, x, n); Words(v.d, Op(p.round, v.a, v.b, v.c, v.d, x[p.k], p.s, p.t), v.b, v.c)
  {
    hide Op, Mix, Mixing, Schedule;
    var v := Steps(w, x, n);
    OpIsMix(p.round, v.a, v.b, v.c, v.d, x[p.k], p.s, p.t);
  }

  method Steps1To4(a: Word, b: Word, c: Word, d: Word, x: seq<Word>, ghost w: Words)
    returns (A: Word, B: Word, C: Word, D: Word)
    requires |x| == 16 && Words(a, b, c, d) == Steps(w, x, 0)
    ensures Words(A, B, C, D) == Steps(w, x, 4)
  {
    hide Op, Steps;
    A, B, C, D := a, b, c, d;
    OpIsStep(w, x, 0, Plan(1, 0, 7, 0xd76aa478));
    A := Op(1, A, B, C, D, x[0], 7, 0xd76aa478);
    OpIsStep(w, x, 1, Plan(1, 1, 12, 0xe8c7b756));
    D := Op(1, D, A, B, C, x[1], 12, 0xe8c7b756);
    OpIsStep(w, x, 2, Plan(1, 2, 17, 0x242070db));
    C := Op(1, C, D, A, B, x[2], 17, 0x242070db);
    OpIsStep(w, x, 3, Plan(1, 3, 22, 0xc1bdceee));
    B := Op(1, B, C, D, A, x[3], 22, 0xc1bdceee);
  }

  method Steps5To8(a: Word, b: Word, c: Word, d: Word, x: seq<Word>, ghost w: Words)
    returns (A: Word, B: Word, C: Word, D: Word)
    requires |x| == 16 && Words(a, b, c, d) == Steps(w, x, 4)
    ensures Words(A, B, C, D) == Steps(w, x, 8)
  {
    hide Op, Steps;
    A, B, C, D := a, b, c, d;
    OpIsStep(w, x, 4, Plan(1, 4, 7, 0xf57c0faf));
    A := Op(1, A, B, C, D, x[4], 7, 0xf57c0faf);
    OpIsStep(w, x, 5, Plan(1, 5, 12, 0x4787c62a));
    D := Op(1, D, A, B, C, x[5], 12, 0x4787c62a);
    OpIsStep(w, x, 6, Plan(1, 6, 17, 0xa8304613));
    C := Op(1, C, D, A, B, x[6], 17, 0xa8304613);
    OpIsStep(w, x, 7, Plan(1, 7, 22, 0xfd469501));
    B := Op(1, B, C, D, A, x[7], 22, 0xfd469501);
  }

  method Steps9To12(a: Word, b: Word, c: Word, d: Word, x: seq<Word>, ghost w: Words)
    returns (A: Word, B: Word, C: Word, D: Word)
    requires |x| == 16 && Words(a, b, c, d) == Steps(w, x, 8)
    ensures Words(A, B, C, D) == Steps(w, x, 12)
  {
    hide Op, Steps;
    A, B, C, D := a, b, c, d;
    OpIsStep(w, x, 8, Plan(1, 8, 7, 0x698098d8));
    A := Op(1, A, B, C, D, x[8], 7, 0x698098d8);
    OpIsStep(w, x, 9, Plan(1, 9, 12, 0x8b44f7af));
    D := Op(1, D, A, B, C, x[9], 12, 0x8b44f7af);
    OpIsStep(w, x, 10, Plan(1, 10, 17, 0xffff5bb1));
    C := Op(1, C, D, A, B, x[10], 17, 0xffff5bb1);
    OpIsStep(w, x, 11, Plan(1, 11, 22, 0x895cd7be));
    B := Op(1, B, C, D, A, x[11], 22, 0x895cd7be);
  }

  method Steps13To16(a: Word, b: Word, c: Word, d: Word, x: seq<Word>, ghost w: Words)
    returns (A: Word, B: Word, C: Word, D: Word)
    requires |x| == 16 && Words(a, b, c, d) == Steps(w, x, 12)
    ensures Words(A, B, C, D) == Steps(w, x, 16)
  {
    hide Op, Steps;
    A, B, C, D := a, b, c, d;
    OpIsStep(w, x, 12, Plan(1, 12, 7, 0x6b901122));
    A := Op(1, A, B, C, D, x[12], 7, 0x6b901122);
    OpIsStep(w, x, 13, Plan(1, 13, 12, 0xfd987193));
    D := Op(1, D, A, B, C, x[13], 12, 0xfd987193);
    OpIsStep(w, x, 14, Plan(1, 14, 17, 0xa679438e));
    C := Op(1, C, D, A, B, x[14], 17, 0xa679438e);
    OpIsStep(w, x, 15, Plan(1, 15, 22, 0x49b40821));
    B := Op(1, B, C, D, A, x[15], 22, 0x49b40821);
  }

  method Steps17To20(a: Word, b: Word, c: Word, d: Word, x: seq<Word>, ghost w: Words)
    returns (A: Word, B: Word, C: Word, D: Word)
    requires |x| == 16 && Words(a, b, c, d) == Steps(w, x, 16)
    ensures Words(A, B, C, D) == Steps(w, x, 20)
  {
    hide Op, Steps;
    A, B, C, D := a, b, c, d;
    OpIsStep(w, x, 16, Plan(2, 1, 5, 0xf61e2562));
    A := Op(2, A, B, C, D, x[1], 5, 0xf61e2562);
    OpIsStep(w, x, 17, Plan(2, 6, 9, 0xc040b340));
    D := Op(2, D, A, B, C, x[6], 9, 0xc040b340);
    OpIsStep(w, x, 18, Plan(2, 11, 14, 0x265e5a51));
    C := Op(2, C, D, A, B, x[11], 14, 0x265e5a51);
    OpIsStep(w, x, 19, Plan(2, 0, 20, 0xe9b6c7aa));
    B := Op(2, B, C, D, A, x[0], 20, 0xe9b6c7aa);
  }

  method Steps21To24(a: Word, b: Word, c: Word, d: Word, x: seq<Word>, ghost w: Words)
    returns (A: Word, B: Word, C: Word, D: Word)
    requires |x| == 16 && Words(a, b, c, d) == Steps(w, x, 20)
    ensures Words(A, B, C, D) == Steps(w, x, 24)
  {
    hide Op, Steps;
    A, B, C, D := a, b, c, d;
    OpIsStep(w, x, 20, Plan(2, 5, 5, 0xd62f105d));
    A := Op(2, A, B, C, D, x[5], 5, 0xd62f105d);
    OpIsStep(w, x, 21, Plan(2, 10, 9, 0x02441453));
    D := Op(2, D, A, B, C, x[10], 9, 0x02441453);
    OpIsStep(w, x, 22, Plan(2, 15, 14, 0xd8a1e681));
    C := Op(2, C, D, A, B, x[15], 14, 0xd8a1e681);
    OpIsStep(w, x, 23, Plan(2, 4, 20, 0xe7d3fbc8));
    B := Op(2, B, C, D, A, x[4], 20, 0xe7d3fbc8);
  }

  method Steps25To28(a: Word, b: Word, c: Word, d: Word, x: seq<Word>, ghost w: Words)
    returns (A: Word, B: Word, C: Word, D: Word)
    requires |x| == 16 && Words(a, b, c, d) == Steps(w, x, 24)
    ensures Words(A, B, C, D) == Steps(w, x, 28)
  {
    hide Op, Steps;
    A, B, C, D := a, b, c, d;
    OpIsStep(w, x, 24, Plan(2, 9, 5, 0x21e1cde6));
    A := Op(2, A, B, C, D, x[9], 5, 0x21e1cde6);
    OpIsStep(w, x, 25, Plan(2, 14, 9, 0xc33707d6));
    D := Op(2, D, A, B, C, x[14], 9, 0xc33707d6);
    OpIsStep(w, x, 26, Plan(2, 3, 14, 0xf4d50d87));
    C := Op(2, C, D, A, B, x[3], 14, 0xf4d50d87);
    OpIsStep(w, x, 27, Plan(2, 8, 20, 0x455a14ed));
    B := Op(2, B, C, D, A, x[8], 20, 0x455a14ed);
  }

  method Steps29To32(a: Word, b: Word, c: Word, d: Word, x: seq<Word>, ghost w: Words)
    returns (A: Word, B: Word, C: Word, D: Word)
    requires |x| == 16 && Words(a, b, c, d) == Steps(w, x, 28)
    ensures Words(A, B, C, D) == Steps(w, x, 32)
  {
    hide Op, Steps;
    A, B, C, D := a, b, c, d;
    OpIsStep(w, x, 28, Plan(2, 13, 5, 0xa9e3e905));
    A := Op(2, A, B, C, D, x[13], 5, 0xa9e3e905);
    OpIsStep(w, x, 29, Plan(2, 2, 9, 0xfcefa3f8));
    D := Op(2, D, A, B, C, x[2], 9, 0xfcefa3f8);
    OpIsStep(w, x, 30, Plan(2, 7, 14, 0x676f02d9));
    C := Op(2, C, D, A, B, x[7], 14, 0x676f02d9);
    OpIsStep(w, x, 31, Plan(2, 12, 20, 0x8d2a4c8a));
    B := Op(2, B, C, D, A, x[12], 20, 0x8d2a4c8a);
  }

  method Steps33To36(a: Word, b: Word, c: Word, d: Word, x: seq<Word>, ghost w: Words)
    returns (A: Word, B: Word, C: Word, D: Word)
    requires |x| == 16 && Words(a, b, c, d) == Steps(w, x, 32)
    ensures Words(A, B, C, D) == Steps(w, x, 36)
  {
    hide Op, Steps;
    A, B, C, D := a, b, c, d;
    OpIsStep(w, x, 32, Plan(3, 5, 4, 0xfffa3942));
    A := Op(3, A, B, C, D, x[5], 4, 0xfffa3942);
    OpIsStep(w, x, 33, Plan(3, 8, 11, 0x8771f681));
    D := Op(3, D, A, B, C, x[8], 11, 0x8771f681);
    OpIsStep(w, x, 34, Plan(3, 11, 16, 0x6d9d6122));
    C := Op(3, C, D, A, B, x[11], 16, 0x6d9d6122);
    OpIsStep(w, x, 35, Plan(3, 14, 23, 0xfde5380c));
    B := Op(3, B, C, D, A, x[14], 23, 0xfde5380c);
  }

  method Steps37To40(a: Word, b: Word, c: Word, d: Word, x: seq<Word>, ghost w: Words)
    returns (A: Word, B: Word, C: Word, D: Word)
    requires |x| == 16 && Words(a, b, c, d) == Steps(w, x, 36)
    ensures Words(A, B, C, D) == Steps(w, x, 40)
  {
    hide Op, Steps;
    A, B, C, D := a, b, c, d;
    OpIsStep(w, x, 36, Plan(3, 1, 4, 0xa4beea44));
    A := Op(3, A, B, C, D, x[1], 4, 0xa4beea44);
    OpIsStep(w, x, 37, Plan(3, 4, 11, 0x4bdecfa9));
    D := Op(3, D, A, B, C, x[4], 11, 0x4bdecfa9);
    OpIsStep(w, x, 38, Plan(3, 7, 16, 0xf6bb4b60));
    C := Op(3, C, D, A, B, x[7], 16, 0xf6bb4b60);
    OpIsStep(w, x, 39, Plan(3, 10, 23, 0xbebfbc70));
    B := Op(3, B, C, D, A, x[10], 23, 0xbebfbc70);
  }

  method Steps41To44(a: Word, b: Word, c: Word, d: Word, x: seq<Word>, ghost w: Words)
    returns (A: Word, B: Word, C: Word, D: Word)
    requires |x| == 16 && Words(a, b, c, d) == Steps(w, x, 40)
    ensures Words(A, B, C, D) == Steps(w, x, 44)
  {
    hide Op, Steps;
    A, B, C, D := a, b, c, d;
    OpIsStep(w, x, 40, Plan(3, 13, 4, 0x289b7ec6));
    A := Op(3, A, B, C, D, x[13], 4, 0x289b7ec6);
    OpIsStep(w, x, 41, Plan(3, 0, 11, 0xeaa127fa));
    D := Op(3, D, A, B, C, x[0], 11, 0xeaa127fa);
    OpIsStep(w, x, 42, Plan(3, 3, 16, 0xd4ef3085));
    C := Op(3, C, D, A, B, x[3], 16, 0xd4ef3085);
    OpIsStep(w, x, 43, Plan(3, 6, 23, 0x04881d05));
    B := Op(3, B, C, D, A, x[6], 23, 0x04881d05);
  }

  method Steps45To48(a: Word, b: Word, c: Word, d: Word, x: seq<Word>, ghost w: Words)
    returns (A: Word, B: Word, C: Word, D: Word)
    requires |x| == 16 && Words(a, b, c, d) == Steps(w, x, 44)
    ensures Words(A, B, C, D) == Steps(w, x, 48)
  {
    hide Op, Steps;
    A, B, C, D := a, b, c, d;
    OpIsStep(w, x, 44, Plan(3, 9, 4, 0xd9d4d039));
    A := Op(3, A, B, C, D, x[9], 4, 0xd9d4d039);
    OpIsStep(w, x, 45, Plan(3, 12, 11, 0xe6db99e5));
    D := Op(3, D, A, B, C, x[12], 11, 0xe6db99e5);
    OpIsStep(w, x, 46, Plan(3, 15, 16, 0x1fa27cf8));
    C := Op(3, C, D, A, B, x[15], 16, 0x1fa27cf8);
    OpIsStep(w, x, 47, Plan(3, 2, 23, 0xc4ac5665));
    B := Op(3, B, C, D, A, x[2], 23, 0xc4ac5665);
  }

  method Steps49To52(a: Word, b: Word, c: Word, d: Word, x: seq<Word>, ghost w: Words)
    returns (A: Word, B: Word, C: Word, D: Word)
    requires |x| == 16 && Words(a, b, c, d) == Steps(w, x, 48)
    ensures Words(A, B, C, D) == Steps(w, x, 52)
  {
    hide Op, Steps;
    A, B, C, D := a, b, c, d;
    OpIsStep(w, x, 48, Plan(4, 0, 6, 0xf4292244));
    A := Op(4, A, B, C, D, x[0], 6, 0xf4292244);
    OpIsStep(w, x, 49, Plan(4, 7, 10, 0x432aff97));
    D := Op(4, D, A, B, C, x[7], 10, 0x432aff97);
    OpIsStep(w, x, 50, Plan(4, 14, 15, 0xab9423a7));
    C := Op(4, C, D, A, B, x[14], 15, 0xab9423a7);
    OpIsStep(w, x, 51, Plan(4, 5, 21, 0xfc93a039));
    B := Op(4, B, C, D, A, x[5], 21, 0xfc93a039);
  }

  method Steps53To56(a: Word, b: Word, c: Word, d: Word, x: seq<Word>, ghost w: Words)
    returns (A: Word, B: Word, C: Word, D: Word)
    requires |x| == 16 && Words(a, b, c, d) == Steps(w, x, 52)
    ensures Words(A, B, C, D) == Steps(w, x, 56)
  {
    hide Op, Steps;
    A, B, C, D := a, b, c, d;
    OpIsStep(w, x, 52, Plan(4, 12, 6, 0x655b59c3));
    A := Op(4, A, B, C, D, x[12], 6, 0x655b59c3);
    OpIsStep(w, x, 53, Plan(4, 3, 10, 0x8f0ccc92));
    D := Op(4, D, A, B, C, x[3], 10, 0x8f0ccc92);
    OpIsStep(w, x, 54, Plan(4, 10, 15, 0xffeff47d));
    C := Op(4, C, D, A, B, x[10], 15, 0xffeff47d);
    OpIsStep(w, x, 55, Plan(4, 1, 21, 0x85845dd1));
    B := Op(4, B, C, D, A, x[1], 21, 0x85845dd1);
  }

  method Steps57To60(a: Word, b: Word, c: Word, d: Word, x: seq<Word>, ghost w: Words)
    returns (A: Word, B: Word, C: Word, D: Word)
    requires |x| == 16 && Words(a, b, c, d) == Steps(w, x, 56)
    ensures Words(A, B, C, D) == Steps(w, x, 60)
  {
    hide Op, Steps;
    A, B, C, D := a, b, c, d;
    OpIsStep(w, x, 56, Plan(4, 8, 6, 0x6fa87e4f));
    A := Op(4, A, B, C, D, x[8], 6, 0x6fa87e4f);
    OpIsStep(w, x, 57, Plan(4, 15, 10, 0xfe2ce6e0));
    D := Op(4, D, A, B, C, x[15], 10, 0xfe2ce6e0);
    OpIsStep(w, x, 58, Plan(4, 6, 15, 0xa3014314));
    C := Op(4, C, D, A, B, x[6], 15, 0xa3014314);
    OpIsStep(w, x, 59, Plan(4, 13, 21, 0x4e0811a1));
    B := Op(4, B, C, D, A, x[13], 21, 0x4e0811a1);
  }

  method Steps61To64(a: Word, b: Word, c: Word, d: Word, x: seq<Word>, ghost w: Words)
    returns (A: Word, B: Word, C: Word, D: Word)
    requires |x| == 16 && Words(a, b, c, d) == Steps(w, x, 60)
    ensures Words(A, B, C, D) == Steps(w, x, 64)
  {
    hide Op, Steps;
    A, B, C, D := a, b, c, d;
    OpIsStep(w, x, 60, Plan(4, 4, 6, 0xf7537e82));
    A := Op(4, A, B, C, D, x[4], 6, 0xf7537e82);
    OpIsStep(w, x, 61, Plan(4, 11, 10, 0xbd3af235));
    D := Op(4, D, A, B, C, x[11], 10, 0xbd3af235);
    OpIsStep(w, x, 62, Plan(4, 2, 15, 0x2ad7d2bb));
    C := Op(4, C, D, A, B, x[2], 15, 0x2ad7d2bb);
    OpIsStep(w, x, 63, Plan(4, 9, 21, 0xeb86d391));
    B := Op(4, B, C, D, A, x[9], 21, 0xeb86d391);
  }

  /** The body of the loop of `md5_process_block`: one block. */
  method Block(v: Words, block: seq<Byte>) returns (r: Words)
    requires |block| == 64
    ensures r == Compress(v, block)
  {
    hide Steps, WordAt;
    var x := Decoded(block);
    var A, B, C, D := v.a, v.b, v.c, v.d;
    StepsStart(v, x);
    A, B, C, D := Steps1To4(A, B, C, D, x, v);
    A, B, C, D := Steps5To8(A, B, C, D, x, v);
    A, B, C, D := Steps9To12(A, B, C, D, x, v);
    A, B, C, D := Steps13To16(A, B, C, D, x, v);
    A, B, C, D := Steps17To20(A, B, C, D, x, v);
    A, B, C, D := Steps21To24(A, B, C, D, x, v);
    A, B, C, D := Steps25To28(A, B, C, D, x, v);
    A, B, C, D := Steps29To32(A, B, C, D, x, v);
    A, B, C, D := Steps33To36(A, B, C, D, x, v);
    A, B, C, D := Steps37To40(A, B, C, D, x, v);
    A, B, C, D := Steps41To44(A, B, C, D, x, v);
    A, B, C, D := Steps45To48(A, B, C, D, x, v);
    A, B, C, D := Steps49To52(A, B, C, D, x, v);
    A, B, C, D := Steps53To56(A, B, C, D, x, v);
    A, B, C, D := Steps57To60(A, B, C, D, x, v);
    A, B, C, D := Steps61To64(A, B, C, D, x, v);
    r := Words(Plus(A, v.a), Plus(B, v.b), Plus(C, v.c), Plus(D, v.d));
    PlusCommutes(A, v.a);
    PlusCommutes(B, v.b);
    PlusCommutes(C, v.c);
    PlusCommutes(D, v.d);
  }

  lemma StepsStart(v: Words, x: seq<Word>)
    requires |x| == 16
    ensures Steps(v, x, 0) == v
  {}
}
