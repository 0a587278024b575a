/** MD5 as RFC 1321 defines it. */
module Md5Spec {
  import opened Basics

  /** A 32-bit word; wrapped, so that proofs about the order of the steps do not look
      inside words. */
  datatype Word = Word(bits: bv32)

  /** The four words of the state. */
  datatype Words = Words(a: Word, b: Word, c: Word, d: Word)

  const INITIAL := Words(Word(0x67452301), Word(0xefcdab89), Word(0x98badcfe), Word(0x10325476))

  // ----- section 3.4: the functions, the table and one step

  function F(x: bv32, y: bv32, z: bv32): bv32 { (x & y) | (!x & z) }
  function G(x: bv32, y: bv32, z: bv32): bv32 { (x & z) | (y & !z) }
  function H(x: bv32, y: bv32, z: bv32): bv32 { x ^ y ^ z }
  function I(x: bv32, y: bv32, z: bv32): bv32 { y ^ (x | !z) }

  function Mixing(round: nat, x: Word, y: Word, z: Word): Word {
    if round == 1 then Word(F(x.bits, y.bits, z.bits))
    else if round == 2 then Word(G(x.bits, y.bits, z.bits))
    else if round == 3 then Word(H(x.bits, y.bits, z.bits))
    else Word(I(x.bits, y.bits, z.bits))
  }

  const T1: seq<bv32> := [
    0xd76aa478, 0xe8c7b756, 0x242070db, 0xc1bdceee,
    0xf57c0faf, 0x4787c62a, 0xa8304613, 0xfd469501,
    0x698098d8, 0x8b44f7af, 0xffff5bb1, 0x895cd7be,
    0x6b901122, 0xfd987193, 0xa679438e, 0x49b40821]

  const T2: seq<bv32> := [
    0xf61e2562, 0xc040b340, 0x265e5a51, 0xe9b6c7aa,
    0xd62f105d, 0x02441453, 0xd8a1e681, 0xe7d3fbc8,
    0x21e1cde6, 0xc33707d6, 0xf4d50d87, 0x455a14ed,
    0xa9e3e905, 0xfcefa3f8, 0x676f02d9, 0x8d2a4c8a]

  const T3: seq<bv32> := [
    0xfffa3942, 0x8771f681, 0x6d9d6122, 0xfde5380c,
    0xa4beea44, 0x4bdecfa9, 0xf6bb4b60, 0xbebfbc70,
    0x289b7ec6, 0xeaa127fa, 0xd4ef3085, 0x04881d05,
    0xd9d4d039, 0xe6db99e5, 0x1fa27cf8, 0xc4ac5665]

  const T4: seq<bv32> := [
    0xf4292244, 0x432aff97, 0xab9423a7, 0xfc93a039,
    0x655b59c3, 0x8f0ccc92, 0xffeff47d, 0x85845dd1,
    0x6fa87e4f, 0xfe2ce6e0, 0xa3014314, 0x4e0811a1,
    0xf7537e82, 0xbd3af235, 0x2ad7d2bb, 0xeb86d391]

  function Plus(x: Word, y: Word): Word { Word(x.bits + y.bits) }

  function Rotate(w: Word, s: nat): Word
    requires 0 < s < 32
  {
    Word((w.bits << s) | (w.bits >> (32 - s)))
  }

  /** a = b + ((a + f + x + t) <<< s) */
  function Mix(a: Word, b: Word, f: Word, x: Word, s: nat, t: bv32): Word
    requires 0 < s < 32
  {
    Plus(b, Rotate(Plus(a, Plus(Plus(f, x), Word(t))), s))
  }

  /** Round, message word, shift and constant of a step. */
  datatype Plan = Plan(round: nat, k: nat, s: nat, t: bv32)

  /** The plan of the i-th of the 64 steps. */
  function Schedule(i: nat): (p: Plan)
    requires i < 64
    ensures p.k < 16 && 0 < p.s < 32
  {
    var j := i % 16;
    if i < 16 then Plan(1, j, [7, 12, 17, 22][i % 4], T1[j])
    else if i < 32 then Plan(2, (5 * j + 1) % 16, [5, 9, 14, 20][i % 4], T2[j])
    else if i < 48 then Plan(3, (3 * j + 5) % 16, [4, 11, 16, 23][i % 4], T3[j])
    else Plan(4, 7 * j % 16, [6, 10, 15, 21][i % 4], T4[j])
  }

  /** One step; the registers change roles from step to step. */
  function Stepped(w: Words, x: seq<Word>, i: nat): Words
    requires |x| == 16 && i < 64
  {
    var p := Schedule(i);
    Words(w.d, Mix(w.a, w.b, Mixing(p.round, w.b, w.c, w.d), x[p.k], p.s, p.t), w.b, w.c)
  }

  function Steps(w: Words, x: seq<Word>, n: nat): Words
    requires |x| == 16 && n <= 64
  {
    if n == 0 then w else Stepped(Steps(w, x, n - 1), x, n - 1)
  }

  /** Four bytes, low-order byte first. */
  function WordAt(b: seq<Byte>, i: nat): Word
    requires i + 4 <= |b|
  {
    Word((b[i] as int + 0x100 * b[i + 1] as int + 0x10000 * b[i + 2] as int + 0x1000000 * b[i + 3] as int) as bv32)
  }

  function Decoded(block: seq<Byte>): (x: seq<Word>)
    requires |block| == 64
    ensures |x| == 16
  {
    seq(16, i requires 0 <= i < 16 => WordAt(block, 4 * i))
  }

  function Compress(w: Words, block: seq<Byte>): Words
    requires |block| == 64
  {
    var r := Steps(w, Decoded(block), 64);
    Words(Plus(w.a, r.a), Plus(w.b, r.b), Plus(w.c, r.c), Plus(w.d, r.d))
  }

  function Blocks(w: Words, data: seq<Byte>): Words
    requires |data| % 64 == 0
    decreases |data|
  {
    if data == [] then w else Blocks(Compress(w, data[..64]), data[64..])
  }

  // ----- sections 3.1, 3.2 and 3.5: padding, length and output

  function Zeros(n: nat): (z: seq<Byte>)
    ensures |z| == n
  {
    seq(n, i => 0)
  }

  /** The length in bits, modulo 2^64, low-order word first. */
  function LengthBytes(len: nat): (b: seq<Byte>)
    ensures |b| == 8
  {
    var n := 8 * len % 0x1_0000_0000_0000_0000;
    Little(n % 0x1_0000_0000, 4) + Little(n / 0x1_0000_0000, 4)
  }

  /** The zeros that bring the length to 56 modulo 64 after the 0x80 byte. */
  function PadZeros(len: nat): (n: nat)
    ensures (len + 1 + n) % 64 == 56 && n < 64
  {
    if len % 64 < 56 then 55 - len % 64 else 119 - len % 64
  }

  /** The padding of section 3.1, then `len` as the length of section 3.2. */
  function Padded(m: seq<Byte>, len: nat): (p: seq<Byte>)
    ensures |p| % 64 == 0
  {
    assert (|m| + 1 + PadZeros(|m|) + 8) % 64 == 0;
    m + [0x80] + Zeros(PadZeros(|m|)) + LengthBytes(len)
  }

  function BytesOf(w: Word): seq<Byte> {
    Little(w.bits as int, 4)
  }

  function Output(w: Words): seq<Byte> {
    BytesOf(w.a) + BytesOf(w.b) + BytesOf(w.c) + BytesOf(w.d)
  }

  function FinalState(m: seq<Byte>, len: nat): Words {
    Blocks(INITIAL, Padded(m, len))
  }

  /** The digest of a message that is said to be `len` bytes long. */
  function DigestAs(m: seq<Byte>, len: nat): seq<Byte> {
    Output(FinalState(m, len))
  }

  function Digest(m: seq<Byte>): seq<Byte> {
    DigestAs(m, |m|)
  }

  lemma {:induction false} BlocksConcat(w: Words, a: seq<Byte>, b: seq<Byte>)
    requires |a| % 64 == 0 && |b| % 64 == 0
    ensures Blocks(w, a + b) == Blocks(Blocks(w, a), b)
    decreases |a|
  {
    hide Compress;
    if a == [] {
      assert a + b == b;
    } else {
      assert (a + b)[..64] == a[..64] && (a + b)[64..] == a[64..] + b;
      BlocksConcat(Compress(w, a[..64]), a[64..], b);
    }
  }
}
