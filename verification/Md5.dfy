/** `md5.c`: the streaming interface over a 128-byte buffer. */
module Md5 {
  import opened Basics
  import opened Md5Spec
  import opened Md5Rounds

  const TWO32 := 0x1_0000_0000
  const TWO64 := 0x1_0000_0000_0000_0000

  /** `n & ~63` */
  function Down64(n: nat): (r: nat)
    ensures r <= n && r % 64 == 0 && n - r == n % 64
  {
    n - n % 64
  }

  /** The state `w` has absorbed all of `m` but its end `rest`, in whole blocks. */
  ghost predicate Held(w: Words, rest: seq<Byte>, m: seq<Byte>) {
    var n := |m| - |rest|;
    n >= 0 && n % 64 == 0 && w == Blocks(INITIAL, m[..n]) && rest == m[n..]
  }

  /** The two words count `n` bytes modulo 2^64. */
  ghost predicate Counts(total0: nat, total1: nat, n: nat) {
    total0 < TWO32 && total1 < TWO32 && total1 * TWO32 + total0 == n % TWO64
  }

  lemma Absorb(w: Words, rest: seq<Byte>, m: seq<Byte>, d: seq<Byte>)
    requires Held(w, rest, m)
    ensures Held(w, rest + d, m + d)
  {
    var n := |m| - |rest|;
    assert (m + d)[..n] == m[..n];
    assert (m + d)[n..] == m[n..] + d;
  }

  lemma Flush(w: Words, rest: seq<Byte>, m: seq<Byte>, k: nat)
    requires Held(w, rest, m) && k <= |rest| && k % 64 == 0
    ensures Held(Blocks(w, rest[..k]), rest[k..], m)
  {
    hide Blocks;
    var n := |m| - |rest|;
    BlocksConcat(INITIAL, m[..n], rest[..k]);
    assert m[..n + k] == m[..n] + rest[..k];
    assert m[n + k..] == rest[k..];
  }

  lemma HeldBlocks(w: Words, m: seq<Byte>, blocks: seq<Byte>)
    requires Held(w, [], m) && |blocks| % 64 == 0
    ensures Held(Blocks(w, blocks), [], m + blocks)
  {
    hide Held, Blocks;
    Absorb(w, [], m, blocks);
    assert [] + blocks == blocks && blocks[..|blocks|] == blocks && blocks[|blocks|..] == [];
    Flush(w, blocks, m + blocks, |blocks|);
  }

  /** The first `n` bytes of `fillbuf`. */
  function Fill(n: nat): (f: seq<Byte>)
    requires 0 < n <= 64
    ensures |f| == n
  {
    [0x80] + Zeros(n - 1)
  }

  // ----- the length in bits

  /** A number below 2^32 as a 32-bit word, and the value of a word. */
  function Bits(n: nat): bv32
    requires n < TWO32
  {
    n as bv32
  }

  function Value(x: bv32): nat { x as nat }

  function Up3(x: bv32): bv32 { x << 3 }
  function Down29(x: bv32): bv32 { x >> 29 }
  function Low29(x: bv32): bv32 { x & 0x1fff_ffff }
  function Or(x: bv32, y: bv32): bv32 { x | y }

  /** The bytes of `total[0] << 3`. */
  function LowBits(total0: nat): (b: seq<Byte>)
    requires total0 < TWO32
    ensures |b| == 4
  {
    Little(Value(Up3(Bits(total0))), 4)
  }

  /** The bytes of `(total[1] << 3) | (total[0] >> 29)`. */
  function HighBits(total0: nat, total1: nat): (b: seq<Byte>)
    requires total0 < TWO32 && total1 < TWO32
    ensures |b| == 4
  {
    Little(Value(Or(Up3(Bits(total1)), Down29(Bits(total0)))), 4)
  }

  lemma HighLow(x: bv32)
    ensures Value(x) == Value(Down29(x)) * 0x2000_0000 + Value(Low29(x))
  {}

  lemma ShiftRight(x: bv32)
    ensures Value(Down29(x)) == Value(x) / 0x2000_0000
  {}

  lemma ShiftLeft(x: bv32)
    ensures Value(Up3(x)) == 8 * Value(Low29(x))
  {}

  /** The two operands of the `|` have no bit in common. */
  lemma OrIsPlus(x: bv32, y: bv32)
    ensures Value(Or(Up3(x), Down29(y))) == Value(Up3(x)) + Value(Down29(y))
  {
    NoCommonBit(x, y);
    var u, v := x << 3, y >> 29;
    assert Or(u, v) as int == u as int + v as int;
  }

  lemma NoCommonBit(x: bv32, y: bv32)
    ensures ((x << 3) | (y >> 29)) as int == (x << 3) as int + (y >> 29) as int
  {}

  lemma Below(x: bv32)
    ensures x as int < 0x8000_0000 ==> x < 0x8000_0000
  {}

  lemma ThereAndBack(x: bv32)
    ensures (x as int) as bv32 == x
  {}

  /** Every number below 2^32 is the value of a word. */
  function WordOf(n: nat): (x: bv32)
    requires n < TWO32
    ensures x as int == n
  {
    if n == 0 then 0
    else
      var y := WordOf(n / 2);
      Below(y);
      Double(y);
      if n % 2 == 0 then y << 1 else (y << 1) | 1
  }

  lemma BitsValue(n: nat)
    requires n < TWO32
    ensures Value(Bits(n)) == n
  {
    ThereAndBack(WordOf(n));
  }

  lemma Shifted(n: nat)
    requires n < TWO32
    ensures Value(Up3(Bits(n))) == 8 * n % TWO32 && Value(Down29(Bits(n))) == n / 0x2000_0000
  {
    hide *;
    var x := Bits(n);
    BitsValue(n);
    HighLow(x);
    ShiftRight(x);
    ShiftLeft(x);
    LowPartShifted(n, Value(Low29(x)));
  }

  lemma LowPartShifted(n: nat, low: nat)
    requires n < TWO32 && n == n / 0x2000_0000 * 0x2000_0000 + low
    ensures 8 * low == 8 * n % TWO32
  {}

  lemma BitsAreNumbers(total0: nat, total1: nat)
    requires total0 < TWO32 && total1 < TWO32
    ensures LowBits(total0) == Little(8 * total0 % TWO32, 4)
    ensures HighBits(total0, total1) == Little(8 * total1 % TWO32 + total0 / 0x2000_0000, 4)
  {
    hide Little, Bits, Value, Up3, Down29, Or;
    Shifted(total0);
    Shifted(total1);
    OrIsPlus(Bits(total1), Bits(total0));
  }

  lemma LengthWords(total0: nat, total1: nat, len: nat)
    requires Counts(total0, total1, len)
    ensures LengthBytes(len) == LowBits(total0) + HighBits(total0, total1)
  {
    BitsAreNumbers(total0, total1);
    BitsOf(total0, total1, len);
    hide Little, LowBits, HighBits, Counts;
  }

  /** The two words of the length in bits. */
  lemma BitsOf(total0: nat, total1: nat, len: nat)
    requires Counts(total0, total1, len)
    ensures var n := 8 * len % TWO64;
      n % TWO32 == 8 * total0 % TWO32 && n / TWO32 == 8 * total1 % TWO32 + total0 / 0x2000_0000
  {
    EightTimes(total0, total1);
    InBits(total0, total1, len);
    hide Counts;
    var low, high := 8 * total0 % TWO32, 8 * total1 % TWO32 + total0 / 0x2000_0000;
    TwoWords(high, low);
    LowPart(8 * len, 8 * (len / TWO64) + 8 * total1 / TWO32, high * TWO32 + low);
  }

  lemma TwoWords(high: nat, low: nat)
    requires high < TWO32 && low < TWO32
    ensures var n := high * TWO32 + low; n < TWO64 && n % TWO32 == low && n / TWO32 == high
  {}

  lemma InBits(total0: nat, total1: nat, len: nat)
    requires Counts(total0, total1, len)
    ensures var n := (8 * total1 % TWO32 + total0 / 0x2000_0000) * TWO32 + 8 * total0 % TWO32;
      8 * len == (8 * (len / TWO64) + 8 * total1 / TWO32) * TWO64 + n
  {
    EightTimes(total0, total1);
  }

  lemma EightTimes(total0: nat, total1: nat)
    requires total0 < TWO32 && total1 < TWO32
    ensures 8 * total0 % TWO32 + total0 / 0x2000_0000 * TWO32 == 8 * total0
    ensures 8 * total1 % TWO32 + 8 * total1 / TWO32 * TWO32 == 8 * total1
    ensures 8 * total1 % TWO32 + total0 / 0x2000_0000 < TWO32
  {}

  lemma LowPart(x: nat, q: nat, n: nat)
    requires x == q * TWO64 + n && n < TWO64
    ensures x % TWO64 == n
  {}

  function TailSize(bytes: nat): nat {
    if bytes < 56 then 64 else 128
  }

  /** What `md5_finish_ctx` processes last. */
  function Tail(pending: seq<Byte>, len: nat): (t: seq<Byte>)
    requires |pending| <= 64
    ensures |t| == TailSize(|pending|) && |t| % 64 == 0
  {
    pending + Fill(TailSize(|pending|) - 8 - |pending|) + LengthBytes(len)
  }

  function Closed(w: Words, pending: seq<Byte>, len: nat): Words
    requires |pending| <= 64
  {
    Blocks(w, Tail(pending, len))
  }

  lemma TailPads(pending: seq<Byte>, m: seq<Byte>, n: nat, len: nat)
    requires |pending| <= 64 && n + |pending| == |m| && n % 64 == 0 && pending == m[n..]
    ensures Padded(m, len) == m[..n] + Tail(pending, len)
  {
    hide LengthBytes;
    var size := TailSize(|pending|);
    assert PadZeros(|m|) == size - 9 - |pending|;
    assert Fill(size - 8 - |pending|) == [0x80] + Zeros(PadZeros(|m|));
    JoinPadding(m[..n], pending, [0x80], Zeros(PadZeros(|m|)), LengthBytes(len));
    assert m == m[..n] + pending;
  }

  lemma JoinPadding(a: seq<Byte>, b: seq<Byte>, c: seq<Byte>, d: seq<Byte>, e: seq<Byte>)
    ensures (a + b) + c + d + e == a + (b + (c + d) + e)
  {}

  /** It completes the padded message. */
  lemma FinalBlocks(w: Words, pending: seq<Byte>, m: seq<Byte>, len: nat)
    requires Held(w, pending, m) && |pending| <= 64
    ensures FinalState(m, len) == Closed(w, pending, len)
  {
    hide Blocks, Tail, Padded;
    var n := |m| - |pending|;
    TailPads(pending, m, n, len);
    BlocksConcat(INITIAL, m[..n], Tail(pending, len));
  }

  // ----- what the byte count loses

  /** What the double word increment falls short by when it adds `len` bytes and the low
      word is `low`: it carries at most one into the high word. */
  function Loss(low: nat, len: nat): (loss: nat)
    ensures loss % TWO32 == 0 && loss <= len
  {
    if len < TWO32 then 0 else (len / TWO32 + (low % TWO32 + len % TWO32) / TWO32 - 1) * TWO32
  }

  /** Nothing is lost exactly on less than 2^32 bytes, and on less than 2^33 as long as the
      low word does not overflow on the way. */
  lemma NothingLost(low: nat, len: nat)
    requires low < TWO32
    ensures Loss(low, len) == 0 <==> len < TWO32 || (len < 2 * TWO32 && low + len < 2 * TWO32)
  {}

  /** How many bytes top up a buffer of `buflen` bytes. */
  function TopUpSize(buflen: nat, len: nat): (add: nat)
    requires buflen <= 64
    ensures add <= len
  {
    if buflen == 0 then 0 else Min(len, 128 - buflen)
  }

  /** How many bytes of at least a block are processed without staying in the buffer. */
  function WholeSize(len: nat, aligned: bool): (used: nat)
    requires len >= 64
    ensures used <= len && len - used <= 64
  {
    if aligned then Down64(len) else (len - 1) / 64 * 64
  }

  /** What stays in the buffer after `len` more bytes. */
  function BufAfter(buflen: nat, len: nat, aligned: bool): (b: nat)
    requires buflen <= 64
    ensures b <= 64
  {
    var add := TopUpSize(buflen, len);
    if add == len then (if buflen + add > 64 then (buflen + add) % 64 else buflen + add)
    else
      var rest := len - add;
      var left := if rest >= 64 then rest - WholeSize(rest, aligned) else rest;
      if left == 64 then 0 else left
  }

  /** What `md5_process_bytes` loses on `len` bytes, after `at` bytes of which `buflen` are
      in the buffer: only the aligned path hands on many blocks at once. */
  function FedLoss(at: nat, buflen: nat, len: nat, aligned: bool): (loss: nat)
    requires buflen <= 64
    ensures loss % TWO32 == 0 && loss <= len
  {
    var add := TopUpSize(buflen, len);
    if aligned && len - add >= 64 then Loss((at + add) % TWO32, Down64(len - add)) else 0
  }

  /** The three parts of `md5_process_bytes`, in numbers. */
  lemma FedParts(at: nat, buflen: nat, len: nat, aligned: bool)
    requires buflen <= 64
    ensures var add := TopUpSize(buflen, len);
      var rest := len - add;
      var left := if rest >= 64 then rest - WholeSize(rest, aligned) else rest;
      && (buflen == 0 ==> add == 0)
      && BufAfter(buflen, len, aligned) ==
         (if add == len then (if buflen + add > 64 then (buflen + add) % 64 else buflen + add)
          else if left == 64 then 0 else left)
      && FedLoss(at, buflen, len, aligned) ==
         (if aligned && rest >= 64 then Loss((at + add) % TWO32, Down64(rest)) else 0)
  {
    hide Loss, WholeSize, Down64;
  }

  /** The length at the end of the message is right exactly when what was lost is a multiple
      of 2^61 bytes, that is of 2^64 bits. */
  lemma LengthIsRight(len: nat, lost: nat)
    requires lost <= len
    ensures LengthBytes(len - lost) == LengthBytes(len) <==> lost % 0x2000_0000_0000_0000 == 0
  {
    hide Little, FromLittle;
    var a, b := 8 * (len - lost) % TWO64, 8 * len % TWO64;
    LittleHalves(a);
    LittleHalves(b);
    if LengthBytes(len - lost) == LengthBytes(len) {
      assert LengthBytes(len)[..4] == LengthBytes(len - lost)[..4];
      assert LengthBytes(len)[4..] == LengthBytes(len - lost)[4..];
      assert a == b;
    }
    SameBits(len, lost);
  }

  lemma SameBits(len: nat, lost: nat)
    requires lost <= len
    ensures 8 * (len - lost) % TWO64 == 8 * len % TWO64 <==> lost % 0x2000_0000_0000_0000 == 0
  {}

  lemma LittleHalves(n: nat)
    requires n < TWO64
    ensures var b := Little(n % TWO32, 4) + Little(n / TWO32, 4);
      b[..4] == Little(n % TWO32, 4) && b[4..] == Little(n / TWO32, 4)
    ensures FromLittle(Little(n % TWO32, 4)) == n % TWO32 && FromLittle(Little(n / TWO32, 4)) == n / TWO32
  {
    hide Power256;
    Powers();
    LittleRoundTrip(n % TWO32, 4);
    LittleRoundTrip(n / TWO32, 4);
  }

  lemma HeldLength(w: Words, rest: seq<Byte>, m: seq<Byte>)
    requires Held(w, rest, m)
    ensures |rest| <= |m|
  {}

  /** `struct md5_ctx`; `total0` and `total1` are 32-bit words. */
  class Context {
    var words: Words
    var total0: nat
    var total1: nat
    var buflen: nat
    var buffer: array<Byte>

    /** The bytes `m` were fed in, of which the last `buflen` are still in the buffer, never
        more than 64; the count is short by `lost`. */
    ghost predicate Holds(m: seq<Byte>, lost: nat)
      reads this, buffer
    {
      && buffer.Length == 128 && buflen <= 64
      && Held(words, buffer[..buflen], m)
      && lost <= |m| - buflen && lost % TWO32 == 0
      && Counts(total0, total1, |m| - buflen - lost)
    }

    /** `md5_init_ctx`. */
    constructor ()
      ensures Holds([], 0) && buflen == 0 && fresh(buffer)
    {
      words := INITIAL;
      total0, total1 := 0, 0;
      buflen := 0;
      buffer := new Byte[128];
    }

    /** `memcpy` into the context's buffer. */
    method Store(at: nat, data: seq<Byte>)
      requires at + |data| <= buffer.Length
      modifies buffer
      ensures buffer[..at] == old(buffer[..at])
      ensures buffer[at..at + |data|] == data
      ensures buffer[at + |data|..] == old(buffer[at + |data|..])
    {
      var k := 0;
      while k < |data|
        invariant 0 <= k <= |data|
        invariant forall i :: 0 <= i < at ==> buffer[i] == old(buffer[i])
        invariant forall i :: 0 <= i < k ==> buffer[at + i] == data[i]
        invariant forall i :: at + k <= i < buffer.Length ==> buffer[i] == old(buffer[i])
      {
        buffer[at + k] := data[k];
        k := k + 1;
      }
    }

    /** `md5_process_block`, on whole blocks. */
    method ProcessBlock(data: seq<Byte>, ghost n: nat)
      requires |data| % 64 == 0 && Counts(total0, total1, n)
      modifies this`words, this`total0, this`total1
      ensures words == Blocks(old(words), data)
      ensures Counts(total0, total1, n + |data| - Loss(n % TWO32, |data|))
    {
      hide Compress, Blocks, Loss, Counts;
      AddTotal(|data|, n);
      var v, rest := words, data;
      while rest != []
        invariant |rest| % 64 == 0
        invariant Blocks(v, rest) == Blocks(old(words), data)
        invariant Counts(total0, total1, n + |data| - Loss(n % TWO32, |data|))
        decreases |rest|
      {
        BlocksUnfold(v, rest);
        v := Block(v, rest[..64]);
        rest := rest[64..];
      }
      BlocksEnd(v);
      words := v;
    }

    /** Process the first `k` bytes of the buffer and move the rest to its front. */
    method Drain(k: nat, ghost m: seq<Byte>, ghost n: nat)
      requires buffer.Length == 128 && buflen <= 128 && Held(words, buffer[..buflen], m) && Counts(total0, total1, n)
      requires k <= buflen && k % 64 == 0
      modifies this`words, this`total0, this`total1, this`buflen, buffer
      ensures buflen == old(buflen) - k && Held(words, buffer[..buflen], m) && Counts(total0, total1, n + k)
    {
      hide Blocks;
      ghost var pending := buffer[..buflen];
      Flush(words, pending, m, k);
      assert buffer[..k] == pending[..k];
      assert buffer[k..buflen] == pending[k..];
      ProcessBlock(buffer[..k], n);
      Store(0, buffer[k..buflen]);
      buflen := buflen - k;
      assert buffer[..buflen] == buffer[0..0 + buflen];
    }

    /** The first part of `md5_process_bytes`: top up a non-empty buffer. */
    method TopUp(data: seq<Byte>, ghost m: seq<Byte>, ghost lost: nat) returns (add: nat)
      requires Holds(m, lost) && buflen != 0
      modifies this`words, this`total0, this`total1, this`buflen, buffer
      ensures add == TopUpSize(old(buflen), |data|) && Holds(m + data[..add], lost)
      ensures buflen == if old(buflen) + add > 64 then (old(buflen) + add) % 64 else old(buflen) + add
      ensures add < |data| ==> buflen == 0
    {
      hide Held, Blocks, Counts;
      var leftOver := buflen;
      add := if 128 - leftOver > |data| then |data| else 128 - leftOver;
      Absorb(words, buffer[..buflen], m, data[..add]);
      Store(leftOver, data[..add]);
      buflen := buflen + add;
      assert buffer[..buflen] == buffer[..leftOver] + buffer[leftOver..leftOver + add];
      ghost var n := |m| - leftOver - lost;
      assert |m + data[..add]| - buflen - lost == n;
      if buflen > 64 {
        Drain(Down64(buflen), m + data[..add], n);
      }
    }

    /** The middle part of `md5_process_bytes`: whole blocks, straight from the data if it
        is aligned, else through the buffer and only while more than a block is left. */
    method WholeBlocks(data: seq<Byte>, aligned: bool, ghost m: seq<Byte>, ghost lost: nat) returns (used: nat)
      requires Holds(m, lost) && buflen == 0 && 64 <= |data|
      modifies this`words, this`total0, this`total1, buffer
      ensures used == WholeSize(|data|, aligned) && buflen == 0
      ensures Holds(m + data[..used], lost + if aligned then Loss(|m| % TWO32, Down64(|data|)) else 0)
    {
      hide Held, Blocks, Counts, Loss;
      if !aligned {
        used := 0;
        assert m + data[..0] == m;
        while |data| - used > 64
          invariant used < |data| && used % 64 == 0 && Holds(m + data[..used], lost) && buflen == 0
          decreases |data| - used
        {
          ThroughBuffer(data[used..used + 64], m + data[..used], lost);
          assert m + data[..used] + data[used..used + 64] == m + data[..used + 64];
          used := used + 64;
        }
      } else {
        used := Down64(|data|);
        Straight(data[..used], m, lost);
      }
    }

    method ThroughBuffer(block: seq<Byte>, ghost m: seq<Byte>, ghost lost: nat)
      requires Holds(m, lost) && buflen == 0 && |block| == 64
      modifies this`words, this`total0, this`total1, buffer
      ensures Holds(m + block, lost) && buflen == 0
    {
      hide Held, Blocks, Counts;
      Store(0, block);
      assert buffer[..64] == buffer[0..0 + 64];
      assert buffer[..0] == old(buffer[..0]) == [];
      Straight(buffer[..64], m, lost);
    }

    method Straight(blocks: seq<Byte>, ghost m: seq<Byte>, ghost lost: nat)
      requires Holds(m, lost) && buflen == 0 && |blocks| % 64 == 0
      modifies this`words, this`total0, this`total1
      ensures Holds(m + blocks, lost + Loss(|m| % TWO32, |blocks|)) && buflen == 0
    {
      hide Held, Blocks, Counts, Loss;
      assert buffer[..0] == [];
      HeldBlocks(words, m, blocks);
      SameLow(|m|, lost);
      ProcessBlock(blocks, |m| - lost);
    }

    /** The first two parts of `md5_process_bytes`; at most a block is left then. */
    method FeedWhole(data: seq<Byte>, aligned: bool, ghost m: seq<Byte>, ghost lost: nat) returns (used: nat)
      requires Holds(m, lost)
      modifies this`words, this`total0, this`total1, this`buflen, buffer
      ensures used <= |data| && |data| - used <= 64 && (used < |data| ==> buflen == 0)
      ensures Holds(m + data[..used], lost + FedLoss(|m|, old(buflen), |data|, aligned))
      ensures BufAfter(old(buflen), |data|, aligned) ==
        if used == |data| then buflen else if |data| - used == 64 then 0 else |data| - used
    {
      hide Context.Holds, Loss, WholeSize, TopUpSize, BufAfter, FedLoss, Down64;
      Bounds(m, lost);
      FedParts(|m|, buflen, |data|, aligned);
      used := 0;
      assert m + data[..0] == m;
      if buflen != 0 {
        used := TopUp(data, m, lost);
      }
      if |data| - used >= 64 {
        var n := WholeBlocks(data[used..], aligned, m + data[..used], lost);
        assert m + data[..used] + data[used..][..n] == m + data[..used + n];
        used := used + n;
      }
    }

    /** `md5_process_bytes`. */
    method ProcessBytes(data: seq<Byte>, aligned: bool, ghost m: seq<Byte>, ghost lost: nat)
      requires Holds(m, lost)
      modifies this`words, this`total0, this`total1, this`buflen, buffer
      ensures Holds(m + data, lost + FedLoss(|m|, old(buflen), |data|, aligned))
      ensures buflen == BufAfter(old(buflen), |data|, aligned)
    {
      hide Context.Holds, BufAfter, FedLoss;
      Bounds(m, lost);
      ghost var lost' := lost + FedLoss(|m|, buflen, |data|, aligned);
      var used := FeedWhole(data, aligned, m, lost);
      if |data| - used > 0 {
        Remainder(data[used..], m + data[..used], lost');
        assert m + data[..used] + data[used..] == m + data;
      } else {
        assert data[..used] == data;
      }
    }

    lemma Bounds(m: seq<Byte>, lost: nat)
      requires Holds(m, lost)
      ensures buflen <= 64
    {}

    /** The last part of `md5_process_bytes`: move remaining bytes into the buffer. */
    method Remainder(data: seq<Byte>, ghost m: seq<Byte>, ghost lost: nat)
      requires Holds(m, lost) && buflen == 0 && |data| <= 64
      modifies this`words, this`total0, this`total1, this`buflen, buffer
      ensures Holds(m + data, lost) && buflen == if |data| == 64 then 0 else |data|
    {
      hide Held, Blocks, Counts;
      Absorb(words, buffer[..buflen], m, data);
      var leftOver := buflen;
      Store(leftOver, data);
      leftOver := leftOver + |data|;
      assert buffer[..leftOver] == buffer[..buflen] + buffer[buflen..buflen + |data|];
      buflen := leftOver;
      if leftOver >= 64 {
        Drain(64, m + data, |m| - lost);
      }
    }

    /** `md5_finish_ctx`: the digest of everything fed in, with the length that was
        counted. */
    method Finish(ghost m: seq<Byte>, ghost lost: nat) returns (digest: seq<Byte>)
      requires Holds(m, lost)
      modifies this`words, this`total0, this`total1, buffer
      ensures digest == DigestAs(m, |m| - lost)
    {
      hide Held, Blocks, Counts, Output, Tail, FinalState, Loss;
      var bytes := buflen;
      ghost var pending := buffer[..bytes];
      HeldLength(words, pending, m);
      LittleLost(|m| - bytes - lost, bytes);
      AddTotal(bytes, |m| - bytes - lost);
      CloseBuffer(bytes, |m| - lost);
      FinalBlocks(words, pending, m, |m| - lost);
      ProcessBlock(buffer[..TailSize(bytes)], |m| - lost);
      digest := Output(words);
    }

    /** The writes of `md5_finish_ctx` behind the pending bytes: the length at the end of
        the last block, then the fill bytes before it. */
    method CloseBuffer(bytes: nat, ghost len: nat)
      requires buffer.Length == 128 && bytes <= 64 && Counts(total0, total1, len)
      modifies buffer
      ensures buffer[..TailSize(bytes)] == Tail(old(buffer[..bytes]), len)
    {
      hide LowBits, HighBits, Fill, LengthBytes;
      var size := TailSize(bytes);
      LengthWords(total0, total1, len);
      Store(size - 8, LowBits(total0));
      ghost var s1 := buffer[..];
      Store(size - 4, HighBits(total0, total1));
      ghost var s2 := buffer[..];
      assert s2[size - 8..size] == LowBits(total0) + HighBits(total0, total1) by {
        assert s2[size - 8..size - 4] == s1[size - 8..size - 4];
      }
      assert s2[..bytes] == old(buffer[..bytes]) by { assert s1[..bytes] == old(buffer[..bytes]); }
      Store(bytes, Fill(size - 8 - bytes));
      ghost var s3 := buffer[..];
      assert s3[size - 8..] == s2[size - 8..];
      assert s3[size - 8..size] == s2[size - 8..size] by {
        assert s3[size - 8..size] == s3[size - 8..][..8];
        assert s2[size - 8..size] == s2[size - 8..][..8];
      }
      assert buffer[size - 8..size] == s2[size - 8..size];
      assert buffer[..size] == buffer[..bytes] + buffer[bytes..size - 8] + buffer[size - 8..size];
    }

    /** The double word increment of the byte count. */
    method AddTotal(len: nat, ghost n: nat)
      requires Counts(total0, total1, n)
      modifies this`total0, this`total1
      ensures Counts(total0, total1, n + len - Loss(n % TWO32, len))
    {
      Increment(total0, total1, n, len);
      total0 := (total0 + len) % TWO32;
      if total0 < len {
        total1 := (total1 + 1) % TWO32;
      }
    }
  }

  /** The increment counts all bytes but those lost. */
  lemma Increment(total0: nat, total1: nat, n: nat, len: nat)
    requires Counts(total0, total1, n)
    ensures var low := (total0 + len) % TWO32;
      Counts(low, if low < len then (total1 + 1) % TWO32 else total1, n + len - Loss(n % TWO32, len))
  {
    var c := total1 * TWO32 + total0;
    LowWord(n, total0, total1);
    var carry := (total0 + len % TWO32) / TWO32;
    var low := (total0 + len) % TWO32;
    Carried(total0, len);
    if low < len {
      assert n + len - Loss(total0, len) == n - total0 + TWO32 + low;
      HighWord(n, total0, total1, 1, low);
    } else {
      assert n + len - Loss(total0, len) == n - total0 + low;
      HighWord(n, total0, total1, 0, low);
    }
  }

  lemma LowWord(n: nat, total0: nat, total1: nat)
    requires Counts(total0, total1, n)
    ensures n % TWO32 == total0
  {}

  lemma Carried(total0: nat, len: nat)
    requires total0 < TWO32
    ensures var low := (total0 + len) % TWO32;
      total0 + len - Loss(total0, len) == low + if low < len then TWO32 else 0
  {}

  lemma HighWord(n: nat, total0: nat, total1: nat, up: nat, low: nat)
    requires Counts(total0, total1, n) && up <= 1 && low < TWO32
    ensures Counts(low, (total1 + up) % TWO32, n - total0 + up * TWO32 + low)
  {}

  lemma SameLow(n: nat, lost: nat)
    requires lost <= n && lost % TWO32 == 0
    ensures (n - lost) % TWO32 == n % TWO32
  {}

  lemma LittleLost(n: nat, len: nat)
    requires len < TWO32
    ensures Loss(n % TWO32, len) == 0
  {}

  lemma BlocksUnfold(w: Words, d: seq<Byte>)
    requires |d| % 64 == 0 && d != []
    ensures |d| >= 64 && |d[64..]| % 64 == 0
    ensures Blocks(w, d) == Blocks(Compress(w, d[..64]), d[64..])
  {
    hide Compress;
  }

  lemma BlocksEnd(w: Words)
    ensures Blocks(w, []) == w
  {}

  function Joined(chunks: seq<seq<Byte>>): seq<Byte> {
    if chunks == [] then [] else Joined(chunks[..|chunks| - 1]) + chunks[|chunks| - 1]
  }

  /** The chunks one after the other: a chunk alone is itself, and lists of chunks join up. */
  lemma {:induction false} JoinedInOrder(a: seq<seq<Byte>>, m: seq<Byte>, b: seq<seq<Byte>>)
    ensures Joined(a + [m] + b) == Joined(a) + m + Joined(b)
    decreases |b|
  {
    var all := a + [m] + b;
    if b == [] {
      assert all[..|a|] == a;
    } else {
      var n := |b| - 1;
      JoinedInOrder(a, m, b[..n]);
      assert all[..|all| - 1] == a + [m] + b[..n];
    }
  }

  /** What is in the buffer after the chunks. */
  function BufOf(chunks: seq<seq<Byte>>, aligned: seq<bool>): (b: nat)
    requires |aligned| == |chunks|
    ensures b <= 64
  {
    if chunks == [] then 0
    else
      var n := |chunks| - 1;
      BufAfter(BufOf(chunks[..n], aligned[..n]), |chunks[n]|, aligned[n])
  }

  /** What the count loses on the chunks. */
  function LossOf(chunks: seq<seq<Byte>>, aligned: seq<bool>): (lost: nat)
    requires |aligned| == |chunks|
    ensures lost <= |Joined(chunks)|
  {
    if chunks == [] then 0
    else
      var n := |chunks| - 1;
      LossOf(chunks[..n], aligned[..n])
      + FedLoss(|Joined(chunks[..n])|, BufOf(chunks[..n], aligned[..n]), |chunks[n]|, aligned[n])
  }

  lemma FedNone(chunks: seq<seq<Byte>>, aligned: seq<bool>)
    requires |aligned| == |chunks|
    ensures Joined(chunks[..0]) == [] && BufOf(chunks[..0], aligned[..0]) == 0 && LossOf(chunks[..0], aligned[..0]) == 0
  {}

  lemma FedNext(chunks: seq<seq<Byte>>, aligned: seq<bool>, i: nat)
    requires |aligned| == |chunks| && i < |chunks|
    ensures Joined(chunks[..i + 1]) == Joined(chunks[..i]) + chunks[i]
    ensures BufOf(chunks[..i + 1], aligned[..i + 1]) ==
      BufAfter(BufOf(chunks[..i], aligned[..i]), |chunks[i]|, aligned[i])
    ensures LossOf(chunks[..i + 1], aligned[..i + 1]) ==
      LossOf(chunks[..i], aligned[..i])
      + FedLoss(|Joined(chunks[..i])|, BufOf(chunks[..i], aligned[..i]), |chunks[i]|, aligned[i])
  {
    hide FedLoss, BufAfter;
    assert chunks[..i + 1][..i] == chunks[..i] && aligned[..i + 1][..i] == aligned[..i];
  }

  /** Nothing is lost if each chunk is unaligned or less than 2^32 bytes long. */
  lemma {:induction false} SmallChunks(chunks: seq<seq<Byte>>, aligned: seq<bool>)
    requires |aligned| == |chunks| && forall i :: 0 <= i < |chunks| && aligned[i] ==> |chunks[i]| < TWO32
    ensures LossOf(chunks, aligned) == 0
  {
    if chunks != [] {
      var n := |chunks| - 1;
      SmallChunks(chunks[..n], aligned[..n]);
      SmallChunk(|Joined(chunks[..n])|, BufOf(chunks[..n], aligned[..n]), |chunks[n]|, aligned[n]);
    }
  }

  lemma SmallChunk(at: nat, buflen: nat, len: nat, aligned: bool)
    requires buflen <= 64 && (!aligned || len < TWO32)
    ensures FedLoss(at, buflen, len, aligned) == 0
  {}

  /** However a message is cut into chunks, and whichever of them are aligned, the result is
      the digest of the whole message with the length that was counted. */
  method Stream(chunks: seq<seq<Byte>>, aligned: seq<bool>) returns (digest: seq<Byte>)
    requires |aligned| == |chunks|
    ensures digest == DigestAs(Joined(chunks), |Joined(chunks)| - LossOf(chunks, aligned))
    ensures (forall i :: 0 <= i < |chunks| && aligned[i] ==> |chunks[i]| < TWO32) ==> digest == Digest(Joined(chunks))
  {
    hide DigestAs, Joined, Context.Holds, FedLoss, BufAfter, LossOf, BufOf;
    var ctx := new Context();
    FedNone(chunks, aligned);
    var i := 0;
    while i < |chunks|
      invariant 0 <= i <= |chunks|
      invariant fresh(ctx) && fresh(ctx.buffer) && ctx.Holds(Joined(chunks[..i]), LossOf(chunks[..i], aligned[..i]))
      invariant ctx.buflen == BufOf(chunks[..i], aligned[..i])
    {
      FedNext(chunks, aligned, i);
      ctx.ProcessBytes(chunks[i], aligned[i], Joined(chunks[..i]), LossOf(chunks[..i], aligned[..i]));
      i := i + 1;
    }
    assert chunks[..i] == chunks && aligned[..i] == aligned;
    digest := ctx.Finish(Joined(chunks), LossOf(chunks, aligned));
    if forall i :: 0 <= i < |chunks| && aligned[i] ==> |chunks[i]| < TWO32 {
      SmallChunks(chunks, aligned);
    }
  }

  /** `md5_buffer`: the digest of the data with the length that was counted, which is the
      right one exactly on unaligned data or less than 2^33 bytes, as far as a 64-bit
      length goes. */
  method Buffer(data: seq<Byte>, aligned: bool) returns (digest: seq<Byte>)
    ensures digest == DigestAs(data, |data| - FedLoss(0, 0, |data|, aligned))
    ensures FedLoss(0, 0, |data|, aligned) == 0 <==> !aligned || |data| < 2 * TWO32
    ensures !aligned || |data| < 2 * TWO32 ==> digest == Digest(data)
  {
    hide FedLoss, DigestAs;
    digest := Counted(data, aligned);
    OneCall(|data|, aligned);
    DigestIs(data);
  }

  method Counted(data: seq<Byte>, aligned: bool) returns (digest: seq<Byte>)
    ensures digest == DigestAs(data, |data| - FedLoss(0, 0, |data|, aligned))
  {
    hide *;
    var ctx := new Context();
    ctx.ProcessBytes(data, aligned, [], 0);
    assert [] + data == data;
    digest := ctx.Finish(data, FedLoss(0, 0, |data|, aligned));
  }

  lemma DigestIs(m: seq<Byte>)
    ensures Digest(m) == DigestAs(m, |m|)
  {}

  /** 2^33 aligned bytes in one call: the length at the end of the message is wrong. */
  lemma LongBuffer(data: seq<Byte>)
    requires |data| == 0x2_0000_0000
    ensures LengthBytes(|data| - FedLoss(0, 0, |data|, true)) != LengthBytes(|data|)
  {
    hide LengthBytes, FedLoss;
    LostOnce(|data|);
    LengthIsRight(|data|, TWO32);
  }

  lemma LostOnce(len: nat)
    requires len == 2 * TWO32
    ensures FedLoss(0, 0, len, true) == TWO32
  {
    hide Loss;
    assert Down64(len) == len;
    LossFromZero(len);
  }

  lemma LossFromZero(len: nat)
    requires len >= TWO32
    ensures Loss(0, len) == (len / TWO32 - 1) * TWO32
  {}

  lemma OneCall(len: nat, aligned: bool)
    ensures FedLoss(0, 0, len, aligned) == 0 <==> !aligned || len < 2 * TWO32
  {
    NothingLost(0, Down64(len));
  }
}
