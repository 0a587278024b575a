/** `fifo_buf.c`: a ring buffer of bytes that behaves as a bounded queue. */
module Fifo {
  import opened Basics

  /** How much of `data` fits behind `held` in a buffer of `size` bytes. */
  function Fits(size: nat, held: seq<Byte>, data: seq<Byte>): nat
    requires |held| <= size
  {
    Min(|data|, size - |held|)
  }

  /** The slot of the i-th byte held. */
  function Slot(size: nat, pos: nat, i: nat): nat {
    if pos + i < size then pos + i else pos + i - size
  }

  lemma TakeDrop(s: seq<Byte>, k: nat, n: nat)
    requires k + n <= |s|
    ensures s[..k] + s[k..][..n] == s[..k + n]
    ensures s[k..][n..] == s[k + n..]
  {}

  lemma MoreOf(held: seq<Byte>, data: seq<Byte>, k: nat, n: nat)
    requires k + n <= |data|
    ensures held + data[..k] + data[k..k + n] == held + data[..k + n]
  {
    assert data[..k] + data[k..k + n] == data[..k + n];
  }

  class FifoBuf {
    var buf: array<Byte>
    var pos: nat
    var fill: nat

    ghost predicate Valid()
      reads this
    {
      buf.Length > 0 && pos < buf.Length && fill <= buf.Length
    }

    /** The bytes held, oldest first. */
    ghost function Contents(): (s: seq<Byte>)
      requires Valid()
      reads this, buf
      ensures |s| == fill
      ensures forall i :: 0 <= i < fill ==> s[i] == buf[Slot(buf.Length, pos, i)]
    {
      if pos + fill <= buf.Length then buf[pos..pos + fill]
      else buf[pos..] + buf[..pos + fill - buf.Length]
    }

    /** `fifo_buf_init`. */
    constructor (size: nat)
      requires size > 0
      ensures Valid() && fresh(buf) && buf.Length == size && Contents() == []
    {
      buf := new Byte[size];
      pos, fill := 0, 0;
    }

    /** `memcpy` into the buffer. */
    method CopyIn(at: nat, data: seq<Byte>)
      requires at + |data| <= buf.Length
      modifies buf
      ensures forall i :: 0 <= i < buf.Length ==>
        buf[i] == if at <= i < at + |data| then data[i - at] else old(buf[i])
    {
      var k := 0;
      while k < |data|
        invariant 0 <= k <= |data|
        invariant forall i :: 0 <= i < buf.Length ==>
          buf[i] == if at <= i < at + k then data[i - at] else old(buf[i])
      {
        buf[at + k] := data[k];
        k := k + 1;
      }
    }

    /** One turn of the loop of `fifo_buf_put`: up to the end of the array at most. */
    method PutTurn(data: seq<Byte>, written: nat) returns (toWrite: nat)
      requires Valid() && fill < buf.Length && written < |data|
      modifies this`fill, buf
      ensures 0 < toWrite <= |data| - written && old(fill) + toWrite <= buf.Length
      ensures Valid() && fill == old(fill) + toWrite && Contents() == old(Contents()) + data[written..written + toWrite]
    {
      hide FifoBuf.Contents;
      var writeFrom;
      if pos + fill < buf.Length {
        writeFrom := pos + fill;
        toWrite := buf.Length - (pos + fill);
      } else {
        writeFrom := fill - buf.Length + pos;
        toWrite := buf.Length - fill;
      }
      if toWrite > |data| - written {
        toWrite := |data| - written;
      }
      PutChunk(writeFrom, data[written..written + toWrite]);
    }

    /** A chunk that does not wrap. */
    method PutChunk(at: nat, chunk: seq<Byte>)
      requires Valid() && fill + |chunk| <= buf.Length
      requires at == Slot(buf.Length, pos, fill) && at + |chunk| <= buf.Length
      modifies this`fill, buf
      ensures Valid() && fill == old(fill) + |chunk|
      ensures Contents() == old(Contents()) + chunk
    {
      hide FifoBuf.Contents;
      ghost var held := Contents();
      CopyIn(at, chunk);
      fill := fill + |chunk|;
      forall i | 0 <= i < fill ensures Contents()[i] == (held + chunk)[i] {}
    }

    /** `fifo_buf_put`: the longest prefix that fits goes to the end. */
    method Put(data: seq<Byte>) returns (written: nat)
      requires Valid()
      modifies this`fill, buf
      ensures Valid()
      ensures written == Fits(buf.Length, old(Contents()), data)
      ensures written <= |data| && Contents() == old(Contents()) + data[..written]
      ensures written == |data| || |Contents()| == buf.Length
    {
      hide FifoBuf.Contents;
      written := 0;
      while fill < buf.Length && written < |data|
        invariant Valid() && written <= |data|
        invariant fill == old(fill) + written
        invariant Contents() == old(Contents()) + data[..written]
        decreases |data| - written
      {
        var toWrite := PutTurn(data, written);
        MoreOf(old(Contents()), data, written, toWrite);
        written := written + toWrite;
      }
    }

    lemma Unwrapped(p: nat, k: nat, n: nat)
      requires Valid() && p == Slot(buf.Length, pos, k) && p + n <= buf.Length && k + n <= fill
      ensures buf[p..p + n] == Contents()[k..k + n]
    {
      hide FifoBuf.Contents;
    }

    /** `fifo_buf_peek`: the longest available prefix, nothing removed. */
    method Peek(size: nat) returns (out: seq<Byte>)
      requires Valid()
      ensures out == Contents()[..Min(size, |Contents()|)]
    {
      hide FifoBuf.Contents;
      out := [];
      var left, p := fill, pos;
      while left > 0 && |out| < size
        invariant 0 <= left && |out| + left == fill && |out| <= size
        invariant left > 0 ==> p == Slot(buf.Length, pos, |out|) && p < buf.Length
        invariant out == Contents()[..|out|]
        decreases left
      {
        var toCopy := if p + left <= buf.Length then left else buf.Length - p;
        if toCopy > size - |out| {
          toCopy := size - |out|;
        }
        Unwrapped(p, |out|, toCopy);
        assert Contents()[..|out| + toCopy] == Contents()[..|out|] + Contents()[|out|..|out| + toCopy];
        out := out + buf[p..p + toCopy];
        left := left - toCopy;
        p := p + toCopy;
        if p == buf.Length {
          p := 0;
        }
      }
    }

    /** One turn of the loop of `fifo_buf_get`: up to the end of the array at most. */
    method GetTurn(want: nat) returns (chunk: seq<Byte>)
      requires Valid() && fill > 0 && want > 0
      modifies this`pos, this`fill
      ensures Valid() && 0 < |chunk| <= want && |chunk| <= |old(Contents())| && fill + |chunk| == old(fill)
      ensures chunk == old(Contents())[..|chunk|] && Contents() == old(Contents())[|chunk|..]
    {
      hide FifoBuf.Contents;
      var toCopy := if pos + fill <= buf.Length then fill else buf.Length - pos;
      if toCopy > want {
        toCopy := want;
      }
      chunk := GetChunk(toCopy);
    }

    /** Copying `n` bytes out of the array. */
    method GetChunk(n: nat) returns (chunk: seq<Byte>)
      requires Valid() && n <= fill && pos + n <= buf.Length
      modifies this`pos, this`fill
      ensures Valid() && chunk == old(Contents())[..n] && Contents() == old(Contents())[n..]
    {
      hide FifoBuf.Contents;
      ghost var held := Contents();
      Unwrapped(pos, 0, n);
      chunk := buf[pos..pos + n];
      fill := fill - n;
      pos := pos + n;
      if pos == buf.Length {
        pos := 0;
      }
      forall i | 0 <= i < fill ensures Contents()[i] == held[n..][i] {}
    }

    /** `fifo_buf_get`: the longest available prefix, removed. */
    method Get(size: nat) returns (out: seq<Byte>)
      requires Valid()
      modifies this`pos, this`fill
      ensures Valid()
      ensures out == old(Contents())[..Min(size, |old(Contents())|)]
      ensures Contents() == old(Contents())[|out|..]
    {
      hide FifoBuf.Contents;
      ghost var all := Contents();
      out := [];
      while fill > 0 && |out| < size
        invariant Valid() && |out| <= size && |out| + fill == |all|
        invariant out == all[..|out|]
        invariant Contents() == all[|out|..]
        decreases fill
      {
        var chunk := GetTurn(size - |out|);
        TakeDrop(all, |out|, |chunk|);
        out := out + chunk;
      }
    }

    /** `fifo_buf_get_space`. */
    method GetSpace() returns (space: nat)
      requires Valid()
      ensures space == buf.Length - |Contents()|
    {
      return buf.Length - fill;
    }

    /** `fifo_buf_clear`: empty from any position. */
    method Clear()
      requires Valid()
      modifies this`fill
      ensures Valid() && Contents() == []
    {
      fill := 0;
    }
  }

  /** Puts and gets of whole frames keep whole frames. */
  lemma WholeFrames(bpf: nat, size: nat, held: seq<Byte>, data: seq<Byte>, want: nat)
    requires bpf > 0 && size % bpf == 0 && |held| <= size && |held| % bpf == 0 && |data| % bpf == 0 && want % bpf == 0
    ensures Fits(size, held, data) % bpf == 0
    ensures Min(want, |held|) % bpf == 0
  {
    assert (size - |held|) % bpf == 0 by { DifferenceOfMultiples(size, |held|, bpf); }
  }

  lemma DifferenceOfMultiples(a: nat, b: nat, m: nat)
    requires m > 0 && a % m == 0 && b % m == 0 && b <= a
    ensures (a - b) % m == 0
  {
    var k, d, r := a / m - b / m, (a - b) / m, (a - b) % m;
    assert a - b == k * m;
    assert a - b == d * m + r;
    assert (k - d) * m == r;
    MultipleBound(k - d, m);
  }
}
