/** `protocol.c`: packets byte by byte, and what the receiver makes of them. */
module WirePackets {
  import opened Basics
  import opened WireFormat

  // ----- numbers

  /** An `int` is sent low-order byte first, a negative one in two's complement. */
  lemma IntBytes(n: Int32, a: Byte, b: Byte, c: Byte, d: Byte)
    requires
      (if n < 0 then n + 0x1_0000_0000 else n) ==
      a as int + 0x100 * b as int + 0x10000 * c as int + 0x1000000 * d as int
    ensures EncodeInt(n) == [a, b, c, d]
  {
    hide Little;
    FourBytes(if n < 0 then n + 0x1_0000_0000 else n, a, b, c, d);
  }

  /** A time takes eight bytes, and so do its two halves, the low-order one first. */
  lemma TimeBytes(n: Int64, low: Int32, high: Int32)
    requires n == high * 0x1_0000_0000 + if low < 0 then low + 0x1_0000_0000 else low
    ensures EncodeTime(n) == EncodeInt(low) + EncodeInt(high)
  {
    hide Little;
    var l := if low < 0 then low + 0x1_0000_0000 else low;
    var h := if high < 0 then high + 0x1_0000_0000 else high;
    var m := if n < 0 then n + 0x1_0000_0000_0000_0000 else n;
    assert m == l + h * 0x1_0000_0000;
    LittleHalf(m, l, h);
  }

  lemma LittleHalf(m: nat, l: nat, h: nat)
    requires l < 0x1_0000_0000 && m == l + h * 0x1_0000_0000
    ensures Little(m, 8) == Little(l, 4) + Little(h, 4)
  {
    hide Power256;
    Powers();
    LittleSplit(m, l, h, 4, 4);
  }

  lemma {:induction false} LittleSplit(m: nat, l: nat, h: nat, a: nat, b: nat)
    requires l < Power256(a) && m == l + h * Power256(a)
    ensures Little(m, a + b) == Little(l, a) + Little(h, b)
  {
    hide Little;
    if a == 0 {
      LittleEmpty(l);
    } else {
      var p, r := Power256(a - 1), l % 256;
      var rest := l / 256 + h * p;
      Regroup(m, l, h, p, rest);
      LittleSplit(rest, l / 256, h, a - 1, b);
      LittleMore(m, a - 1 + b, r, rest);
      LittleMore(l, a - 1, r, l / 256);
    }
  }

  lemma LittleEmpty(n: nat)
    ensures Little(n, 0) == []
  {}

  lemma Regroup(m: nat, l: nat, h: nat, p: nat, rest: nat)
    requires m == l + h * (256 * p) && rest == l / 256 + h * p && l < 256 * p
    ensures m == l % 256 + 256 * rest && l / 256 < p
  {
    assert h * (256 * p) == 256 * (h * p);
  }

  // ----- what arrives

  function Value(x: bv32): nat { x as nat }

  function Half(x: bv32): bv32 { x >> 1 }

  predicate Odd(x: bv32) { x & 1 != 0 }

  function Twice(x: bv32, odd: bool): bv32 { if odd then (x << 1) | 1 else x << 1 }

  /** The bit of TAGS_TIME. */
  predicate TimeFilled(bits: bv32) { bits & 2 != 0 }

  /** `filled & TAGS_TIME`, on the bits of the `int`. */
  lemma TimeBit(filled: Int32, bits: bv32)
    requires Value(bits) == if filled < 0 then filled + 0x1_0000_0000 else filled
    ensures HasTime(filled) <==> TimeFilled(bits)
  {
    hide Value, Half, Odd, TimeFilled;
    Halves(bits);
    Halves(Half(bits));
    SecondBit(bits);
    SecondDigit(filled, Value(bits));
  }

  /** A word is twice its half, and one more if its last bit is set. */
  lemma Halves(x: bv32)
    ensures Value(x) == 2 * Value(Half(x)) + if Odd(x) then 1 else 0
  {
    hide *;
    HalvesBits(x);
    TwiceValue(Half(x), Odd(x));
  }

  lemma TwiceValue(x: bv32, odd: bool)
    requires x < 0x8000_0000
    ensures Value(Twice(x, odd)) == 2 * Value(x) + if odd then 1 else 0
  {
    Double(x);
  }

  lemma HalvesBits(x: bv32)
    ensures Half(x) < 0x8000_0000 && x == Twice(Half(x), Odd(x))
  {}

  lemma SecondBit(x: bv32)
    ensures TimeFilled(x) <==> Odd(Half(x))
  {}

  lemma SecondDigit(n: Int32, m: nat)
    requires m == if n < 0 then n + 0x1_0000_0000 else n
    ensures n / 2 % 2 == m / 2 % 2
  {}

  /** What tags are after the transfer: text that is there arrives unchanged, empty or
      missing text is missing, a time that is filled in arrives unchanged, any other is
      -1, and track and flags arrive unchanged. */
  lemma TagsArrive(t: SentTags)
    ensures var c := CanonTags(t);
      && c.track == t.track && c.filled == t.filled
      && c.time == (if t.filled / 2 % 2 == 1 then t.time else -1)
      && (t.title == None || t.title == Some([]) ==> c.title == None)
      && (t.artist == None || t.artist == Some([]) ==> c.artist == None)
      && (t.album == None || t.album == Some([]) ==> c.album == None)
      && (t.title.Some? && t.title.value != [] ==> c.title == t.title)
      && (t.artist.Some? && t.artist.value != [] ==> c.artist == t.artist)
      && (t.album.Some? && t.album.value != [] ==> c.album == t.album)
  {}

  /** What the other data is after the transfer: an item comes with its name, its time of
      change, its title, if that is not empty, and with tags; the rest of it is not sent. */
  lemma DataArrives(e: Event)
    ensures Canon(e).kind == e.kind
    ensures e.data.NoData? || e.data.TextData? || e.data.MoveData? ==> Canon(e) == e
    ensures e.data.ItemData? ==>
      var it, c := e.data.item, Canon(e).data;
      && c.ItemData? && c.item.file == it.file && c.item.mtime == it.mtime
      && (it.titleTags.Some? && it.titleTags.value != [] ==> c.item.titleTags == it.titleTags)
      && (it.titleTags == None || it.titleTags == Some([]) ==> c.item.titleTags == None)
      && (it.tags.Some? ==> c.item.tags == Some(CanonTags(it.tags.value)))
      && (it.tags.None? ==> c.item.tags == Some(SentTags(None, None, None, -1, -1, 0)))
      && c.item.titleFile == None && !c.item.deleted && c.item.queuePos == 0
    ensures e.data.TagsData? ==>
      var c := Canon(e).data;
      && c.TagsData? && c.file == e.data.file
      && c.tags == Some(if e.data.tags.Some? then CanonTags(e.data.tags.value)
                        else SentTags(None, None, None, -1, -1, 0))
  {
    assert !HasTime(0);
  }

  /** Text of 4096 bytes is received, longer text is not. */
  lemma LongestText(s: Text, rest: seq<Byte>)
    requires |s| < 0x8000_0000
    ensures ReadText(EncodeText(s) + rest, {}) == if |s| <= 4096 then Got(s, rest) else Failed
  {
    ReadsText(s, rest, {});
    TextIntact(s, |rest|, {});
  }

  /** A length that is negative or above the limit is refused, and text ends at a zero. */
  lemma OddText(n: Int32, s: Text, t: seq<Byte>, rest: seq<Byte>)
    ensures n < 0 || n > 4096 ==> ReadText(EncodeInt(n) + rest, {}) == Failed
    ensures |s + [0] + t| <= 4096 ==>
      ReadText(EncodeInt(|s + [0] + t|) + (s + [0] + t + rest), {}) == Got(s, rest)
  {
    hide EncodeInt, ReadInt;
    ReadsInt(n, rest, {});
    var all := s + [0] + t;
    if |all| <= 4096 {
      ReadsInt(|all|, all + rest, {});
      assert (all + rest)[..|all|] == all && (all + rest)[|all|..] == rest;
      CutAtZero(s, t);
    }
  }

  lemma {:induction false} CutAtZero(s: Text, t: seq<Byte>)
    ensures UpToZero(s + [0] + t) == s
  {
    var all := s + [0] + t;
    if s != [] {
      assert all[1..] == s[1..] + [0] + t && all[0] == s[0];
      assert forall x :: x in s[1..] ==> x in s;
      CutAtZero(s[1..], t);
    }
  }

  /** Which kinds of events carry what. */
  lemma KindsCarry(e: Event)
    ensures WellTyped(e) <==>
      match e.data
      case TextData(_) => e.kind == 0x04 || e.kind == 0x0f || e.kind == 0x51 || e.kind == 0x55
      case ItemData(_) => e.kind == 0x50 || e.kind == 0x54
      case TagsData(_, _) => e.kind == 0x11
      case MoveData(_, _) => e.kind == 0x52 || e.kind == 0x56
      case NoData => e.kind !in {0x04, 0x0f, 0x11, 0x50, 0x51, 0x52, 0x54, 0x55, 0x56}
  {}

  // ----- whole packets

  lemma OneLetter(c: Byte, s: Text)
    requires s == [c]
    ensures EncodeText(s) == [1, 0, 0, 0, c]
  {
    hide EncodeInt;
    IntBytes(1, 1, 0, 0, 0);
  }

  /** The deletion of "a". */
  lemma TextPacket(a: Text)
    requires a == [97]
    ensures Encode(Event(0x51, TextData(a))) == [0x51, 0, 0, 0, 1, 0, 0, 0, 97]
  {
    hide EncodeInt, EncodeText;
    IntBytes(0x51, 0x51, 0, 0, 0);
    OneLetter(97, a);
  }

  /** A move from "a" to "b". */
  lemma MovePacket(a: Text, b: Text)
    requires a == [97] && b == [98]
    ensures Encode(Event(0x52, MoveData(a, b))) == [0x52, 0, 0, 0, 1, 0, 0, 0, 97, 1, 0, 0, 0, 98]
  {
    hide EncodeInt, EncodeText;
    IntBytes(0x52, 0x52, 0, 0, 0);
    OneLetter(97, a);
    OneLetter(98, b);
  }

  /** Title "t", artist "a", no album, track 7 and a time of 300 seconds. */
  lemma TagsBytes(t: SentTags)
    requires t == SentTags(Some([116]), Some([97]), None, 7, 300, 3)
    ensures ShortTags(t)
    ensures EncodeTags(t) ==
      [1, 0, 0, 0, 116, 1, 0, 0, 0, 97, 0, 0, 0, 0, 7, 0, 0, 0, 44, 1, 0, 0, 3, 0, 0, 0]
  {
    hide EncodeInt, EncodeText;
    OneLetter(116, t.title.value);
    OneLetter(97, t.artist.value);
    NoText();
    IntBytes(7, 7, 0, 0, 0);
    IntBytes(300, 44, 1, 0, 0);
    IntBytes(3, 3, 0, 0, 0);
  }

  lemma NoText()
    ensures EncodeText([]) == [0, 0, 0, 0]
  {
    hide EncodeInt;
    IntBytes(0, 0, 0, 0, 0);
  }

  /** The item "f" with the title "n", those tags and 2^32 + 258 as its time of change. */
  lemma ItemPacket(it: SentItem, t: SentTags)
    requires t == SentTags(Some([116]), Some([97]), None, 7, 300, 3)
    requires it == SentItem([102], Some([120]), Some([110]), Some(t), true, 0x1_0000_0102, 5)
    ensures Short(Event(0x50, ItemData(it)))
    ensures Encode(Event(0x50, ItemData(it))) ==
      [0x50, 0, 0, 0, 1, 0, 0, 0, 102, 1, 0, 0, 0, 110]
      + [1, 0, 0, 0, 116, 1, 0, 0, 0, 97, 0, 0, 0, 0, 7, 0, 0, 0, 44, 1, 0, 0, 3, 0, 0, 0]
      + [2, 1, 0, 0, 1, 0, 0, 0]
  {
    hide EncodeInt, EncodeText, EncodeTags, EncodeTime, ShortTags;
    IntBytes(0x50, 0x50, 0, 0, 0);
    OneLetter(102, it.file);
    OneLetter(110, it.titleTags.value);
    TagsBytes(t);
    TimeBytes(0x1_0000_0102, 0x102, 1);
    IntBytes(0x102, 2, 1, 0, 0);
    IntBytes(1, 1, 0, 0, 0);
  }

  /** The same tags for the file "f". */
  lemma TagsPacket(f: Text, t: SentTags)
    requires f == [102] && t == SentTags(Some([116]), Some([97]), None, 7, 300, 3)
    ensures Short(Event(0x11, TagsData(f, Some(t))))
    ensures Encode(Event(0x11, TagsData(f, Some(t)))) ==
      [0x11, 0, 0, 0, 1, 0, 0, 0, 102]
      + [1, 0, 0, 0, 116, 1, 0, 0, 0, 97, 0, 0, 0, 0, 7, 0, 0, 0, 44, 1, 0, 0, 3, 0, 0, 0]
  {
    hide EncodeInt, EncodeText, EncodeTags, ShortTags;
    IntBytes(0x11, 0x11, 0, 0, 0);
    OneLetter(102, f);
    TagsBytes(t);
  }

  /** An event without data is its kind. */
  lemma BarePacket()
    ensures Encode(Event(0x53, NoData)) == [0x53, 0, 0, 0]
  {
    hide EncodeInt;
    IntBytes(0x53, 0x53, 0, 0, 0);
  }
}
