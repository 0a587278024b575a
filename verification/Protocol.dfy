/** `protocol.c`, in place: the growing packet buffer and the receivers that read a socket
    field by field. */
module Protocol {
  import opened Basics
  import opened WireFormat

  /** `struct packet_buf`; `allocated` is the length of `buf`. */
  class PacketBuf {
    var buf: array<Byte>
    var len: nat

    ghost predicate Valid()
      reads this
    {
      len <= buf.Length
    }

    ghost function Contents(): seq<Byte>
      requires Valid()
      reads this, buf
    {
      buf[..len]
    }

    /** `packet_buf_new`. */
    constructor ()
      ensures Valid() && Contents() == [] && fresh(buf)
    {
      buf := new Byte[1024];
      len := 0;
    }

    /** `packet_buf_add_space`. */
    method AddSpace(n: nat)
      requires Valid()
      modifies this`buf
      ensures Valid() && Contents() == old(Contents()) && len + n <= buf.Length
      ensures buf == old(buf) || fresh(buf)
    {
      if buf.Length < len + n {
        var old_ := buf;
        buf := new Byte[old_.Length + n + 256];
        var i := 0;
        while i < len
          invariant 0 <= i <= len <= old_.Length && len + n <= buf.Length && fresh(buf) && old_ == old(buf)
          invariant forall j :: 0 <= j < i ==> buf[j] == old_[j]
          invariant forall j :: 0 <= j < len ==> old_[j] == old(buf[j])
          modifies buf
        {
          buf[i] := old_[i];
          i := i + 1;
        }
      }
    }

    method AddBytes(data: seq<Byte>)
      requires Valid()
      modifies this, buf
      ensures Valid() && Contents() == old(Contents()) + data
      ensures buf == old(buf) || fresh(buf)
    {
      ghost var held := Contents();
      AddSpace(|data|);
      var i := 0;
      while i < |data|
        invariant 0 <= i <= |data| && len + |data| <= buf.Length && len == |held|
        invariant buf == old(buf) || fresh(buf)
        invariant forall j :: 0 <= j < len ==> buf[j] == held[j]
        invariant forall j :: len <= j < len + i ==> buf[j] == data[j - len]
        modifies buf
      {
        buf[len + i] := data[i];
        i := i + 1;
      }
      len := len + |data|;
      assert Contents() == held + data;
    }

    /** `packet_buf_add_str`. */
    method AddStr(s: Text)
      requires Valid() && |s| < 0x8000_0000
      modifies this, buf
      ensures Valid() && Contents() == old(Contents()) + EncodeText(s)
      ensures buf == old(buf) || fresh(buf)
    {
      hide EncodeInt;
      ghost var held := Contents();
      AddBytes(EncodeInt(|s|));
      AddBytes(s);
      assert held + EncodeInt(|s|) + s == held + EncodeText(s);
    }

    /** `packet_buf_add_tags`. */
    method AddTags(tags: Option<SentTags>)
      requires Valid() && ShortOption(tags)
      modifies this, buf
      ensures Valid() && Contents() == old(Contents()) + EncodeTags(OrNoTags(tags))
      ensures buf == old(buf) || fresh(buf)
    {
      hide EncodeText, EncodeInt, PacketBuf.Contents;
      ghost var held := Contents();
      var t := OrNoTags(tags);
      AddStr(OrEmpty(t.title));
      AddStr(OrEmpty(t.artist));
      AddStr(OrEmpty(t.album));
      AddBytes(EncodeInt(t.track));
      AddBytes(EncodeInt(if HasTime(t.filled) then t.time else -1));
      AddBytes(EncodeInt(t.filled));
      Nest(held, EncodeText(OrEmpty(t.title)), EncodeText(OrEmpty(t.artist)), EncodeText(OrEmpty(t.album)),
        EncodeInt(t.track), EncodeInt(if HasTime(t.filled) then t.time else -1), EncodeInt(t.filled));
    }

    /** `packet_buf_add_item`. */
    method AddItem(it: SentItem)
      requires Valid() && Short(Event(EV_PLIST_ADD, ItemData(it)))
      modifies this, buf
      ensures Valid() && Contents() == old(Contents()) + EncodeItem(it)
      ensures buf == old(buf) || fresh(buf)
    {
      hide EncodeText, EncodeTags, EncodeTime, PacketBuf.Contents;
      ghost var held := Contents();
      AddStr(it.file);
      AddStr(OrEmpty(it.titleTags));
      AddTags(it.tags);
      AddBytes(EncodeTime(it.mtime));
      Nest(held, EncodeText(it.file), EncodeText(OrEmpty(it.titleTags)), EncodeTags(OrNoTags(it.tags)),
        EncodeTime(it.mtime), [], []);
    }
  }

  lemma Nest(h: seq<Byte>, a: seq<Byte>, b: seq<Byte>, c: seq<Byte>, d: seq<Byte>, e: seq<Byte>, f: seq<Byte>)
    ensures h + a + b + c + d + e + f == h + (a + (b + (c + (d + (e + f)))))
    ensures h + a + b + c + d == h + (a + (b + (c + d)))
  {}

  /** `make_event_packet`, for events it does not abort on. */
  method MakeEventPacket(e: Event) returns (b: PacketBuf)
    requires WellTyped(e) && Short(e)
    ensures b.Valid() && b.Contents() == Encode(e) && fresh(b) && fresh(b.buf)
  {
    hide EncodeText, EncodeTags, EncodeItem, EncodeInt, PacketBuf.Contents;
    b := new PacketBuf();
    b.AddBytes(EncodeInt(e.kind));
    assert [] + EncodeInt(e.kind) == EncodeInt(e.kind);
    var head := EncodeInt(e.kind);
    if CarriesText(e.kind) {
      b.AddStr(e.data.text);
    } else if CarriesItem(e.kind) {
      b.AddItem(e.data.item);
    } else if e.kind == EV_FILE_TAGS {
      b.AddStr(e.data.file);
      b.AddTags(e.data.tags);
      assert head + EncodeText(e.data.file) + EncodeTags(OrNoTags(e.data.tags)) == head + EncodeData(e.data);
    } else if CarriesMove(e.kind) {
      b.AddStr(e.data.from);
      b.AddStr(e.data.to);
      assert head + EncodeText(e.data.from) + EncodeText(e.data.to) == head + EncodeData(e.data);
    } else {
      assert head + EncodeData(e.data) == head;
    }
  }

  // ----- receiving

  /** A socket with everything that will still arrive on it, in deliveries. */
  class Socket {
    var incoming: seq<Byte>
    const cuts: Cuts

    constructor (bytes: seq<Byte>, cuts: Cuts)
      ensures incoming == bytes && this.cuts == cuts
    {
      incoming := bytes;
      this.cuts := cuts;
    }

    /** `recv` of up to n bytes: as many as there are, but nothing from beyond the end of
        a delivery; nothing at the end of the stream. */
    method Recv(n: nat) returns (chunk: seq<Byte>)
      modifies this
      ensures |chunk| <= n && |chunk| <= |old(incoming)|
      ensures chunk == old(incoming)[..|chunk|] && incoming == old(incoming)[|chunk|..]
      ensures n > 0 && old(incoming) != [] ==> chunk != []
      ensures Unbroken(cuts, |incoming|, |chunk|)
      ensures |chunk| < n ==> incoming == [] || |incoming| in cuts
    {
      var k := 0;
      while k < n && k < |incoming| && (k == 0 || |incoming| - k !in cuts)
        invariant 0 <= k <= n && k <= |incoming|
        invariant forall c :: c in cuts ==> !(|incoming| - k < c < |incoming|)
      {
        k := k + 1;
      }
      chunk := incoming[..k];
      incoming := incoming[k..];
    }

    /** `get_int`. */
    method GetInt() returns (r: Option<Int32>)
      modifies this
      ensures r.Some? <==> ReadInt(old(incoming), cuts).Got?
      ensures r.Some? ==> ReadInt(old(incoming), cuts) == Got(r.value, incoming)
    {
      var chunk := Recv(4);
      if |chunk| != 4 {
        assert incoming != [] ==> |incoming| in cuts;
        return None;
      }
      return Some(DecodeInt(chunk));
    }

    /** `get_time`. */
    method GetTime() returns (r: Option<Int64>)
      modifies this
      ensures r.Some? <==> ReadTime(old(incoming), cuts).Got?
      ensures r.Some? ==> ReadTime(old(incoming), cuts) == Got(r.value, incoming)
    {
      var chunk := Recv(8);
      if |chunk| != 8 {
        assert incoming != [] ==> |incoming| in cuts;
        return None;
      }
      return Some(DecodeTime(chunk));
    }

    /** `get_str`: the length in one piece, the characters in any pieces. */
    method GetStr() returns (r: Option<Text>)
      modifies this
      ensures r.Some? <==> ReadText(old(incoming), cuts).Got?
      ensures r.Some? ==> ReadText(old(incoming), cuts) == Got(r.value, incoming)
    {
      hide ReadInt;
      var len := GetInt();
      if len.None? || !(0 <= len.value <= MAX_SEND_STRING) {
        return None;
      }
      ghost var all := incoming;
      var str: seq<Byte> := [];
      while |str| < len.value
        invariant |str| <= len.value && |str| <= |all|
        invariant str == all[..|str|] && incoming == all[|str|..]
        decreases len.value - |str|
      {
        var res := Recv(len.value - |str|);
        if res == [] {
          return None;
        }
        assert all[..|str| + |res|] == all[..|str|] + res;
        str := str + res;
      }
      return Some(UpToZero(str));
    }

    /** `recv_tags`. */
    method RecvTags() returns (r: Option<SentTags>)
      modifies this
      ensures r.Some? <==> ReadTags(old(incoming), cuts).Got?
      ensures r.Some? ==> ReadTags(old(incoming), cuts) == Got(r.value, incoming)
    {
      hide ReadInt, ReadText;
      var title := GetStr();
      if title.None? { return None; }
      var artist := GetStr();
      if artist.None? { return None; }
      var album := GetStr();
      if album.None? { return None; }
      var track := GetInt();
      if track.None? { return None; }
      var time := GetInt();
      if time.None? { return None; }
      var filled := GetInt();
      if filled.None? { return None; }
      return Some(SentTags(NullIfEmpty(title.value), NullIfEmpty(artist.value), NullIfEmpty(album.value),
                           track.value, time.value, filled.value));
    }

    /** `recv_item`. */
    method RecvItem() returns (r: Option<SentItem>)
      modifies this
      ensures r.Some? <==> ReadItem(old(incoming), cuts).Got?
      ensures r.Some? ==> ReadItem(old(incoming), cuts) == Got(r.value, incoming)
    {
      hide ReadTime, ReadText, ReadTags;
      var file := GetStr();
      if file.None? { return None; }
      if file.value == [] {
        return Some(SentItem([], None, None, None, false, -1, 0));
      }
      var title := GetStr();
      if title.None? { return None; }
      var tags := RecvTags();
      if tags.None? { return None; }
      var mtime := GetTime();
      if mtime.None? { return None; }
      return Some(SentItem(file.value, None, NullIfEmpty(title.value), tags, false, mtime.value, 0));
    }

    /** `get_event_data`. */
    method GetEventData(kind: Int32) returns (r: Option<Data>)
      modifies this
      ensures r.Some? <==> ReadData(kind, old(incoming), cuts).Got?
      ensures r.Some? ==> ReadData(kind, old(incoming), cuts) == Got(r.value, incoming)
    {
      hide ReadText, ReadTags, ReadItem;
      if CarriesItem(kind) {
        var it := RecvItem();
        return if it.Some? then Some(ItemData(it.value)) else None;
      } else if CarriesText(kind) {
        var s := GetStr();
        return if s.Some? then Some(TextData(s.value)) else None;
      } else if kind == EV_FILE_TAGS {
        var f := GetStr();
        if f.None? { return None; }
        var t := RecvTags();
        return if t.Some? then Some(TagsData(f.value, t)) else None;
      } else if CarriesMove(kind) {
        var f := GetStr();
        if f.None? { return None; }
        var t := GetStr();
        return if t.Some? then Some(MoveData(f.value, t.value)) else None;
      }
      return Some(NoData);
    }
  }

  /** The client: receives events until the stream ends, or gives up. */
  method Receive(sock: Socket) returns (received: Option<seq<Event>>)
    modifies sock
    ensures received == ReadAll(old(sock.incoming), sock.cuts)
  {
    hide ReadInt, ReadData, ReadEvent;
    var events := [];
    assert forall more: seq<Event> :: [] + more == more;
    while sock.incoming != []
      invariant ReadAll(old(sock.incoming), sock.cuts) == After(events, ReadAll(sock.incoming, sock.cuts))
      decreases |sock.incoming|
    {
      ghost var before := sock.incoming;
      var e := ReceiveOne(sock);
      if e.None? {
        return None;
      }
      AfterOne(events, before, e.value, sock.incoming, sock.cuts);
      events := events + [e.value];
    }
    assert events + [] == events;
    return Some(events);
  }

  method ReceiveOne(sock: Socket) returns (e: Option<Event>)
    modifies sock
    ensures e.Some? <==> ReadEvent(old(sock.incoming), sock.cuts).Got?
    ensures e.Some? ==> ReadEvent(old(sock.incoming), sock.cuts) == Got(e.value, sock.incoming)
  {
    hide ReadInt, ReadData;
    var kind := sock.GetInt();
    if kind.None? { return None; }
    var data := sock.GetEventData(kind.value);
    if data.None? { return None; }
    return Some(Event(kind.value, data.value));
  }

  function After(events: seq<Event>, more: Option<seq<Event>>): Option<seq<Event>> {
    if more.None? then None else Some(events + more.value)
  }

  lemma AfterOne(events: seq<Event>, b: seq<Byte>, e: Event, rest: seq<Byte>, cuts: Cuts)
    requires b != [] && ReadEvent(b, cuts) == Got(e, rest)
    ensures After(events, ReadAll(b, cuts)) == After(events + [e], ReadAll(rest, cuts))
  {
    hide ReadEvent;
    var more := ReadAll(rest, cuts);
    if more.Some? { assert events + ([e] + more.value) == events + [e] + more.value; }
  }

  /** Packing events and receiving them again, one process to the other, in any deliveries:
      they arrive in canonical form if and only if each can be sent and no delivery ends
      inside a field of fixed width. */
  method Transfer(events: seq<Event>, cuts: Cuts) returns (received: Option<seq<Event>>)
    requires forall e :: e in events ==> WellTyped(e) && Short(e)
    ensures received == Some(CanonAll(events)) <==> AllSendable(events) && Intact(FieldsAll(events), 0, cuts)
  {
    hide Encode, Canon, AllSendable, WellTyped, Short, ReadAll, Intact;
    var wire := Pack(events);
    StreamRoundTrip(events, cuts);
    var sock := new Socket(wire, cuts);
    received := Receive(sock);
  }

  /** The packets of the events, one after the other. */
  method Pack(events: seq<Event>) returns (wire: seq<Byte>)
    requires forall e :: e in events ==> WellTyped(e) && Short(e)
    ensures wire == EncodeAll(events)
  {
    hide Encode, WellTyped, Short;
    wire := [];
    var i := 0;
    while i < |events|
      invariant 0 <= i <= |events|
      invariant forall e :: e in events[i..] ==> Short(e)
      invariant forall e :: e in events ==> Short(e)
      invariant wire + EncodeAll(events[i..]) == EncodeAll(events)
    {
      assert events[i] in events && events[i..][1..] == events[i + 1..];
      var b := MakeEventPacket(events[i]);
      wire := wire + b.buf[..b.len];
      i := i + 1;
    }
    assert events[i..] == [] && wire == wire + EncodeAll(events[i..]);
  }
}
