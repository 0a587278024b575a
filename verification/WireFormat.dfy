/** `protocol.c` as values: what events look like on the wire and how they are read back. */
module WireFormat {
  import opened Basics

  const MAX_SEND_STRING := 4096
  const TAGS_TIME := 2

  type Int32 = x: int | -0x8000_0000 <= x < 0x8000_0000
  type Int64 = x: int | -0x8000_0000_0000_0000 <= x < 0x8000_0000_0000_0000

  /** The bytes of a C string, without the terminating zero. */
  type Text = s: Name | 0 !in s

  /** `struct file_tags`, its strings as bytes. */
  datatype SentTags = SentTags(title: Option<Text>, artist: Option<Text>, album: Option<Text>, track: Int32,
                               time: Int32, filled: Int32)

  /** `struct plist_item` but for the file type, which the receiver finds out itself. */
  datatype SentItem = SentItem(file: Text, titleFile: Option<Text>, titleTags: Option<Text>, tags: Option<SentTags>,
                       deleted: bool, mtime: Int64, queuePos: Int32)

  datatype Data =
    | NoData
    | TextData(text: Text)
    | ItemData(item: SentItem)
    | TagsData(file: Text, tags: Option<SentTags>)
    | MoveData(from: Text, to: Text)

  datatype Event = Event(kind: Int32, data: Data)

  const EV_SRV_ERROR := 0x04
  const EV_STATUS_MSG := 0x0f
  const EV_FILE_TAGS := 0x11
  const EV_PLIST_ADD := 0x50
  const EV_PLIST_DEL := 0x51
  const EV_PLIST_MOVE := 0x52
  const EV_QUEUE_ADD := 0x54
  const EV_QUEUE_DEL := 0x55
  const EV_QUEUE_MOVE := 0x56

  predicate CarriesText(kind: Int32) { kind in {EV_PLIST_DEL, EV_QUEUE_DEL, EV_SRV_ERROR, EV_STATUS_MSG} }
  predicate CarriesItem(kind: Int32) { kind in {EV_PLIST_ADD, EV_QUEUE_ADD} }
  predicate CarriesMove(kind: Int32) { kind in {EV_PLIST_MOVE, EV_QUEUE_MOVE} }

  /** `make_event_packet` aborts on events that are not of this form. */
  predicate WellTyped(e: Event) {
    if CarriesText(e.kind) then e.data.TextData?
    else if CarriesItem(e.kind) then e.data.ItemData?
    else if e.kind == EV_FILE_TAGS then e.data.TagsData?
    else if CarriesMove(e.kind) then e.data.MoveData?
    else e.data.NoData?
  }

  // ----- numbers and strings; `int` has 4 bytes and `time_t` 8, low-order byte first

  function EncodeInt(n: Int32): (b: seq<Byte>)
    ensures |b| == 4
  {
    Little(if n < 0 then n + 0x1_0000_0000 else n, 4)
  }

  function DecodeInt(b: seq<Byte>): Int32
    requires |b| == 4
  {
    var n := FromLittle(b) % 0x1_0000_0000;
    if n >= 0x8000_0000 then n - 0x1_0000_0000 else n
  }

  function EncodeTime(n: Int64): (b: seq<Byte>)
    ensures |b| == 8
  {
    Little(if n < 0 then n + 0x1_0000_0000_0000_0000 else n, 8)
  }

  function DecodeTime(b: seq<Byte>): Int64
    requires |b| == 8
  {
    var n := FromLittle(b) % 0x1_0000_0000_0000_0000;
    if n >= 0x8000_0000_0000_0000 then n - 0x1_0000_0000_0000_0000 else n
  }

  lemma IntRoundTrip(n: Int32)
    ensures DecodeInt(EncodeInt(n)) == n
  {
    hide Power256, Little, FromLittle;
    Powers();
    LittleRoundTrip(if n < 0 then n + 0x1_0000_0000 else n, 4);
  }

  lemma TimeRoundTrip(n: Int64)
    ensures DecodeTime(EncodeTime(n)) == n
  {
    hide Power256, Little, FromLittle;
    Powers();
    LittleRoundTrip(if n < 0 then n + 0x1_0000_0000_0000_0000 else n, 8);
  }

  function EncodeText(s: Text): seq<Byte>
    requires |s| < 0x8000_0000
  {
    EncodeInt(|s|) + s
  }

  // ----- encoding

  function OrEmpty(s: Option<Text>): Text {
    if s.Some? then s.value else []
  }

  /** `filled & TAGS_TIME` */
  predicate HasTime(filled: Int32) {
    filled / TAGS_TIME % 2 == 1
  }

  const NO_TAGS := SentTags(None, None, None, -1, -1, 0)

  /** No string is longer than an `int` can say. */
  predicate ShortTags(t: SentTags) {
    |OrEmpty(t.title)| < 0x8000_0000 && |OrEmpty(t.artist)| < 0x8000_0000 && |OrEmpty(t.album)| < 0x8000_0000
  }

  predicate ShortOption(t: Option<SentTags>) {
    t.Some? ==> ShortTags(t.value)
  }

  predicate Short(e: Event) {
    match e.data
    case NoData => true
    case TextData(s) => |s| < 0x8000_0000
    case ItemData(it) => |it.file| < 0x8000_0000 && |OrEmpty(it.titleTags)| < 0x8000_0000 && ShortOption(it.tags)
    case TagsData(f, t) => |f| < 0x8000_0000 && ShortOption(t)
    case MoveData(f, t) => |f| < 0x8000_0000 && |t| < 0x8000_0000
  }

  function EncodeTags(t: SentTags): seq<Byte>
    requires ShortTags(t)
  {
    EncodeText(OrEmpty(t.title)) + (EncodeText(OrEmpty(t.artist)) + (EncodeText(OrEmpty(t.album)) +
    (EncodeInt(t.track) + (EncodeInt(if HasTime(t.filled) then t.time else -1) + EncodeInt(t.filled)))))
  }

  function OrNoTags(t: Option<SentTags>): SentTags {
    if t.Some? then t.value else NO_TAGS
  }

  function EncodeItem(it: SentItem): seq<Byte>
    requires |it.file| < 0x8000_0000 && |OrEmpty(it.titleTags)| < 0x8000_0000 && ShortOption(it.tags)
  {
    EncodeText(it.file) + (EncodeText(OrEmpty(it.titleTags)) + (EncodeTags(OrNoTags(it.tags)) + EncodeTime(it.mtime)))
  }

  function EncodeData(d: Data): seq<Byte>
    requires Short(Event(0, d))
  {
    match d
    case NoData => []
    case TextData(s) => EncodeText(s)
    case ItemData(it) => EncodeItem(it)
    case TagsData(f, t) => EncodeText(f) + EncodeTags(OrNoTags(t))
    case MoveData(f, t) => EncodeText(f) + EncodeText(t)
  }

  function Encode(e: Event): seq<Byte>
    requires Short(e)
  {
    EncodeInt(e.kind) + EncodeData(e.data)
  }

  // ----- deliveries

  /** Where the stream is cut into deliveries: one of them ends where so many bytes are
      still to come.  A `recv` returns nothing from beyond the end of a delivery. */
  type Cuts = set<nat>

  /** No delivery ends inside the `width` bytes that are followed by `rest` more. */
  predicate Unbroken(cuts: Cuts, rest: nat, width: nat) {
    forall c :: c in cuts ==> !(rest < c < rest + width)
  }

  datatype Field = Fixed(width: nat) | Chars(width: nat)

  function Width(fields: seq<Field>): nat {
    if fields == [] then 0 else fields[0].width + Width(fields[1..])
  }

  /** No delivery ends inside a field of fixed width. */
  predicate Intact(fields: seq<Field>, rest: nat, cuts: Cuts) {
    fields != [] ==>
      && (fields[0].Fixed? ==> Unbroken(cuts, Width(fields[1..]) + rest, fields[0].width))
      && Intact(fields[1..], rest, cuts)
  }

  lemma {:induction false} IntactConcat(a: seq<Field>, b: seq<Field>, rest: nat, cuts: Cuts)
    ensures Width(a + b) == Width(a) + Width(b)
    ensures Intact(a + b, rest, cuts) <==> Intact(a, Width(b) + rest, cuts) && Intact(b, rest, cuts)
  {
    hide Unbroken;
    if a == [] {
      assert a + b == b;
    } else {
      assert (a + b)[1..] == a[1..] + b && (a + b)[0] == a[0];
      IntactConcat(a[1..], b, rest, cuts);
    }
  }

  /** No delivery ends inside the i-th field, if that is of fixed width. */
  predicate FieldIntact(fields: seq<Field>, i: nat, rest: nat, cuts: Cuts)
    requires i < |fields|
  {
    fields[i].Fixed? ==> Unbroken(cuts, Width(fields[i + 1..]) + rest, fields[i].width)
  }

  /** A delivery that ends inside a field of fixed width is all that can be wrong. */
  lemma {:induction false} IntactFieldwise(fields: seq<Field>, rest: nat, cuts: Cuts)
    ensures Intact(fields, rest, cuts) <==> forall i :: 0 <= i < |fields| ==> FieldIntact(fields, i, rest, cuts)
  {
    if fields != [] {
      hide Unbroken;
      var tail := fields[1..];
      IntactFieldwise(tail, rest, cuts);
      forall i | 0 <= i < |tail| ensures FieldIntact(tail, i, rest, cuts) <==> FieldIntact(fields, i + 1, rest, cuts) {
        assert tail[i + 1..] == fields[i + 2..];
      }
      assert Intact(fields, rest, cuts) <==> FieldIntact(fields, 0, rest, cuts) && Intact(tail, rest, cuts);
      hide FieldIntact, Intact;
      if forall i :: 0 <= i < |tail| ==> FieldIntact(tail, i, rest, cuts) {
        forall i | 0 < i < |fields| ensures FieldIntact(fields, i, rest, cuts) {
          assert FieldIntact(tail, i - 1, rest, cuts);
        }
      }
    }
  }

  function TextFields(s: Text): seq<Field> {
    [Fixed(4), Chars(|s|)]
  }

  function TagsFields(t: SentTags): seq<Field> {
    TextFields(OrEmpty(t.title)) + (TextFields(OrEmpty(t.artist)) + (TextFields(OrEmpty(t.album)) +
    [Fixed(4), Fixed(4), Fixed(4)]))
  }

  function ItemFields(it: SentItem): seq<Field> {
    TextFields(it.file) + (TextFields(OrEmpty(it.titleTags)) + (TagsFields(OrNoTags(it.tags)) + [Fixed(8)]))
  }

  function DataFields(d: Data): seq<Field> {
    match d
    case NoData => []
    case TextData(s) => TextFields(s)
    case ItemData(it) => ItemFields(it)
    case TagsData(f, t) => TextFields(f) + TagsFields(OrNoTags(t))
    case MoveData(f, t) => TextFields(f) + TextFields(t)
  }

  /** How the packet of an event is laid out. */
  function Fields(e: Event): seq<Field> {
    [Fixed(4)] + DataFields(e.data)
  }

  // ----- decoding: what was read and what is left

  datatype Read<T> = Failed | Got(value: T, rest: seq<Byte>)

  /** `get_int`: one `recv`, which fails unless all four bytes come in one delivery. */
  function ReadInt(b: seq<Byte>, cuts: Cuts): (r: Read<Int32>)
    ensures r.Got? ==> |r.rest| < |b|
  {
    if |b| < 4 || !Unbroken(cuts, |b| - 4, 4) then Failed else Got(DecodeInt(b[..4]), b[4..])
  }

  /** `get_time`, in the same way. */
  function ReadTime(b: seq<Byte>, cuts: Cuts): (r: Read<Int64>)
    ensures r.Got? ==> |r.rest| < |b|
  {
    if |b| < 8 || !Unbroken(cuts, |b| - 8, 8) then Failed else Got(DecodeTime(b[..8]), b[8..])
  }

  /** A C string ends at its first zero byte. */
  function UpToZero(s: seq<Byte>): Text {
    if s == [] || s[0] == 0 then [] else [s[0]] + UpToZero(s[1..])
  }

  /** `get_str`: the characters may come in any number of deliveries. */
  function ReadText(b: seq<Byte>, cuts: Cuts): (r: Read<Text>)
    ensures r.Got? ==> |r.rest| < |b|
  {
    match ReadInt(b, cuts)
    case Failed => Failed
    case Got(len, r) =>
      if !(0 <= len <= MAX_SEND_STRING) || |r| < len then Failed
      else Got(UpToZero(r[..len]), r[len..])
  }

  function NullIfEmpty(s: Text): Option<Text> {
    if s == [] then None else Some(s)
  }

  /** `recv_tags` */
  function ReadTags(b: seq<Byte>, cuts: Cuts): (r: Read<SentTags>)
    ensures r.Got? ==> |r.rest| < |b|
  {
    match ReadText(b, cuts) case Failed => Failed case Got(title, r1) =>
    match ReadText(r1, cuts) case Failed => Failed case Got(artist, r2) =>
    match ReadText(r2, cuts) case Failed => Failed case Got(album, r3) =>
    match ReadInt(r3, cuts) case Failed => Failed case Got(track, r4) =>
    match ReadInt(r4, cuts) case Failed => Failed case Got(time, r5) =>
    match ReadInt(r5, cuts) case Failed => Failed case Got(filled, r6) =>
    Got(SentTags(NullIfEmpty(title), NullIfEmpty(artist), NullIfEmpty(album), track, time, filled), r6)
  }

  /** `recv_item`: an empty name marks the end of a playlist, and nothing follows it. */
  function ReadItem(b: seq<Byte>, cuts: Cuts): (r: Read<SentItem>)
    ensures r.Got? ==> |r.rest| < |b|
  {
    match ReadText(b, cuts) case Failed => Failed case Got(file, r1) =>
    if file == [] then Got(SentItem([], None, None, None, false, -1, 0), r1) else
    match ReadText(r1, cuts) case Failed => Failed case Got(title, r2) =>
    match ReadTags(r2, cuts) case Failed => Failed case Got(tags, r3) =>
    match ReadTime(r3, cuts) case Failed => Failed case Got(mtime, r4) =>
    Got(SentItem(file, None, NullIfEmpty(title), Some(tags), false, mtime, 0), r4)
  }

  /** `get_event_data` */
  function ReadData(kind: Int32, b: seq<Byte>, cuts: Cuts): (r: Read<Data>)
    ensures r.Got? ==> |r.rest| <= |b|
  {
    if CarriesItem(kind) then
      match ReadItem(b, cuts) case Failed => Failed case Got(it, r) => Got(ItemData(it), r)
    else if CarriesText(kind) then
      match ReadText(b, cuts) case Failed => Failed case Got(s, r) => Got(TextData(s), r)
    else if kind == EV_FILE_TAGS then
      match ReadText(b, cuts) case Failed => Failed case Got(f, r1) =>
      match ReadTags(r1, cuts) case Failed => Failed case Got(t, r2) => Got(TagsData(f, Some(t)), r2)
    else if CarriesMove(kind) then
      match ReadText(b, cuts) case Failed => Failed case Got(f, r1) =>
      match ReadText(r1, cuts) case Failed => Failed case Got(t, r2) => Got(MoveData(f, t), r2)
    else Got(NoData, b)
  }

  function ReadEvent(b: seq<Byte>, cuts: Cuts): (r: Read<Event>)
    ensures r.Got? ==> |r.rest| < |b|
  {
    match ReadInt(b, cuts) case Failed => Failed case Got(kind, r1) =>
    match ReadData(kind, r1, cuts) case Failed => Failed case Got(d, r2) => Got(Event(kind, d), r2)
  }

  // ----- the canonical form

  function CanonText(s: Option<Text>): Option<Text> {
    NullIfEmpty(OrEmpty(s))
  }

  function CanonTags(t: SentTags): SentTags {
    SentTags(CanonText(t.title), CanonText(t.artist), CanonText(t.album), t.track,
             if HasTime(t.filled) then t.time else -1, t.filled)
  }

  /** What survives the transfer: empty text becomes absent, an unfilled time becomes -1,
      absent tags become empty ones, and the fields that are not sent are reset. */
  function Canon(e: Event): Event {
    match e.data
    case ItemData(it) =>
      var tags := CanonTags(OrNoTags(it.tags));
      e.(data := ItemData(SentItem(it.file, None, CanonText(it.titleTags), Some(tags), false, it.mtime, 0)))
    case TagsData(f, t) => e.(data := TagsData(f, Some(CanonTags(OrNoTags(t)))))
    case _ => e
  }

  predicate Fits(s: Text) { |s| <= MAX_SEND_STRING }

  predicate TagsFit(t: SentTags) { Fits(OrEmpty(t.title)) && Fits(OrEmpty(t.artist)) && Fits(OrEmpty(t.album)) }

  /** Every string is within the limit, and an item has a name. */
  predicate Sendable(e: Event) {
    match e.data
    case NoData => true
    case TextData(s) => Fits(s)
    case ItemData(it) => it.file != [] && Fits(it.file) && Fits(OrEmpty(it.titleTags)) && TagsFit(OrNoTags(it.tags))
    case TagsData(f, t) => Fits(f) && TagsFit(OrNoTags(t))
    case MoveData(f, t) => Fits(f) && Fits(t)
  }

  // ----- round trips

  lemma ReadsInt(n: Int32, rest: seq<Byte>, cuts: Cuts)
    ensures ReadInt(EncodeInt(n) + rest, cuts) == if Unbroken(cuts, |rest|, 4) then Got(n, rest) else Failed
  {
    var b := EncodeInt(n) + rest;
    assert b[..4] == EncodeInt(n) && b[4..] == rest;
    IntRoundTrip(n);
  }

  lemma ReadsTime(n: Int64, rest: seq<Byte>, cuts: Cuts)
    ensures ReadTime(EncodeTime(n) + rest, cuts) == if Unbroken(cuts, |rest|, 8) then Got(n, rest) else Failed
  {
    var b := EncodeTime(n) + rest;
    assert b[..8] == EncodeTime(n) && b[8..] == rest;
    TimeRoundTrip(n);
  }

  lemma {:induction false} NoZero(s: Text)
    ensures UpToZero(s) == s
  {
    if s != [] {
      assert forall x :: x in s[1..] ==> x in s;
      NoZero(s[1..]);
    }
  }

  lemma FixedIntact(width: nat, rest: nat, cuts: Cuts)
    ensures Width([Fixed(width)]) == width && (Intact([Fixed(width)], rest, cuts) <==> Unbroken(cuts, rest, width))
  {
    assert [Fixed(width)][1..] == [];
  }

  lemma TextIntact(s: Text, rest: nat, cuts: Cuts)
    ensures Width(TextFields(s)) == 4 + |s|
    ensures Intact(TextFields(s), rest, cuts) <==> Unbroken(cuts, |s| + rest, 4)
  {
    var f := TextFields(s);
    assert f[1..] == [Chars(|s|)] && f[1..][1..] == [];
    assert Width(f[1..]) == |s| && Intact(f[1..], rest, cuts);
  }

  /** A string is read back if it is not too long and its length comes in one delivery. */
  lemma ReadsText(s: Text, rest: seq<Byte>, cuts: Cuts)
    requires |s| < 0x8000_0000
    ensures ReadText(EncodeText(s) + rest, cuts)
         == if Fits(s) && Intact(TextFields(s), |rest|, cuts) then Got(s, rest) else Failed
    ensures |EncodeText(s)| == Width(TextFields(s))
  {
    hide Unbroken, EncodeInt;
    TextIntact(s, |rest|, cuts);
    ReadsInt(|s|, s + rest, cuts);
    assert EncodeText(s) + rest == EncodeInt(|s|) + (s + rest);
    assert (s + rest)[..|s|] == s && (s + rest)[|s|..] == rest;
    NoZero(s);
  }

  /** The three numbers at the end of the tags. */
  lemma NumbersIntact(rest: nat, cuts: Cuts)
    ensures var fields := [Fixed(4), Fixed(4), Fixed(4)];
      && Width(fields) == 12
      && (Intact(fields, rest, cuts) <==>
          Unbroken(cuts, rest + 8, 4) && Unbroken(cuts, rest + 4, 4) && Unbroken(cuts, rest, 4))
  {
    hide Unbroken;
    var fields := [Fixed(4), Fixed(4), Fixed(4)];
    assert fields == [Fixed(4)] + ([Fixed(4)] + [Fixed(4)]);
    FixedIntact(4, rest, cuts);
    FixedIntact(4, rest + 4, cuts);
    FixedIntact(4, rest + 8, cuts);
    IntactConcat([Fixed(4)], [Fixed(4)], rest, cuts);
    IntactConcat([Fixed(4)], [Fixed(4)] + [Fixed(4)], rest, cuts);
  }

  lemma TagsIntact(t: SentTags, rest: nat, cuts: Cuts)
    ensures var a, b, c := TextFields(OrEmpty(t.title)), TextFields(OrEmpty(t.artist)), TextFields(OrEmpty(t.album));
      var n := [Fixed(4), Fixed(4), Fixed(4)];
      && Width(TagsFields(t)) == Width(a) + Width(b) + Width(c) + Width(n)
      && (Intact(TagsFields(t), rest, cuts) <==>
          && Intact(a, Width(b) + Width(c) + Width(n) + rest, cuts) && Intact(b, Width(c) + Width(n) + rest, cuts)
          && Intact(c, Width(n) + rest, cuts) && Intact(n, rest, cuts))
  {
    hide Intact, Width, TextFields;
    var a, b, c := TextFields(OrEmpty(t.title)), TextFields(OrEmpty(t.artist)), TextFields(OrEmpty(t.album));
    var n := [Fixed(4), Fixed(4), Fixed(4)];
    IntactConcat(c, n, rest, cuts);
    IntactConcat(b, c + n, rest, cuts);
    IntactConcat(a, b + (c + n), rest, cuts);
  }

  lemma ReadsTags(t: SentTags, rest: seq<Byte>, cuts: Cuts)
    requires ShortTags(t)
    ensures ReadTags(EncodeTags(t) + rest, cuts)
         == if TagsFit(t) && Intact(TagsFields(t), |rest|, cuts) then Got(CanonTags(t), rest) else Failed
    ensures |EncodeTags(t)| == Width(TagsFields(t))
  {
    hide EncodeText, EncodeInt, ReadText, ReadInt, Intact, Width, TextFields, TagsFields, Unbroken;
    var time := if HasTime(t.filled) then t.time else -1;
    var r5 := EncodeInt(t.filled) + rest;
    var r4 := EncodeInt(time) + r5;
    var r3 := EncodeInt(t.track) + r4;
    var r2 := EncodeText(OrEmpty(t.album)) + r3;
    var r1 := EncodeText(OrEmpty(t.artist)) + r2;
    assert EncodeTags(t) + rest == EncodeText(OrEmpty(t.title)) + r1;
    ReadsText(OrEmpty(t.title), r1, cuts);
    ReadsText(OrEmpty(t.artist), r2, cuts);
    ReadsText(OrEmpty(t.album), r3, cuts);
    ReadsInt(t.track, r4, cuts);
    ReadsInt(time, r5, cuts);
    ReadsInt(t.filled, rest, cuts);
    NumbersIntact(|rest|, cuts);
    TagsIntact(t, |rest|, cuts);
  }

  lemma ItemIntact(it: SentItem, rest: nat, cuts: Cuts)
    ensures var a, b, c := TextFields(it.file), TextFields(OrEmpty(it.titleTags)), TagsFields(OrNoTags(it.tags));
      && Width(ItemFields(it)) == Width(a) + Width(b) + Width(c) + 8
      && (Intact(ItemFields(it), rest, cuts) <==>
          && Intact(a, Width(b) + Width(c) + 8 + rest, cuts) && Intact(b, Width(c) + 8 + rest, cuts)
          && Intact(c, 8 + rest, cuts) && Unbroken(cuts, rest, 8))
  {
    hide Intact, Width, TextFields, TagsFields, Unbroken;
    var a, b, c := TextFields(it.file), TextFields(OrEmpty(it.titleTags)), TagsFields(OrNoTags(it.tags));
    var d := [Fixed(8)];
    FixedIntact(8, rest, cuts);
    IntactConcat(c, d, rest, cuts);
    IntactConcat(b, c + d, rest, cuts);
    IntactConcat(a, b + (c + d), rest, cuts);
  }

  /** An item arrives in canonical form, or reading fails, or it has no name and something
      else is read. */
  lemma ReadsItem(it: SentItem, rest: seq<Byte>, cuts: Cuts)
    requires Short(Event(EV_PLIST_ADD, ItemData(it)))
    ensures var r := ReadItem(EncodeItem(it) + rest, cuts);
      if Sendable(Event(EV_PLIST_ADD, ItemData(it))) && Intact(ItemFields(it), |rest|, cuts)
      then r == Got(Canon(Event(EV_PLIST_ADD, ItemData(it))).data.item, rest)
      else r.Failed? || r.value.tags.None?
    ensures |EncodeItem(it)| == Width(ItemFields(it))
  {
    hide EncodeText, EncodeTime, EncodeTags, ReadText, ReadTime, ReadTags, CanonTags, Intact, Width, TextFields,
      TagsFields, ItemFields, Unbroken;
    var t := OrNoTags(it.tags);
    var r3 := EncodeTime(it.mtime) + rest;
    var r2 := EncodeTags(t) + r3;
    var r1 := EncodeText(OrEmpty(it.titleTags)) + r2;
    assert EncodeItem(it) + rest == EncodeText(it.file) + r1;
    ReadsText(it.file, r1, cuts);
    ReadsText(OrEmpty(it.titleTags), r2, cuts);
    ReadsTags(t, r3, cuts);
    ReadsTime(it.mtime, rest, cuts);
    ItemIntact(it, |rest|, cuts);
  }

  lemma ReadsTagsData(f: Text, t: Option<SentTags>, rest: seq<Byte>, cuts: Cuts)
    requires Short(Event(EV_FILE_TAGS, TagsData(f, t)))
    ensures ReadData(EV_FILE_TAGS, EncodeData(TagsData(f, t)) + rest, cuts)
         == if Sendable(Event(EV_FILE_TAGS, TagsData(f, t))) && Intact(DataFields(TagsData(f, t)), |rest|, cuts)
            then Got(TagsData(f, Some(CanonTags(OrNoTags(t)))), rest) else Failed
    ensures |EncodeData(TagsData(f, t))| == Width(DataFields(TagsData(f, t)))
  {
    hide EncodeText, EncodeTags, ReadText, ReadTags, CanonTags, Intact, Width, TextFields, TagsFields;
    var r := EncodeTags(OrNoTags(t)) + rest;
    assert EncodeData(TagsData(f, t)) + rest == EncodeText(f) + r;
    ReadsText(f, r, cuts);
    ReadsTags(OrNoTags(t), rest, cuts);
    IntactConcat(TextFields(f), TagsFields(OrNoTags(t)), |rest|, cuts);
  }

  lemma ReadsMove(kind: Int32, f: Text, t: Text, rest: seq<Byte>, cuts: Cuts)
    requires CarriesMove(kind) && Short(Event(kind, MoveData(f, t)))
    ensures ReadData(kind, EncodeData(MoveData(f, t)) + rest, cuts)
         == if Fits(f) && Fits(t) && Intact(DataFields(MoveData(f, t)), |rest|, cuts)
            then Got(MoveData(f, t), rest) else Failed
    ensures |EncodeData(MoveData(f, t))| == Width(DataFields(MoveData(f, t)))
  {
    hide EncodeText, ReadText, Intact, Width, TextFields;
    var r := EncodeText(t) + rest;
    assert EncodeData(MoveData(f, t)) + rest == EncodeText(f) + r;
    ReadsText(f, r, cuts);
    ReadsText(t, rest, cuts);
    IntactConcat(TextFields(f), TextFields(t), |rest|, cuts);
  }

  /** The part of a packet after the event type. */
  lemma ReadsData(e: Event, rest: seq<Byte>, cuts: Cuts)
    requires WellTyped(e) && Short(e)
    ensures var r := ReadData(e.kind, EncodeData(e.data) + rest, cuts);
      if Sendable(e) && Intact(DataFields(e.data), |rest|, cuts) then r == Got(Canon(e).data, rest)
      else r.Failed? || r.value != Canon(e).data
    ensures |EncodeData(e.data)| == Width(DataFields(e.data))
  {
    hide ReadItem, ReadTags, ReadText, EncodeItem, EncodeTags, EncodeText, TextFields, TagsFields, ItemFields;
    match e.data
    case NoData => assert EncodeData(e.data) + rest == rest;
    case TextData(s) => ReadsText(s, rest, cuts);
    case ItemData(it) => ReadsItem(it, rest, cuts);
    case TagsData(f, t) => ReadsTagsData(f, t, rest, cuts);
    case MoveData(f, t) => ReadsMove(e.kind, f, t, rest, cuts);
  }

  /** An event arrives in canonical form, with nothing read beyond it, exactly when its
      strings are within the limit, its item, if any, has a name, and no delivery ends
      inside a field of fixed width; otherwise it does not arrive at all. */
  lemma EventRoundTrip(e: Event, rest: seq<Byte>, cuts: Cuts)
    requires WellTyped(e) && Short(e)
    ensures var r := ReadEvent(Encode(e) + rest, cuts);
      if Sendable(e) && Intact(Fields(e), |rest|, cuts) then r == Got(Canon(e), rest)
      else r.Failed? || r.value != Canon(e)
    ensures |Encode(e)| == Width(Fields(e))
  {
    hide EncodeInt, ReadInt, ReadData, EncodeData, DataFields, Intact, Width, Unbroken;
    var r := EncodeData(e.data) + rest;
    assert Encode(e) + rest == EncodeInt(e.kind) + r;
    ReadsData(e, rest, cuts);
    ReadsInt(e.kind, r, cuts);
    FixedIntact(4, |r|, cuts);
    IntactConcat([Fixed(4)], DataFields(e.data), |rest|, cuts);
  }

  // ----- sequences of events

  function EncodeAll(events: seq<Event>): seq<Byte>
    requires forall e :: e in events ==> Short(e)
  {
    if events == [] then [] else Encode(events[0]) + EncodeAll(events[1..])
  }

  function FieldsAll(events: seq<Event>): seq<Field> {
    if events == [] then [] else Fields(events[0]) + FieldsAll(events[1..])
  }

  /** Reads events until the stream is exhausted. */
  function ReadAll(b: seq<Byte>, cuts: Cuts): Option<seq<Event>>
    decreases |b|
  {
    if b == [] then Some([])
    else match ReadEvent(b, cuts)
      case Failed => None
      case Got(e, rest) =>
        var tail := ReadAll(rest, cuts);
        if tail.None? then None else Some([e] + tail.value)
  }

  function CanonAll(events: seq<Event>): seq<Event> {
    if events == [] then [] else [Canon(events[0])] + CanonAll(events[1..])
  }

  /** Any sequence of events, packed one after the other and delivered in any pieces, reads
      back as the same sequence in canonical form if and only if each event is sendable
      and no delivery ends inside a field of fixed width. */
  lemma {:induction false} StreamRoundTrip(events: seq<Event>, cuts: Cuts)
    requires forall e :: e in events ==> WellTyped(e) && Short(e)
    ensures ReadAll(EncodeAll(events), cuts) == Some(CanonAll(events)) <==>
      AllSendable(events) && Intact(FieldsAll(events), 0, cuts)
    ensures |EncodeAll(events)| == Width(FieldsAll(events))
  {
    hide AllSendable, EncodeAll, CanonAll, FieldsAll, Encode, Canon, Sendable, WellTyped, Short, Fields, Width, Intact,
      ReadAll;
    if events == [] {
      NoEvents(cuts);
    } else {
      FirstOf(events);
      StreamRoundTrip(events[1..], cuts);
      OneMore(events[0], EncodeAll(events[1..]), CanonAll(events[1..]), FieldsAll(events[1..]), cuts);
    }
  }

  lemma NoEvents(cuts: Cuts)
    ensures EncodeAll([]) == [] && CanonAll([]) == [] && FieldsAll([]) == [] && AllSendable([])
    ensures ReadAll([], cuts) == Some([]) && Intact([], 0, cuts) && Width([]) == 0
  {}

  lemma FirstOf(events: seq<Event>)
    requires events != [] && forall e :: e in events ==> WellTyped(e) && Short(e)
    ensures WellTyped(events[0]) && Short(events[0])
    ensures forall e :: e in events[1..] ==> WellTyped(e) && Short(e)
    ensures EncodeAll(events) == Encode(events[0]) + EncodeAll(events[1..])
    ensures CanonAll(events) == [Canon(events[0])] + CanonAll(events[1..])
    ensures FieldsAll(events) == Fields(events[0]) + FieldsAll(events[1..])
    ensures AllSendable(events) <==> Sendable(events[0]) && AllSendable(events[1..])
  {
    hide WellTyped, Short, Encode, Canon, Fields, Sendable;
    assert events[0] in events && forall x :: x in events[1..] ==> x in events;
    assert events == [events[0]] + events[1..];
  }

  lemma OneMore(e: Event, rest: seq<Byte>, tail: seq<Event>, fields: seq<Field>, cuts: Cuts)
    requires WellTyped(e) && Short(e) && |rest| == Width(fields)
    ensures ReadAll(Encode(e) + rest, cuts) == Some([Canon(e)] + tail) && Intact(fields, 0, cuts) <==>
      Sendable(e) && Intact(Fields(e) + fields, 0, cuts) && ReadAll(rest, cuts) == Some(tail)
    ensures ReadAll(Encode(e) + rest, cuts) == Some([Canon(e)] + tail) ==> ReadAll(rest, cuts) == Some(tail)
    ensures Intact(Fields(e) + fields, 0, cuts) ==> Intact(fields, 0, cuts)
    ensures |Encode(e) + rest| == Width(Fields(e) + fields)
  {
    hide Encode, ReadEvent, Canon, Sendable, WellTyped, Short, Fields, Intact, ReadAll;
    EventRoundTrip(e, rest, cuts);
    IntactConcat(Fields(e), fields, 0, cuts);
    EncodeSome(e);
    ReadsFirst(Encode(e) + rest, cuts, Canon(e), tail, rest);
  }

  lemma EncodeSome(e: Event)
    requires Short(e)
    ensures Encode(e) != []
  {
    assert |EncodeInt(e.kind)| == 4;
  }

  predicate AllSendable(events: seq<Event>) {
    forall e :: e in events ==> Sendable(e)
  }

  lemma ReadsFirst(b: seq<Byte>, cuts: Cuts, e: Event, tail: seq<Event>, rest: seq<Byte>)
    requires b != []
    requires var r := ReadEvent(b, cuts); r == Got(e, rest) || r.Failed? || r.value != e
    ensures ReadAll(b, cuts) == Some([e] + tail) <==>
      ReadEvent(b, cuts) == Got(e, rest) && ReadAll(rest, cuts) == Some(tail)
  {
    hide ReadEvent;
    var r := ReadEvent(b, cuts);
    if r.Got? && ReadAll(r.rest, cuts).Some? {
      var t := ReadAll(r.rest, cuts).value;
      if [r.value] + t == [e] + tail {
        assert ([r.value] + t)[0] == r.value && ([e] + tail)[0] == e;
        assert ([r.value] + t)[1..] == t && ([e] + tail)[1..] == tail;
      }
    }
  }

  /** `c` is where one of the packets begins, counted from the end. */
  predicate AtPacket(events: seq<Event>, c: nat) {
    c == Width(FieldsAll(events)) || (events != [] && AtPacket(events[1..], c))
  }

  lemma {:induction false} QuietIntact(fields: seq<Field>, rest: nat, cuts: Cuts)
    requires Unbroken(cuts, rest, Width(fields))
    ensures Intact(fields, rest, cuts)
  {
    if fields != [] { QuietIntact(fields[1..], rest, cuts); }
  }

  lemma {:induction false} AtPacketBelow(events: seq<Event>, c: nat)
    requires AtPacket(events, c)
    ensures c <= Width(FieldsAll(events))
  {
    if events != [] && AtPacket(events[1..], c) {
      AtPacketBelow(events[1..], c);
      IntactConcat(Fields(events[0]), FieldsAll(events[1..]), 0, {});
    }
  }

  /** Deliveries of whole packets, any number at a time, never do harm. */
  lemma {:induction false} WholePacketsArrive(events: seq<Event>, cuts: Cuts)
    requires forall c :: c in cuts ==> c >= Width(FieldsAll(events)) || AtPacket(events, c)
    ensures Intact(FieldsAll(events), 0, cuts)
  {
    if events != [] {
      hide Fields, Intact;
      var first, tail := Fields(events[0]), FieldsAll(events[1..]);
      IntactConcat(first, tail, 0, cuts);
      forall c | c in cuts
        ensures c >= Width(tail) || AtPacket(events[1..], c)
        ensures !(Width(tail) < c < Width(tail) + Width(first))
      {
        if AtPacket(events[1..], c) { AtPacketBelow(events[1..], c); }
      }
      WholePacketsArrive(events[1..], cuts);
      QuietIntact(first, Width(tail), cuts);
    }
  }

  /** A delivery that ends inside the length of a string: the event is lost. */
  lemma CutInsideALength()
    ensures var e := Event(EV_PLIST_DEL, TextData([97]));
      WellTyped(e) && Short(e) && Sendable(e) && ReadAll(EncodeAll([e]), {}) == Some([e]) &&
      ReadAll(EncodeAll([e]), {3}) == None
  {
    var e := Event(EV_PLIST_DEL, TextData([97]));
    hide EncodeInt, EncodeText, ReadInt, ReadText;
    assert [e][1..] == [] && Encode(e) + [] == EncodeInt(EV_PLIST_DEL) + (EncodeText([97]) + []);
    var b := EncodeText([97]) + [];
    ReadsInt(EV_PLIST_DEL, b, {});
    ReadsInt(EV_PLIST_DEL, b, {3});
    ReadsText([97], [], {});
    ReadsText([97], [], {3});
    TextIntact([97], 0, {});
    TextIntact([97], 0, {3});
    assert 3 in {3} && !Unbroken({3}, 1, 4);
    assert ReadEvent(EncodeAll([e]), {}) == Got(e, []) && ReadEvent(EncodeAll([e]), {3}) == Failed;
    hide ReadEvent;
    assert ReadAll([], {}) == Some([]) && [e] + [] == [e];
  }

  lemma CanonTagsEncode(t: SentTags)
    requires ShortTags(t)
    ensures ShortTags(CanonTags(t)) && EncodeTags(CanonTags(t)) == EncodeTags(t)
    ensures CanonTags(CanonTags(t)) == CanonTags(t)
  {}

  /** Re-encoding what was received gives the same bytes, and a second transfer changes
      nothing more. */
  lemma CanonReencodes(e: Event)
    requires WellTyped(e) && Short(e)
    ensures WellTyped(Canon(e)) && Short(Canon(e)) && Encode(Canon(e)) == Encode(e) && Canon(Canon(e)) == Canon(e)
  {
    hide EncodeTags, CanonTags, EncodeText, EncodeInt, EncodeTime, HasTime;
    match e.data
    case ItemData(it) => CanonTagsEncode(OrNoTags(it.tags));
    case TagsData(f, t) => CanonTagsEncode(OrNoTags(t));
    case _ =>
  }
}
