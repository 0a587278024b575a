/** `audio.c` as values: where a list goes on, and the files that a whole run plays. */
module PlayOrder {
  import opened Basics
  import opened PlaylistSpec
  import opened PlaylistIndex
  import opened RbMoves
  import opened Playlists

  // ----- the files that a run plays

  /** The names of the live entries, in order. */
  function LiveNames(s: seq<Item>): (r: seq<string>)
    requires AllNamed(s)
  {
    if s == [] then []
    else
      var n := |s| - 1;
      LiveNames(s[..n]) + (if s[n].deleted then [] else [s[n].file.value])
  }

  lemma {:induction false} LiveNamesConcat(a: seq<Item>, b: seq<Item>)
    requires AllNamed(a) && AllNamed(b)
    ensures AllNamed(a + b) && LiveNames(a + b) == LiveNames(a) + LiveNames(b)
  {
    if b == [] {
      assert a + b == a;
    } else {
      var n := |b| - 1;
      assert (a + b)[..|a| + n] == a + b[..n];
      LiveNamesConcat(a, b[..n]);
    }
  }

  lemma {:induction false} LiveNamesNone(s: seq<Item>)
    requires AllNamed(s) && forall i :: 0 <= i < |s| ==> s[i].deleted
    ensures LiveNames(s) == []
  {
    if s != [] { LiveNamesNone(s[..|s| - 1]); }
  }

  lemma SomeLive(s: seq<Item>)
    requires AllNamed(s) && LiveNames(s) != []
    ensures exists i :: 0 <= i < |s| && !s[i].deleted
  {
    if forall i :: 0 <= i < |s| ==> s[i].deleted { LiveNamesNone(s); }
  }

  lemma NoneLive(s: seq<Item>)
    requires AllNamed(s) && LiveNames(s) == []
    ensures FirstFrom(s, 0, -1)
  {
    forall k | 0 <= k < |s| && !s[k].deleted ensures false { LiveSome(s, k); }
  }

  lemma {:induction false} CountIsLive(s: seq<Item>)
    requires AllNamed(s)
    ensures Total(LiveOne, s) == |LiveNames(s)|
  {
    if s != [] { CountIsLive(s[..|s| - 1]); }
  }

  /** `k` is the last live slot before `pos`; when repeating, the last of all precedes
      the first. */
  predicate Backward(s: seq<Item>, pos: int, repeat: bool, k: int) {
    if repeat && LastBelow(s, pos, -1) then LastBelow(s, |s|, k) else LastBelow(s, pos, k)
  }

  lemma LastLive(s: seq<Item>, end: nat, k: int)
    requires AllNamed(s) && end <= |s| && LastBelow(s, end, k)
    ensures LiveNames(s[..end]) == if k == -1 then [] else LiveNames(s[..k]) + [s[k].file.value]
  {
    if k == -1 {
      LiveNamesNone(s[..end]);
    } else {
      LiveNamesNone(s[k + 1..end]);
      LiveNamesConcat(s[..k + 1], s[k + 1..end]);
      assert s[..end] == s[..k + 1] + s[k + 1..end];
      assert s[..k + 1][..k] == s[..k];
    }
  }

  /** The step back goes to the last live entry before `pos`; from the first one it goes,
      when repeating, to the last of all, and otherwise nowhere. */
  lemma StepsBack(s: seq<Item>, pos: nat, repeat: bool, k: int)
    requires AllNamed(s) && pos <= |s| && Backward(s, pos, repeat, k)
    ensures var before := LiveNames(s[..if repeat && LiveNames(s[..pos]) == [] then |s| else pos]);
      if before == [] then k == -1 else 0 <= k < |s| && before == LiveNames(s[..k]) + [s[k].file.value]
  {
    hide LiveNames;
    if repeat && LastBelow(s, pos, -1) {
      LastLive(s, pos, -1);
      LastLive(s, |s|, k);
    } else {
      LastLive(s, pos, k);
    }
  }

  lemma LiveFrom(s: seq<Item>, from: nat, k: int)
    requires AllNamed(s) && from <= |s| && FirstFrom(s, from, k)
    ensures LiveNames(s[from..]) == if k == -1 then [] else [s[k].file.value] + LiveNames(s[k + 1..])
  {
    if k == -1 {
      LiveNamesNone(s[from..]);
    } else {
      LiveNamesNone(s[from..k]);
      assert [s[k]][..0] == [];
      LiveNamesConcat([s[k]], s[k + 1..]);
      LiveNamesConcat(s[from..k], [s[k]] + s[k + 1..]);
      assert s[from..] == s[from..k] + ([s[k]] + s[k + 1..]);
    }
  }

  /** How many live entries stand before slot k. */
  ghost function Rank(s: seq<Item>, k: nat): nat
    requires AllNamed(s) && k <= |s|
  {
    |LiveNames(s[..k])|
  }

  lemma NameAtRank(s: seq<Item>, k: nat)
    requires AllNamed(s) && k < |s| && !s[k].deleted
    ensures Rank(s, k) < |LiveNames(s)| && LiveNames(s)[Rank(s, k)] == s[k].file.value
  {
    hide LiveNames;
    LiveNamesConcat(s[..k], s[k..]);
    assert s == s[..k] + s[k..];
    LiveFrom(s, k, k);
  }

  /** The next live entry stands one place further; after the last one comes the first. */
  lemma NextRank(s: seq<Item>, k: nat, next: int)
    requires AllNamed(s) && k < |s| && !s[k].deleted
    requires FirstFrom(s, k + 1, next) || (FirstFrom(s, k + 1, -1) && FirstFrom(s, 0, next))
    ensures 0 <= next < |s| && !s[next].deleted ==>
      Rank(s, next) == if Rank(s, k) + 1 == |LiveNames(s)| then 0 else Rank(s, k) + 1
  {
    hide LiveNames;
    if 0 <= next < |s| && !s[next].deleted {
      LiveFrom(s, k, k);
      Rest(s, k);
      Rest(s, next);
      if FirstFrom(s, k + 1, next) {
        LiveFrom(s, k + 1, next);
      } else {
        LiveFrom(s, k + 1, -1);
        LiveNamesNone(s[..next]);
      }
      LiveFrom(s, next, next);
    }
  }

  lemma Rest(s: seq<Item>, k: nat)
    requires AllNamed(s) && k <= |s|
    ensures |LiveNames(s)| == Rank(s, k) + |LiveNames(s[k..])|
  {
    hide LiveNames;
    LiveNamesConcat(s[..k], s[k..]);
    assert s == s[..k] + s[k..];
  }

  /** Deleting the first live entry drops the first name. */
  lemma LiveNamesPopped(s: seq<Item>, k: nat)
    requires AllNamed(s) && k < |s| && FirstFrom(s, 0, k)
    ensures AllNamed(s[k := Erased(s[k])])
    ensures LiveNames(s) == [s[k].file.value] + LiveNames(s[k := Erased(s[k])])
  {
    var s' := s[k := Erased(s[k])];
    LiveNamesNone(s'[..k + 1]);
    LiveNamesConcat(s'[..k + 1], s'[k + 1..]);
    assert s' == s'[..k + 1] + s'[k + 1..];
    assert s'[k + 1..] == s[k + 1..] && s[0..] == s;
    LiveFrom(s, 0, k);
  }

  /** The slot from which the playlist goes on when the queue is used up: `last` was
      played last, `before` is what was played before the queue, `started` says that
      playing began in the queue, and `back` is the option QueueNextSongReturn. */
  function Resume(playlist: seq<Item>, last: string, before: Option<string>, started: bool, back: bool): (from: nat)
    ensures from <= |playlist|
  {
    var pos := Position(playlist, last, before, back);
    if pos == -1 || started then 0 else pos + 1
  }

  /** The file whose place is looked for first. */
  function Anchor(last: string, before: Option<string>, back: bool): string {
    if back && before.Some? then before.value else last
  }

  function Position(playlist: seq<Item>, last: string, before: Option<string>, back: bool): (pos: int)
    ensures -1 <= pos < |playlist|
  {
    var pos := Scan(playlist, Anchor(last, before, back));
    if pos == -1 && before.Some? then Scan(playlist, before.value) else pos
  }

  /** Everything that is played from `file` on: the file, the queue in order, and then
      the live entries from where the playlist goes on. */
  function Programme(playlist: seq<Item>, back: bool, file: string, before: Option<string>, started: bool,
                     queued: seq<string>): (played: seq<string>)
    requires AllNamed(playlist)
  {
    var first := [file] + queued;
    var last := first[|first| - 1];
    first + LiveNames(playlist[Resume(playlist, last, BeforeAt(before, file, |queued|), started, back)..])
  }

  /** What is remembered as played before the queue, when n files of the queue were taken. */
  function BeforeAt(before: Option<string>, file: string, n: nat): Option<string> {
    if n == 0 || before.Some? then before else Some(file)
  }

  /** The programme after the queue starts at the next live slot `k`. */
  lemma ProgrammeFrom(playlist: seq<Item>, back: bool, file: string, before: Option<string>, started: bool,
                      queued: seq<string>, k: int)
    requires AllNamed(playlist)
    requires
      var first := [file] + queued;
      var from := Resume(playlist, first[|first| - 1], BeforeAt(before, file, |queued|), started, back);
      FirstFrom(playlist, from, k) || (k == -1 && LiveNames(playlist) == [])
    ensures -1 <= k < |playlist| && (k != -1 ==> !playlist[k].deleted)
    ensures
      Programme(playlist, back, file, before, started, queued) ==
      [file] + queued + if k == -1 then [] else [playlist[k].file.value] + LiveNames(playlist[k + 1..])
  {
    hide LiveNames, Resume, FirstFrom;
    var first := [file] + queued;
    RestFrom(playlist, Resume(playlist, first[|first| - 1], BeforeAt(before, file, |queued|), started, back), k);
  }

  lemma PositionHere(s: seq<Item>, back: bool, k: nat)
    requires AllNamed(s) && FindsLive(s) && k < |s| && !s[k].deleted
    ensures Position(s, s[k].file.value, None, back) == k
  {}

  /** What is left of a programme that is stopped while the n-th file is played. */
  function Upto(programme: seq<string>, stop: Option<nat>): seq<string> {
    if stop.Some? && stop.value < |programme| then programme[..stop.value + 1] else programme
  }

  lemma LiveSome(s: seq<Item>, k: nat)
    requires AllNamed(s) && k < |s| && !s[k].deleted
    ensures LiveNames(s) != []
  {
    LiveNamesSplit(s, 0, k);
    assert s[0..] == s;
    LiveFrom(s, k, k);
  }

  /** From a located entry on, the programme is the rest of the playlist. */
  lemma ProgrammeLocated(playlist: seq<Item>, back: bool, k: nat)
    requires AllNamed(playlist) && k < |playlist| && Scan(playlist, playlist[k].file.value) == k
    ensures
      Programme(playlist, back, playlist[k].file.value, None, false, []) ==
      [playlist[k].file.value] + LiveNames(playlist[k + 1..])
  {}

  /** A run that begins in the queue plays the queue and then the whole playlist. */
  lemma StartedInQueue(playlist: seq<Item>, back: bool, queued: seq<string>, before: Option<string>)
    requires AllNamed(playlist) && queued != []
    ensures Programme(playlist, back, queued[0], before, true, queued[1..]) == queued + LiveNames(playlist)
  {
    assert queued == [queued[0]] + queued[1..];
    assert playlist[0..] == playlist;
  }

  /** After the queue the playlist goes on behind the file from which the queue was
      entered, if QueueNextSongReturn is set or the last queued file is not in the list. */
  lemma ReturnsBehind(playlist: seq<Item>, back: bool, k: nat, queued: seq<string>)
    requires AllNamed(playlist) && k < |playlist| && Scan(playlist, playlist[k].file.value) == k && queued != []
    requires back || Scan(playlist, queued[|queued| - 1]) == -1
    ensures
      Programme(playlist, back, playlist[k].file.value, None, false, queued) ==
      [playlist[k].file.value] + queued + LiveNames(playlist[k + 1..])
  {
    LastOf(playlist[k].file.value, queued);
  }

  /** The same in the middle of the queue: that entry was played before it. */
  lemma ReturnsLater(playlist: seq<Item>, back: bool, k: nat, file: string, queued: seq<string>)
    requires AllNamed(playlist) && k < |playlist| && Scan(playlist, playlist[k].file.value) == k
    requires back || Scan(playlist, if queued == [] then file else queued[|queued| - 1]) == -1
    ensures
      Programme(playlist, back, file, playlist[k].file, false, queued) ==
      [file] + queued + LiveNames(playlist[k + 1..])
  {
    LastOf(file, queued);
  }

  /** Without QueueNextSongReturn it goes on behind the file played last, if that is in
      the list. */
  lemma GoesOnBehindLast(playlist: seq<Item>, j: nat, file: string, before: Option<string>, queued: seq<string>)
    requires AllNamed(playlist) && j < |playlist|
    requires Scan(playlist, if queued == [] then file else queued[|queued| - 1]) == j
    ensures
      Programme(playlist, false, file, before, false, queued) == [file] + queued + LiveNames(playlist[j + 1..])
  {
    LastOf(file, queued);
  }

  /** If neither file is in the list, it is played from its start. */
  lemma StartsOver(playlist: seq<Item>, back: bool, file: string, before: Option<string>, queued: seq<string>)
    requires AllNamed(playlist)
    requires Scan(playlist, if queued == [] then file else queued[|queued| - 1]) == -1
    requires Scan(playlist, if before.Some? then before.value else file) == -1
    ensures Programme(playlist, back, file, before, false, queued) == [file] + queued + LiveNames(playlist)
  {
    LastOf(file, queued);
    assert playlist[0..] == playlist;
  }

  lemma LastOf(file: string, queued: seq<string>)
    ensures ([file] + queued)[|queued|] == if queued == [] then file else queued[|queued| - 1]
  {}

  lemma RestFrom(s: seq<Item>, from: nat, k: int)
    requires AllNamed(s) && from <= |s|
    requires FirstFrom(s, from, k) || (k == -1 && LiveNames(s) == [])
    ensures -1 <= k < |s| && (k != -1 ==> !s[k].deleted)
    ensures LiveNames(s[from..]) == if k == -1 then [] else [s[k].file.value] + LiveNames(s[k + 1..])
  {
    if FirstFrom(s, from, k) {
      LiveFrom(s, from, k);
    } else {
      LiveNamesSplit(s, 0, from);
      assert s[0..] == s;
    }
  }

  /** With an empty queue, a run that starts at a live entry plays exactly the live
      entries from there on if and only if no flag is left over from an earlier run:
      playing did not begin in the queue, and there is no other file to return to. */
  lemma PlaysTheRest(playlist: seq<Item>, back: bool, k: nat, before: Option<string>, started: bool)
    requires AllNamed(playlist) && k < |playlist| && !playlist[k].deleted
    requires Scan(playlist, playlist[k].file.value) == k
    ensures
      Programme(playlist, back, playlist[k].file.value, before, started, []) == LiveNames(playlist[k..]) <==>
      !started && (back && before.Some? ==> before.value == playlist[k].file.value)
  {
    hide LiveNames, Scan, Position, Resume, Programme;
    var f := playlist[k].file.value;
    var from := Resume(playlist, f, before, started, back);
    ResumeHere(playlist, back, k, before, started);
    LiveFrom(playlist, k, k);
    SameRest(playlist, from, k + 1);
    ProgrammeAlone(playlist, back, f, before, started);
    SameTail(f, LiveNames(playlist[from..]), LiveNames(playlist[k + 1..]));
  }

  lemma ProgrammeAlone(playlist: seq<Item>, back: bool, f: string, before: Option<string>, started: bool)
    requires AllNamed(playlist)
    ensures Programme(playlist, back, f, before, started, []) ==
      [f] + LiveNames(playlist[Resume(playlist, f, before, started, back)..])
  {
    assert [f] + [] == [f];
  }

  lemma SameTail(f: string, a: seq<string>, b: seq<string>)
    ensures [f] + a == [f] + b <==> a == b
  {
    assert ([f] + a)[1..] == a && ([f] + b)[1..] == b;
  }

  lemma SameRest(s: seq<Item>, a: nat, b: nat)
    requires AllNamed(s) && a <= |s| && 0 < b <= |s| && !s[b - 1].deleted && (a > 0 ==> !s[a - 1].deleted)
    ensures LiveNames(s[a..]) == LiveNames(s[b..]) <==> a == b
  {
    if a < b {
      LaterIsShorter(s, a, b, b - 1);
    } else if b < a {
      LaterIsShorter(s, b, a, a - 1);
    }
  }

  lemma ResumeHere(playlist: seq<Item>, back: bool, k: nat, before: Option<string>, started: bool)
    requires AllNamed(playlist) && k < |playlist| && !playlist[k].deleted
    requires Scan(playlist, playlist[k].file.value) == k
    ensures var from := Resume(playlist, playlist[k].file.value, before, started, back);
      && (from == k + 1 <==> !started && (back && before.Some? ==> before.value == playlist[k].file.value))
      && (from > 0 ==> !playlist[from - 1].deleted)
  {
    if before.Some? {
      var r := Scan(playlist, before.value);
      assert r != -1 ==> Live(playlist[r], before.value);
    }
  }

  /** Leaving out a live entry leaves fewer names. */
  lemma LaterIsShorter(s: seq<Item>, a: nat, b: nat, k: nat)
    requires AllNamed(s) && a <= k < b <= |s| && !s[k].deleted
    ensures |LiveNames(s[b..])| < |LiveNames(s[a..])|
  {
    LiveFrom(s, k, k);
    LiveNamesSplit(s, a, k);
    LiveNamesSplit(s, k + 1, b);
  }

  lemma LiveNamesSplit(s: seq<Item>, a: nat, b: nat)
    requires AllNamed(s) && a <= b <= |s|
    ensures LiveNames(s[a..]) == LiveNames(s[a..b]) + LiveNames(s[b..])
  {
    LiveNamesConcat(s[a..b], s[b..]);
    assert s[a..] == s[a..b] + s[b..];
  }

  /** A live entry is the one that a search for its name finds. */
  lemma ScanFindsLive(coll: string -> real, items: seq<Item>, s: seq<int>, i: nat)
    requires Collation(coll) && Indexed(items, s) && Ascending(ByName(coll, items), s)
    requires i < |items| && !items[i].deleted && items[i].file.Some?
    ensures Scan(items, items[i].file.value) == i
  {
    var r := Scan(items, items[i].file.value);
    assert Live(items[i], items[i].file.value);
    assert i in s && r in s;
    SameWeightSameSlot(ByName(coll, items), s, i, r);
  }

  /** Each live entry of a list is found under its name. */
  lemma FoundByName(p: PList)
    requires p.Valid() && AllNamed(p.items)
    ensures FindsLive(p.items)
  {
    forall k | 0 <= k < |p.items| && !p.items[k].deleted
      ensures Scan(p.items, p.items[k].file.value) == k
    {
      ScanFindsLive(p.coll, p.items, p.tree.Contents(), k);
    }
  }

  predicate FindsLive(s: seq<Item>)
    requires AllNamed(s)
  {
    forall k :: 0 <= k < |s| && !s[k].deleted ==> Scan(s, s[k].file.value) == k
  }

  lemma {:induction false} LiveNamesLive(s: seq<Item>, name: string)
    requires AllNamed(s) && name in LiveNames(s)
    ensures IsLive(s, name)
  {
    var n := |s| - 1;
    if !s[n].deleted && name == s[n].file.value {
      assert Live(s[n], name);
    } else {
      LiveNamesLive(s[..n], name);
      var i :| 0 <= i < n && Live(s[..n][i], name);
      assert Live(s[i], name);
    }
  }

  lemma LiveIsNamed(s: seq<Item>, k: nat)
    requires AllNamed(s) && k < |s| && !s[k].deleted
    ensures s[k].file.value in LiveNames(s)
  {
    LiveNamesSplit(s, 0, k);
    assert s[0..] == s;
    LiveFrom(s, k, k);
    assert LiveNames(s[k..])[0] == s[k].file.value;
    assert LiveNames(s)[|LiveNames(s[0..k])|] == s[k].file.value;
  }

  /** A search finds a name exactly when it is listed. */
  lemma ScanIsListed(s: seq<Item>, name: string)
    requires AllNamed(s)
    ensures Scan(s, name) != -1 <==> name in LiveNames(s)
  {
    var k := Scan(s, name);
    if k != -1 { LiveIsNamed(s, k); }
    if name in LiveNames(s) { LiveNamesLive(s, name); }
  }

  /** No name is listed twice. */
  lemma {:induction false} LiveNamesDistinct(s: seq<Item>, m: nat)
    requires AllNamed(s) && FindsLive(s) && m <= |s|
    ensures forall i, j :: 0 <= i < j < |LiveNames(s[..m])| ==> LiveNames(s[..m])[i] != LiveNames(s[..m])[j]
  {
    if m > 0 {
      var t := s[..m - 1];
      assert s[..m][..m - 1] == t;
      LiveNamesDistinct(s, m - 1);
      if !s[m - 1].deleted && s[m - 1].file.value in LiveNames(t) {
        LiveNamesLive(t, s[m - 1].file.value);
      }
    }
  }

  /** The queue holds each file once. */
  lemma ListedOnce(p: PList)
    requires p.Valid() && AllNamed(p.items)
    ensures forall i, j :: 0 <= i < j < |LiveNames(p.items)| ==> LiveNames(p.items)[i] != LiveNames(p.items)[j]
  {
    FoundByName(p);
    assert p.items[..|p.items|] == p.items;
    LiveNamesDistinct(p.items, |p.items|);
  }

  // ----- the shuffled list

  /** The live entries, in order. */
  function LiveItems(s: seq<Item>): (r: seq<Item>)
    ensures forall k :: 0 <= k < |r| ==> !r[k].deleted
  {
    if s == [] then []
    else
      var n := |s| - 1;
      LiveItems(s[..n]) + if s[n].deleted then [] else [s[n]]
  }

  lemma {:induction false} LiveItemsNames(s: seq<Item>)
    requires AllNamed(s)
    ensures AllNamed(LiveItems(s)) && LiveNames(LiveItems(s)) == LiveNames(s)
  {
    if s != [] {
      var n := |s| - 1;
      LiveItemsNames(s[..n]);
      if s[n].deleted {
        assert LiveItems(s) == LiveItems(s[..n]);
      } else {
        LiveNamesConcat(LiveItems(s[..n]), [s[n]]);
        assert [s[n]][..0] == [];
      }
    }
  }

  lemma {:induction false} LiveItemsIn(s: seq<Item>, x: Item)
    requires x in LiveItems(s)
    ensures exists i :: 0 <= i < |s| && s[i] == x
  {
    var n := |s| - 1;
    if x in LiveItems(s[..n]) {
      LiveItemsIn(s[..n], x);
      var i :| 0 <= i < n && s[..n][i] == x;
      assert s[i] == x;
    }
  }

  /** Appending a list with distinct live names to an empty one copies its live entries. */
  lemma {:induction false} ConcatenatedLive(s: seq<Item>, i: nat)
    requires AllNamed(s) && FindsLive(s) && i <= |s|
    ensures Concatenated(LiveItems(s[..i]), s, i) == LiveItems(s)
    decreases |s| - i
  {
    if i == |s| {
      assert s[..i] == s;
    } else {
      ConcatenatedLive(s, i + 1);
      assert s[..i + 1][..i] == s[..i];
      if s[i].deleted {
        assert LiveItems(s[..i + 1]) == LiveItems(s[..i]);
      } else {
        NotYetLive(s, i);
      }
    }
  }

  lemma NotYetLive(s: seq<Item>, i: nat)
    requires AllNamed(s) && FindsLive(s) && i < |s| && !s[i].deleted
    ensures Scan(LiveItems(s[..i]), s[i].file.value) == -1
  {
    var r := LiveItems(s[..i]);
    var k := Scan(r, s[i].file.value);
    if k != -1 {
      assert r[k] in r;
      LiveItemsIn(s[..i], r[k]);
    }
  }

  lemma {:induction false} LiveItemsDistinct(s: seq<Item>, m: nat)
    requires AllNamed(s) && FindsLive(s) && m <= |s|
    ensures DistinctNames(LiveItems(s[..m])) && AllNamed(LiveItems(s[..m]))
  {
    LiveItemsNames(s[..m]);
    if m > 0 {
      var r := LiveItems(s[..m - 1]);
      assert s[..m][..m - 1] == s[..m - 1];
      LiveItemsDistinct(s, m - 1);
      if !s[m - 1].deleted {
        NotYetLive(s, m - 1);
        assert forall k :: 0 <= k < |r| ==> !Live(r[k], s[m - 1].file.value);
      }
    }
  }

  /** The names of a list do not depend on its order. */
  lemma {:induction false} LiveNamesPermuted(s: seq<Item>, t: seq<Item>)
    requires AllNamed(s) && AllNamed(t) && multiset(s) == multiset(t)
    ensures multiset(LiveNames(s)) == multiset(LiveNames(t))
  {
    hide LiveNames, AllNamed;
    if s == [] {
      assert |t| == |multiset(t)| == |multiset(s)|;
      assert t == [];
    } else {
      var n := |s| - 1;
      PutBack(s, n);
      LiveNamesWithout(s, n);
      assert s[n] in multiset(t);
      var i :| 0 <= i < |t| && t[i] == s[n];
      PutBack(t, i);
      LiveNamesWithout(t, i);
      assert multiset(s[..n] + s[n + 1..]) == multiset(s) - multiset{s[n]};
      assert multiset(t[..i] + t[i + 1..]) == multiset(t) - multiset{t[i]};
      LiveNamesPermuted(s[..n] + s[n + 1..], t[..i] + t[i + 1..]);
    }
  }

  lemma LiveNamesOne(x: Item)
    requires x.file.Some?
    ensures AllNamed([x]) && LiveNames([x]) == if x.deleted then [] else [x.file.value]
  {
    assert [x][..0] == [];
  }

  lemma LiveNamesWithout(s: seq<Item>, i: nat)
    requires AllNamed(s) && i < |s|
    ensures AllNamed(s[..i] + s[i + 1..]) && s[i].file.Some?
    ensures multiset(LiveNames(s)) ==
      multiset(LiveNames(s[..i] + s[i + 1..])) + if s[i].deleted then multiset{} else multiset{s[i].file.value}
  {
    hide LiveNames;
    LiveNamesThree(s[..i], s[i], s[i + 1..]);
    assert s == s[..i] + [s[i]] + s[i + 1..];
    TakenOut(LiveNames(s[..i]), LiveNames([s[i]]), LiveNames(s[i + 1..]));
  }

  lemma LiveNamesThree(a: seq<Item>, x: Item, b: seq<Item>)
    requires AllNamed(a) && x.file.Some? && AllNamed(b)
    ensures AllNamed(a + b) && AllNamed([x]) && AllNamed(a + [x] + b)
    ensures LiveNames([x]) == if x.deleted then [] else [x.file.value]
    ensures LiveNames(a + b) == LiveNames(a) + LiveNames(b)
    ensures LiveNames(a + [x] + b) == LiveNames(a) + LiveNames([x]) + LiveNames(b)
  {
    hide LiveNames, AllNamed;
    LiveNamesOne(x);
    LiveNamesConcat(a, b);
    LiveNamesConcat(a, [x]);
    LiveNamesConcat(a + [x], b);
  }

  lemma TakenOut(a: seq<string>, x: seq<string>, b: seq<string>)
    ensures multiset(a + x + b) == multiset(a + b) + multiset(x)
  {}

  /** What appending a valid list to an empty one gives. */
  lemma CopiedLive(p: PList)
    requires p.Valid() && AllNamed(p.items)
    ensures FindsLive(p.items) && Concatenated([], p.items) == LiveItems(p.items)
    ensures AllNamed(LiveItems(p.items)) && DistinctNames(LiveItems(p.items))
  {
    hide PList.Valid;
    FoundByName(p);
    assert p.items[..0] == [] && p.items[..|p.items|] == p.items;
    ConcatenatedLive(p.items, 0);
    LiveItemsDistinct(p.items, |p.items|);
  }

  /** The shuffled list holds the live names of the playlist, each as often. */
  ghost predicate InStep(playlist: seq<Item>, shuffled: seq<Item>) {
    && AllNamed(playlist) && AllNamed(shuffled)
    && multiset(LiveNames(shuffled)) == multiset(LiveNames(playlist))
  }

  lemma InStepEmpty(playlist: seq<Item>, shuffled: seq<Item>)
    requires InStep(playlist, shuffled)
    ensures LiveNames(shuffled) == [] <==> LiveNames(playlist) == []
  {
    assert |LiveNames(shuffled)| == |multiset(LiveNames(shuffled))|;
    assert |LiveNames(playlist)| == |multiset(LiveNames(playlist))|;
  }

  /** A freshly shuffled list: the live entries of the playlist in some order. */
  ghost predicate Mixed(playlist: seq<Item>, shuffled: seq<Item>) {
    && InStep(playlist, shuffled) && DistinctNames(shuffled)
    && forall k :: 0 <= k < |shuffled| ==> !shuffled[k].deleted
  }

  /** `first`, if it is there, stands first. */
  predicate Leads(shuffled: seq<Item>, first: string) {
    Scan(shuffled, first) <= 0
  }

  /** Moving a name of a freshly shuffled list to the front. */
  lemma SwappedMixed(playlist: seq<Item>, s: seq<Item>, first: string)
    requires Mixed(playlist, s)
    ensures Scan(s, first) > 0 ==> CanSwapFirst(s, Scan(s, first)) && s[0].file != Some(first)
    ensures var i := Scan(s, first);
      var s' := if i > 0 then Swapped(s, 0, i) else s;
      Mixed(playlist, s') && Leads(s', first)
  {
    hide LiveNames, Scan, DistinctNames, Swapped;
    var i := Scan(s, first);
    if i > 0 {
      SwappedNames(s, i, first);
      var s' := Swapped(s, 0, i);
      SwappedPermutes(s, 0, i);
      PermutedNames(s, s');
      LiveNamesPermuted(s, s');
    }
  }

  lemma SwappedNames(s: seq<Item>, i: nat, first: string)
    requires AllNamed(s) && DistinctNames(s) && (forall k :: 0 <= k < |s| ==> !s[k].deleted)
    requires 0 < i < |s| && Live(s[i], first)
    ensures CanSwapFirst(s, i) && s[0].file != Some(first)
    ensures var s' := Swapped(s, 0, i); Scan(s', first) == 0 && forall k :: 0 <= k < |s'| ==> !s'[k].deleted
  {
    var s' := Swapped(s, 0, i);
    assert Live(s'[0], first);
    assert forall j :: 0 < j < |s| ==> s[0].file != s[j].file;
  }

  lemma ShuffledMixed(playlist: seq<Item>, s: seq<Item>)
    requires AllNamed(playlist) && FindsLive(playlist) && multiset(s) == multiset(LiveItems(playlist))
    requires AllNamed(s) && DistinctNames(s)
    ensures Mixed(playlist, s)
  {
    LiveItemsNames(playlist);
    LiveNamesPermuted(s, LiveItems(playlist));
    forall k | 0 <= k < |s| ensures !s[k].deleted {
      assert s[k] in multiset(s);
      assert s[k] in LiveItems(playlist);
    }
  }

  lemma MixedInStep(playlist: seq<Item>, s: seq<Item>)
    requires Mixed(playlist, s)
    ensures InStep(playlist, s) && AllNamed(s)
  {}

  lemma InStepFinds(playlist: seq<Item>, s: seq<Item>, name: string)
    requires InStep(playlist, s)
    ensures Scan(s, name) != -1 <==> Scan(playlist, name) != -1
  {
    ScanIsListed(playlist, name);
    ScanIsListed(s, name);
    assert name in LiveNames(s) <==> name in multiset(LiveNames(s));
    assert name in LiveNames(playlist) <==> name in multiset(LiveNames(playlist));
  }

  /** With Shuffle, playing from a file plays each live entry once, that file first. */
  lemma ShufflePlaysAll(playlist: seq<Item>, s: seq<Item>, back: bool, name: string)
    requires Mixed(playlist, s) && Leads(s, name) && Scan(playlist, name) != -1
    ensures var played := Programme(s, back, name, None, false, []);
      multiset(played) == multiset(LiveNames(playlist)) && played != [] && played[0] == name
  {
    hide LiveNames, Programme;
    InStepFinds(playlist, s, name);
    assert Scan(s, name) == 0;
    assert s[0..] == s;
    LiveFrom(s, 0, 0);
    ProgrammeLocated(s, back, 0);
  }

  /** Deleting an entry takes its name away. */
  lemma LiveNamesErased(s: seq<Item>, k: nat)
    requires AllNamed(s) && k < |s| && !s[k].deleted
    ensures AllNamed(s[k := Erased(s[k])])
    ensures multiset(LiveNames(s[k := Erased(s[k])])) == multiset(LiveNames(s)) - multiset{s[k].file.value}
  {
    hide LiveNames;
    var e := Erased(s[k]);
    var a, b := s[..k], s[k + 1..];
    assert s == a + [s[k]] + b && s[k := e] == a + [e] + b;
    LiveNamesThree(a, s[k], b);
    LiveNamesThree(a, e, b);
    TakenOut(LiveNames(a), LiveNames([s[k]]), LiveNames(b));
    TakenOut(LiveNames(a), [], LiveNames(b));
  }

  lemma InStepErased(playlist: seq<Item>, s: seq<Item>, i: nat, k: nat)
    requires InStep(playlist, s) && i < |playlist| && k < |s| && !playlist[i].deleted && !s[k].deleted
    requires playlist[i].file == s[k].file
    ensures InStep(playlist[i := Erased(playlist[i])], s[k := Erased(s[k])])
  {
    LiveNamesErased(playlist, i);
    LiveNamesErased(s, k);
  }
}
