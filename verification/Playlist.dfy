/** `playlist.c` as values: items, the totals kept in the caches, the linear scan that
    the index must agree with, and what each operation does to the item array. */
module PlaylistSpec {
  import opened Basics

  datatype FileType = Dir | Sound | Url | List | Theme | Other

  /** `struct file_tags`. */
  datatype Tags = Tags(title: Option<string>, artist: Option<string>, album: Option<string>,
                       track: int, time: int, filled: bv32)

  const TAGS_COMMENTS: bv32 := 1
  const TAGS_TIME: bv32 := 2

  const NEW_TAGS := Tags(None, None, None, -1, -1, 0)

  /** `struct plist_item`; an unnamed item has no file. */
  datatype Item = Item(file: Option<string>, kind: FileType, titleFile: Option<string>, titleTags: Option<string>,
                       tags: Option<Tags>, deleted: bool, mtime: int, queuePos: int)

  predicate Live(it: Item, name: string) {
    !it.deleted && it.file == Some(name)
  }

  predicate AllNamed(items: seq<Item>) {
    forall i :: 0 <= i < |items| ==> items[i].file.Some?
  }

  predicate DistinctNames(items: seq<Item>) {
    forall i, j :: 0 <= i < j < |items| ==> items[i].file != items[j].file
  }

  ghost predicate IsLive(items: seq<Item>, name: string) {
    exists i :: 0 <= i < |items| && Live(items[i], name)
  }

  /** The first live item called `name`, by linear scan from `i`; -1 if there is none. */
  function Scan(items: seq<Item>, name: string, i: nat := 0): (r: int)
    requires i <= |items|
    ensures r == -1 || i <= r < |items|
    ensures r != -1 ==> Live(items[r], name)
    ensures forall j :: i <= j < |items| && (r == -1 || j < r) ==> !Live(items[j], name)
    decreases |items| - i
  {
    if i == |items| then -1
    else if Live(items[i], name) then i
    else Scan(items, name, i + 1)
  }

  // ----- live slots

  /** `k` is the first live slot from `from` on, or -1 if there is none. */
  predicate FirstFrom(s: seq<Item>, from: nat, k: int) {
    && (k == -1 || (from <= k < |s| && !s[k].deleted))
    && (forall j :: from <= j < |s| && (k == -1 || j < k) ==> s[j].deleted)
  }

  /** `k` is the last live slot below `end`, or -1 if there is none. */
  predicate LastBelow(s: seq<Item>, end: int, k: int) {
    && (k == -1 || (0 <= k < end && k < |s| && !s[k].deleted))
    && (forall j :: 0 <= j < end && j < |s| && k < j ==> s[j].deleted)
  }

  lemma OneFirst(s: seq<Item>, from: nat, k: int)
    requires FirstFrom(s, from, k) && k != -1
    ensures !FirstFrom(s, from, -1)
  {}

  lemma OneLast(s: seq<Item>, end: int, k: int)
    requires LastBelow(s, end, k) && k != -1
    ensures !LastBelow(s, end, -1)
  {}

  // ----- totals

  function LiveOne(it: Item): int { if it.deleted then 0 else 1 }

  predicate Timed(it: Item) { !it.deleted && it.tags.Some? && it.tags.value.time != -1 }

  function TimedOne(it: Item): int { if Timed(it) then 1 else 0 }

  function TimeOf(it: Item): int { if Timed(it) then it.tags.value.time else 0 }

  /** A deleted item counts for nothing; a live one counts for one item, and for its time
      if that is known, be it 0. */
  lemma CountsFor(it: Item)
    ensures it.deleted ==> LiveOne(it) == TimedOne(it) == TimeOf(it) == 0
    ensures !it.deleted ==> LiveOne(it) == 1
    ensures !it.deleted && (it.tags.None? || it.tags.value.time == -1) ==> TimedOne(it) == TimeOf(it) == 0
    ensures !it.deleted && it.tags.Some? && it.tags.value.time != -1 ==>
      TimedOne(it) == 1 && TimeOf(it) == it.tags.value.time
  {}

  function Total(f: Item -> int, s: seq<Item>): int {
    if s == [] then 0 else Total(f, s[..|s| - 1]) + f(s[|s| - 1])
  }

  lemma TotalAppend(f: Item -> int, s: seq<Item>, x: Item)
    ensures Total(f, s + [x]) == Total(f, s) + f(x)
  {
    assert (s + [x])[..|s|] == s;
  }

  lemma {:induction false} TotalUpdate(f: Item -> int, s: seq<Item>, i: nat, x: Item)
    requires i < |s|
    ensures Total(f, s[i := x]) == Total(f, s) - f(s[i]) + f(x)
  {
    var n := |s| - 1;
    if i == n {
      assert s[i := x][..n] == s[..n];
    } else {
      assert s[i := x][..n] == s[..n][i := x];
      TotalUpdate(f, s[..n], i, x);
    }
  }

  lemma {:induction false} TotalRemove(f: Item -> int, s: seq<Item>, i: nat)
    requires i < |s|
    ensures Total(f, s[..i] + s[i + 1..]) == Total(f, s) - f(s[i])
  {
    var n := |s| - 1;
    if i == n {
      assert s[..i] + s[i + 1..] == s[..n];
    } else {
      var r := s[..i] + s[i + 1..];
      assert r[..|r| - 1] == s[..n][..i] + s[..n][i + 1..];
      TotalRemove(f, s[..n], i);
    }
  }

  /** A total does not depend on the order. */
  lemma {:induction false} TotalPermutation(f: Item -> int, s: seq<Item>, t: seq<Item>)
    requires multiset(s) == multiset(t)
    ensures Total(f, s) == Total(f, t)
  {
    if s == [] {
      assert |t| == |multiset(t)| == |multiset(s)|;
    } else {
      var n := |s| - 1;
      var x := s[n];
      assert s == s[..n] + [x];
      assert x in multiset(t);
      var i :| 0 <= i < |t| && t[i] == x;
      assert t == t[..i] + [x] + t[i + 1..];
      assert multiset(t[..i] + t[i + 1..]) == multiset(t) - multiset{x};
      TotalPermutation(f, s[..n], t[..i] + t[i + 1..]);
      TotalRemove(f, t, i);
    }
  }

  lemma {:induction false} TotalZero(f: Item -> int, s: seq<Item>)
    requires forall i :: 0 <= i < |s| ==> f(s[i]) == 0
    ensures Total(f, s) == 0
  {
    if s != [] { TotalZero(f, s[..|s| - 1]); }
  }

  lemma {:induction false} TotalPointwise(f: Item -> int, s: seq<Item>, t: seq<Item>)
    requires |s| == |t| && forall i :: 0 <= i < |s| ==> f(s[i]) == f(t[i])
    ensures Total(f, s) == Total(f, t)
  {
    if s != [] { TotalPointwise(f, s[..|s| - 1], t[..|t| - 1]); }
  }

  lemma {:induction false} TotalAllLive(s: seq<Item>)
    requires forall i :: 0 <= i < |s| ==> !s[i].deleted
    ensures Total(LiveOne, s) == |s|
  {
    if s != [] { TotalAllLive(s[..|s| - 1]); }
  }

  ghost function Identity(n: nat): seq<int> {
    seq(n, i => i)
  }

  /** The items in the order of the slots in `s`. */
  ghost function Select(items: seq<Item>, s: seq<int>): (r: seq<Item>)
    requires forall k :: 0 <= k < |s| ==> 0 <= s[k] < |items|
    ensures |r| == |s|
  {
    seq(|s|, k requires 0 <= k < |s| => items[s[k]])
  }

  /** Each slot below `n` occurs in `s`, once, and nothing else does. */
  ghost predicate Covers(s: seq<int>, n: nat) {
    && (forall k :: 0 <= k < |s| ==> 0 <= s[k] < n)
    && (forall i :: 0 <= i < n ==> i in s)
    && (forall i, j :: 0 <= i < j < |s| ==> s[i] != s[j])
  }

  lemma CoversDrop(s: seq<int>, n: nat, j: nat)
    requires Covers(s, n + 1) && j < |s| && s[j] == n
    ensures Covers(s[..j] + s[j + 1..], n)
  {
    var r := s[..j] + s[j + 1..];
    assert forall k :: 0 <= k < |r| ==> r[k] == s[if k < j then k else k + 1];
    forall i | 0 <= i < n ensures i in r {
      assert i in s;
      var k :| 0 <= k < |s| && s[k] == i;
      assert r[if k < j then k else k - 1] == i;
    }
  }

  /** Slots that cover the array without repetition list a permutation of it. */
  lemma {:induction false} SelectPermutes(items: seq<Item>, s: seq<int>)
    requires Covers(s, |items|)
    ensures |s| == |items| && multiset(Select(items, s)) == multiset(items)
  {
    if items == [] {
      assert multiset(s) == multiset{};
      assert |s| == |multiset(s)|;
    } else {
      var n := |items| - 1;
      assert n in s;
      var j :| 0 <= j < |s| && s[j] == n;
      CoversDrop(s, n, j);
      hide Covers;
      SelectPermutes(items[..n], s[..j] + s[j + 1..]);
      SelectWithout(items, s, j);
    }
  }

  lemma SelectWithout(items: seq<Item>, s: seq<int>, j: nat)
    requires items != [] && j < |s| && s[j] == |items| - 1
    requires forall k :: 0 <= k < |s| ==> 0 <= s[k] < |items|
    requires var r := s[..j] + s[j + 1..]; forall k :: 0 <= k < |r| ==> 0 <= r[k] < |items| - 1
    ensures var n := |items| - 1; var r := s[..j] + s[j + 1..];
      && multiset(Select(items, s)) == multiset(Select(items[..n], r)) + multiset{items[n]}
      && multiset(items) == multiset(items[..n]) + multiset{items[n]}
  {
    var n, r, a := |items| - 1, s[..j] + s[j + 1..], Select(items, s);
    assert Select(items[..n], r) == a[..j] + a[j + 1..];
    PutBack(a, j);
    assert items == items[..n] + [items[n]];
  }

  lemma PutBack(a: seq<Item>, j: nat)
    requires j < |a|
    ensures multiset(a) == multiset(a[..j] + a[j + 1..]) + multiset{a[j]}
  {
    assert a == a[..j] + [a[j]] + a[j + 1..];
  }

  function Swapped(s: seq<Item>, a: nat, b: nat): (r: seq<Item>)
    requires a < |s| && b < |s|
    ensures |r| == |s|
  {
    s[a := s[b]][b := s[a]]
  }

  /** Two items change places and no other moves. */
  lemma TwoTraded(s: seq<Item>, a: nat, b: nat, k: nat)
    requires a < |s| && b < |s| && k < |s|
    ensures Swapped(s, a, b)[k] == if k == a then s[b] else if k == b then s[a] else s[k]
  {}

  lemma SwappedPermutes(s: seq<Item>, a: nat, b: nat)
    requires a < |s| && b < |s|
    ensures multiset(Swapped(s, a, b)) == multiset(s)
  {}

  /** The items after the first `n` exchanges of a shuffle; `picks` are the random slots. */
  function Shuffled(s: seq<Item>, picks: seq<nat>, n: nat): (r: seq<Item>)
    requires n <= |picks| == |s| && forall k :: 0 <= k < |picks| ==> picks[k] < |s|
    ensures |r| == |s|
  {
    if n == 0 then s else Swapped(Shuffled(s, picks, n - 1), n - 1, picks[n - 1])
  }

  lemma {:induction false} ShuffledPermutes(s: seq<Item>, picks: seq<nat>, n: nat)
    requires n <= |picks| == |s| && forall k :: 0 <= k < |picks| ==> picks[k] < |s|
    ensures multiset(Shuffled(s, picks, n)) == multiset(s)
  {
    hide Swapped;
    if n > 0 {
      ShuffledPermutes(s, picks, n - 1);
      SwappedPermutes(Shuffled(s, picks, n - 1), n - 1, picks[n - 1]);
    }
  }

  /** A shuffle can give every order. */
  lemma AnyOrder(s: seq<Item>, t: seq<Item>) returns (picks: seq<nat>)
    requires multiset(s) == multiset(t)
    ensures |picks| == |s| && (forall k :: 0 <= k < |picks| ==> picks[k] < |s|)
    ensures Shuffled(s, picks, |s|) == t
  {
    SameLength(s, t);
    picks := OrderUpto(s, t, |s|);
    var r := Shuffled(s, picks, |s|);
    assert r == r[..|s|] && t == t[..|s|];
  }

  lemma SameLength(s: seq<Item>, t: seq<Item>)
    requires multiset(s) == multiset(t)
    ensures |s| == |t|
  {
    assert |s| == |multiset(s)| && |t| == |multiset(t)|;
  }

  lemma {:induction false} OrderUpto(s: seq<Item>, t: seq<Item>, n: nat) returns (picks: seq<nat>)
    requires multiset(s) == multiset(t) && |t| == |s| && n <= |s|
    ensures |picks| == |s| && (forall k :: 0 <= k < |picks| ==> picks[k] < |s|)
    ensures Shuffled(s, picks, n)[..n] == t[..n]
  {
    hide Swapped;
    if n == 0 {
      picks := seq(|s|, i => 0);
    } else {
      var p := OrderUpto(s, t, n - 1);
      var r := Shuffled(s, p, n - 1);
      ShuffledPermutes(s, p, n - 1);
      var j := StillAhead(r, t, n - 1);
      picks := p[n - 1 := j];
      SamePicks(s, p, picks, n - 1);
      OneMore(r, t, n - 1, j);
    }
  }

  lemma OneMore(r: seq<Item>, t: seq<Item>, n: nat, j: nat)
    requires n <= j < |r| == |t| && r[..n] == t[..n] && r[j] == t[n]
    ensures Swapped(r, n, j)[..n + 1] == t[..n + 1]
  {
    var w := Swapped(r, n, j);
    assert w[..n] == r[..n];
    assert w[..n + 1] == w[..n] + [w[n]] && t[..n + 1] == t[..n] + [t[n]];
  }

  lemma StillAhead(r: seq<Item>, t: seq<Item>, n: nat) returns (j: nat)
    requires multiset(r) == multiset(t) && n < |t| == |r| && r[..n] == t[..n]
    ensures n <= j < |r| && r[j] == t[n]
  {
    assert r == r[..n] + r[n..] && t == t[..n] + t[n..];
    assert multiset(r[n..]) == multiset(r) - multiset(r[..n]);
    assert multiset(t[n..]) == multiset(t) - multiset(t[..n]);
    assert t[n..][0] in multiset(r[n..]);
    var i :| 0 <= i < |r[n..]| && r[n..][i] == t[n];
    j := n + i;
  }

  lemma {:induction false} SamePicks(s: seq<Item>, p: seq<nat>, q: seq<nat>, n: nat)
    requires n <= |p| == |q| == |s| && p[..n] == q[..n]
    requires forall k :: 0 <= k < |s| ==> p[k] < |s| && q[k] < |s|
    ensures Shuffled(s, p, n) == Shuffled(s, q, n)
  {
    if n > 0 {
      assert p[..n][..n - 1] == p[..n - 1] && q[..n][..n - 1] == q[..n - 1];
      assert p[n - 1] == p[..n][n - 1] && q[n - 1] == q[..n][n - 1];
      SamePicks(s, p, q, n - 1);
    }
  }

  // ----- what the operations do to the array

  function Placeholder(): Item {
    Item(None, Other, None, None, None, false, -1, 0)
  }

  function Fresh(name: string, kind: FileType, mtime: int): Item {
    Item(Some(name), kind, None, None, None, false, mtime, 0)
  }

  function Erased(it: Item): Item {
    it.(deleted := true, titleFile := None, titleTags := None, tags := None)
  }

  /** `plist_cat`: the live items of `b` from the i-th on whose name is not live yet. */
  function Concatenated(a: seq<Item>, b: seq<Item>, i: nat := 0): seq<Item>
    requires i <= |b| && AllNamed(b)
    decreases |b| - i
  {
    if i == |b| then a
    else if !b[i].deleted && Scan(a, b[i].file.value) == -1 then Concatenated(a + [b[i]], b, i + 1)
    else Concatenated(a, b, i + 1)
  }

  /** The items among the first `n` of `b` that are the first live ones of their name there
      and whose name is not live in `a`. */
  function Additions(a: seq<Item>, b: seq<Item>, n: nat): seq<Item>
    requires n <= |b| && AllNamed(b)
  {
    if n == 0 then []
    else
      var name := b[n - 1].file.value;
      Additions(a, b, n - 1) + if Scan(a, name) == -1 && Scan(b, name) == n - 1 then [b[n - 1]] else []
  }

  lemma {:induction false} AdditionsLive(a: seq<Item>, b: seq<Item>, n: nat, name: string)
    requires n <= |b| && AllNamed(b)
    ensures IsLive(Additions(a, b, n), name) <==> Scan(a, name) == -1 && 0 <= Scan(b, name) < n
  {
    if n > 0 {
      AdditionsLive(a, b, n - 1, name);
      var r, r' := Additions(a, b, n - 1), Additions(a, b, n);
      if IsLive(r, name) {
        var i :| 0 <= i < |r| && Live(r[i], name);
        assert Live(r'[i], name);
      }
      if Scan(a, name) == -1 && Scan(b, name) == n - 1 { assert Live(r'[|r|], name); }
    }
  }

  /** Into any list, `plist_cat` adds the first live item of each name that is not live
      there, in order, and nothing else. */
  lemma {:induction false} ConcatenatedAdds(a: seq<Item>, b: seq<Item>, i: nat)
    requires AllNamed(b) && i <= |b|
    ensures Concatenated(a + Additions(a, b, i), b, i) == a + Additions(a, b, |b|)
    decreases |b| - i
  {
    hide Scan, AllNamed, Additions, Concatenated;
    ConcatenatedNext(a + Additions(a, b, i), b, i);
    if i < |b| {
      ConcatenatedAdds(a, b, i + 1);
      AdditionsMore(a, b, i);
    }
  }

  lemma ConcatenatedNext(a: seq<Item>, b: seq<Item>, i: nat)
    requires AllNamed(b) && i <= |b|
    ensures i == |b| ==> Concatenated(a, b, i) == a
    ensures i < |b| ==>
      Concatenated(a, b, i) ==
        Concatenated(if !b[i].deleted && Scan(a, b[i].file.value) == -1 then a + [b[i]] else a, b, i + 1)
  {}

  /** The next item is appended exactly when it is one of the additions. */
  lemma AdditionsMore(a: seq<Item>, b: seq<Item>, i: nat)
    requires AllNamed(b) && i < |b|
    ensures var r, name := Additions(a, b, i), b[i].file.value;
      a + Additions(a, b, i + 1) == if !b[i].deleted && Scan(a + r, name) == -1 then a + r + [b[i]] else a + r
  {
    var name, r := b[i].file.value, Additions(a, b, i);
    AdditionsLive(a, b, i, name);
    NotLiveInBoth(a, r, name);
    assert !b[i].deleted ==> Live(b[i], name);
    assert a + r + [b[i]] == a + (r + [b[i]]);
    assert Additions(a, b, i + 1) == if Scan(a, name) == -1 && Scan(b, name) == i then r + [b[i]] else r;
  }

  lemma NotLiveInBoth(a: seq<Item>, r: seq<Item>, name: string)
    ensures Scan(a + r, name) == -1 <==> Scan(a, name) == -1 && !IsLive(r, name)
  {
    var k := Scan(a, name);
    if k != -1 { assert Live((a + r)[k], name); }
    if IsLive(r, name) {
      var i :| 0 <= i < |r| && Live(r[i], name);
      assert Live((a + r)[|a| + i], name);
    }
  }

  function Retimed(it: Item, time: int): Item {
    var tags := if it.tags.Some? then it.tags.value else NEW_TAGS;
    it.(tags := Some(tags.(time := time, filled := tags.filled | TAGS_TIME)))
  }

  lemma RetimedIs(it: Item, time: int)
    ensures var r := Retimed(it, time);
      && r == it.(tags := r.tags) && r.tags.Some? && r.tags.value.time == time
      && (r.tags.value.filled & 2 != 0)
      && (it.tags.Some? ==> r.tags.value == it.tags.value.(time := time, filled := it.tags.value.filled | 2))
      && (it.tags.None? ==> r.tags.value == Tags(None, None, None, -1, time, 2))
  {
    SecondBit(if it.tags.Some? then it.tags.value.filled else 0);
  }

  lemma SecondBit(x: bv32)
    ensures (x | 2) & 2 != 0 && 0 | x == x
  {}

  /** A new item is live and has no tags and no titles; a deleted one keeps its name, type
      and times only. */
  lemma NewAndErased(name: string, kind: FileType, mtime: int, it: Item)
    ensures var n := Fresh(name, kind, mtime);
      && Live(n, name) && n.kind == kind && n.mtime == mtime
      && n.tags.None? && n.titleFile.None? && n.titleTags.None? && n.queuePos == 0
    ensures var n := Placeholder();
      !n.deleted && n.file.None? && n.tags.None? && n.titleFile.None? && n.titleTags.None? && n.mtime == -1
    ensures var e := Erased(it);
      && e.deleted && e.tags.None? && e.titleFile.None? && e.titleTags.None?
      && e.file == it.file && e.kind == it.kind && e.mtime == it.mtime && e.queuePos == it.queuePos
    ensures var u := Untagged(it);
      u.tags == (if it.deleted then it.tags else None) && u == it.(tags := u.tags)
  {}

  function Untagged(it: Item): Item {
    if it.deleted then it else it.(tags := None)
  }
}
