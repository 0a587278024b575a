/** The search tree of a playlist: which slots it holds, and why every operation keeps
    it in agreement with a linear scan of the items. */
module PlaylistIndex {
  import opened Basics
  import opened PlaylistSpec
  import opened RbMoves

  /** `strcoll` as a total order whose equality is string equality: the set of names is
      countable, so every such order is the order of some weights. */
  ghost predicate Collation(coll: string -> real) {
    forall a, b :: coll(a) == coll(b) ==> a == b
  }

  function NameWeight(coll: string -> real, items: seq<Item>, d: int): real {
    if 0 <= d < |items| && items[d].file.Some? then coll(items[d].file.value) else 0.0
  }

  /** `rb_compare` and `rb_fname_compare`: a datum is compared by the name of its item. */
  function ByName(coll: string -> real, items: seq<Item>): int -> real {
    d => NameWeight(coll, items, d)
  }

  /** The tree holds slots of named items, each live named item among them; it may
      also hold slots of deleted items. */
  ghost predicate Indexed(items: seq<Item>, s: seq<int>) {
    && (forall x :: x in s ==> 0 <= x < |items| && items[x].file.Some?)
    && (forall i :: 0 <= i < |items| && !items[i].deleted && items[i].file.Some? ==> i in s)
  }

  lemma SameWeightSameSlot(w: int -> real, s: seq<int>, x: int, y: int)
    requires Ascending(w, s) && x in s && y in s && w(x) == w(y)
    ensures x == y
  {
    var i :| 0 <= i < |s| && s[i] == x;
    var j :| 0 <= j < |s| && s[j] == y;
    assert !(i < j) && !(j < i);
  }

  /** What a lookup through the tree returns is what the scan returns, and it is the
      only live item of that name. */
  lemma LookupAgrees(coll: string -> real, items: seq<Item>, s: seq<int>, name: string, found: bool, d: int)
    requires Collation(coll) && Indexed(items, s) && Ascending(ByName(coll, items), s)
    requires found <==> Lists(ByName(coll, items), s, coll(name))
    requires found ==> d in s && NameWeight(coll, items, d) == coll(name)
    ensures Scan(items, name) == if found && !items[d].deleted then d else -1
    ensures forall i :: 0 <= i < |items| && Live(items[i], name) ==> i == Scan(items, name)
  {
    forall i | 0 <= i < |items| && Live(items[i], name) ensures found && i == d {
      assert i in s;
      var k :| 0 <= k < |s| && s[k] == i;
      assert ByName(coll, items)(s[k]) == coll(name);
      SameWeightSameSlot(ByName(coll, items), s, i, d);
    }
    if found { assert Live(items[d], name) <==> !items[d].deleted; }
  }

  lemma AscendingPointwise(w: int -> real, s: seq<int>, w': int -> real, s': seq<int>)
    requires Ascending(w, s) && |s'| == |s| && forall k :: 0 <= k < |s| ==> w'(s'[k]) == w(s[k])
    ensures Ascending(w', s')
  {}

  lemma AppendWeights(coll: string -> real, items: seq<Item>, it: Item, s: seq<int>)
    requires Indexed(items, s) && Ascending(ByName(coll, items), s)
    ensures Ascending(ByName(coll, items + [it]), s)
  {
    assert forall k :: 0 <= k < |s| ==> s[k] in s;
    AscendingPointwise(ByName(coll, items), s, ByName(coll, items + [it]), s);
  }

  lemma AppendUnnamed(items: seq<Item>, it: Item, s: seq<int>)
    requires Indexed(items, s) && it.file.None?
    ensures Indexed(items + [it], s)
  {}

  /** `plist_add` of a name leaves a correct index exactly when the name was not live:
      otherwise the live item of that name loses its node. */
  lemma AppendIndex(coll: string -> real, items: seq<Item>, it: Item, s: seq<int>)
    requires Collation(coll) && Indexed(items, s) && it.file.Some?
    ensures var w := ByName(coll, items + [it]);
      var s1 := Removed(s, coll(it.file.value), w);
      && w(|items|) == coll(it.file.value)
      && !Lists(w, s1, w(|items|))
      && (Indexed(items + [it], Inserted(s1, |items|, w)) <==> !IsLive(items, it.file.value))
  {
    var w, n := ByName(coll, items + [it]), |items|;
    var s1 := Removed(s, coll(it.file.value), w);
    var s2 := Inserted(s1, n, w);
    RemovedElements(s, coll(it.file.value), w);
    assert forall k :: 0 <= k < |s1| ==> s1[k] in s1;
    InsertedMembers(s1, n, w);
    if i :| 0 <= i < n && Live(items[i], it.file.value) {
      assert w(i) == coll(it.file.value);
      assert (items + [it])[i] == items[i] && i !in s2;
    } else {
      forall i | 0 <= i < n && !items[i].deleted && items[i].file.Some? ensures i in s1 {
        assert i in s;
        assert !Live(items[i], it.file.value);
      }
    }
  }

  lemma InsertedMembers(s: seq<int>, d: int, w: int -> real)
    ensures forall x :: x in Inserted(s, d, w) <==> x in s || x == d
  {
    InsertedElements(s, d, w);
    forall x ensures x in Inserted(s, d, w) <==> x in s || x == d {
      assert x in Inserted(s, d, w) <==> x in multiset(Inserted(s, d, w));
      assert x in s <==> x in multiset(s);
    }
  }

  /** Changing an item without renaming or reviving it. */
  lemma UpdateIndex(coll: string -> real, items: seq<Item>, i: nat, it: Item, s: seq<int>)
    requires i < |items| && it.file == items[i].file && (items[i].deleted ==> it.deleted)
    requires Indexed(items, s) && Ascending(ByName(coll, items), s)
    ensures Indexed(items[i := it], s) && Ascending(ByName(coll, items[i := it]), s)
  {
    AscendingPointwise(ByName(coll, items), s, ByName(coll, items[i := it]), s);
  }

  /** Exchanging two items together with the two slots that point at them. */
  lemma SwapIndex(coll: string -> real, items: seq<Item>, s: seq<int>, j: nat, k: nat)
    requires Indexed(items, s) && Ascending(ByName(coll, items), s) && j < |s| && k < |s|
    requires 0 <= s[j] < |items| && 0 <= s[k] < |items|
    ensures var s' := s[j := s[k]][k := s[j]];
      && Indexed(Swapped(items, s[j], s[k]), s')
      && Ascending(ByName(coll, Swapped(items, s[j], s[k])), s')
  {
    SwapSlots(coll, items, s, j, k);
    var s', items' := s[j := s[k]][k := s[j]], Swapped(items, s[j], s[k]);
    AscendingPointwise(ByName(coll, items), s, ByName(coll, items'), s');
    hide Ascending, ByName;
    SwapListed(items, s, j, k);
  }

  /** Each node of the index still points at its item. */
  lemma SwapSlots(coll: string -> real, items: seq<Item>, s: seq<int>, j: nat, k: nat)
    requires Indexed(items, s) && Ascending(ByName(coll, items), s) && j < |s| && k < |s|
    requires 0 <= s[j] < |items| && 0 <= s[k] < |items|
    ensures var s', items' := s[j := s[k]][k := s[j]], Swapped(items, s[j], s[k]);
      forall m :: 0 <= m < |s| ==> 0 <= s'[m] < |items| && items'[s'[m]] == items[s[m]]
  {
    var w := ByName(coll, items);
    forall m | 0 <= m < |s|
      ensures 0 <= s[m] < |items| && (m != j && m != k ==> s[m] != s[j] && s[m] != s[k])
    {
      assert s[m] in s;
      if m != j && m != k { assert w(s[m]) != w(s[j]) && w(s[m]) != w(s[k]); }
    }
  }

  lemma SwapListed(items: seq<Item>, s: seq<int>, j: nat, k: nat)
    requires Indexed(items, s) && j < |s| && k < |s| && 0 <= s[j] < |items| && 0 <= s[k] < |items|
    requires var s', items' := s[j := s[k]][k := s[j]], Swapped(items, s[j], s[k]);
      forall m :: 0 <= m < |s| ==> 0 <= s'[m] < |items| && items'[s'[m]] == items[s[m]]
    ensures Indexed(Swapped(items, s[j], s[k]), s[j := s[k]][k := s[j]])
  {
    var s', items' := s[j := s[k]][k := s[j]], Swapped(items, s[j], s[k]);
    forall x | x in s' ensures 0 <= x < |items'| && items'[x].file.Some? {
      var m :| 0 <= m < |s'| && s'[m] == x;
      assert s[m] in s;
    }
    forall i | 0 <= i < |items'| && !items'[i].deleted && items'[i].file.Some? ensures i in s' {
      if i == s[k] {
        assert s'[j] == i;
      } else if i == s[j] {
        assert s'[k] == i;
      } else {
        assert i in s;
        var m :| 0 <= m < |s| && s[m] == i;
        assert s'[m] == i;
      }
    }
  }

  /** The place of a name in the index; -1 if it is not there. */
  ghost function PlaceOf(coll: string -> real, items: seq<Item>, s: seq<int>, name: string): (j: int)
    ensures -1 <= j < |s|
    ensures j >= 0 ==> NameWeight(coll, items, s[j]) == coll(name)
    ensures j == -1 ==> forall i :: 0 <= i < |s| ==> NameWeight(coll, items, s[i]) != coll(name)
  {
    if s == [] then -1
    else if NameWeight(coll, items, s[|s| - 1]) == coll(name) then |s| - 1
    else PlaceOf(coll, items, s[..|s| - 1], name)
  }

  /** What `plist_swap_files` does: the items that the index has under the two names, live
      or deleted, change places with their nodes; without both names nothing happens. */
  ghost predicate FilesSwapped(coll: string -> real, file1: string, file2: string,
                               items: seq<Item>, s: seq<int>, items': seq<Item>, s': seq<int>)
  {
    var j, k := PlaceOf(coll, items, s, file1), PlaceOf(coll, items, s, file2);
    if j == -1 || k == -1 then items' == items && s' == s
    else
      && 0 <= s[j] < |items| && 0 <= s[k] < |items|
      && items' == Swapped(items, s[j], s[k]) && s' == s[j := s[k]][k := s[j]]
  }

  lemma PlaceIs(coll: string -> real, items: seq<Item>, s: seq<int>, name: string, j: nat)
    requires Ascending(ByName(coll, items), s) && j < |s| && NameWeight(coll, items, s[j]) == coll(name)
    ensures PlaceOf(coll, items, s, name) == j
  {
    var i := PlaceOf(coll, items, s, name);
    assert i != -1;
    var w := ByName(coll, items);
    assert w(s[i]) == w(s[j]);
  }

  lemma SwappedAt(coll: string -> real, file1: string, file2: string, items: seq<Item>, s: seq<int>, j: nat, k: nat)
    requires Ascending(ByName(coll, items), s) && j < |s| && k < |s| && 0 <= s[j] < |items| && 0 <= s[k] < |items|
    requires ByName(coll, items)(s[j]) == coll(file1) && ByName(coll, items)(s[k]) == coll(file2)
    ensures FilesSwapped(coll, file1, file2, items, s, Swapped(items, s[j], s[k]), s[j := s[k]][k := s[j]])
  {
    PlaceIs(coll, items, s, file1, j);
    PlaceIs(coll, items, s, file2, k);
  }

  lemma SwappedNone(coll: string -> real, file1: string, file2: string, items: seq<Item>, s: seq<int>)
    requires !Lists(ByName(coll, items), s, coll(file1)) || !Lists(ByName(coll, items), s, coll(file2))
    ensures FilesSwapped(coll, file1, file2, items, s, items, s)
  {
    var j, k := PlaceOf(coll, items, s, file1), PlaceOf(coll, items, s, file2);
    var w := ByName(coll, items);
    assert j >= 0 ==> w(s[j]) == coll(file1);
    assert k >= 0 ==> w(s[k]) == coll(file2);
  }

  predicate AllLive(items: seq<Item>) {
    forall i :: 0 <= i < |items| ==> !items[i].deleted && items[i].file.Some?
  }

  ghost predicate SortedByName(coll: string -> real, items: seq<Item>) {
    && AllNamed(items)
    && forall i, j :: 0 <= i < j < |items| ==> coll(items[i].file.value) < coll(items[j].file.value)
  }

  /** Rebuilding the index slot by slot never meets an equal key. */
  lemma RebuildStep(coll: string -> real, items: seq<Item>, s: seq<int>, i: nat)
    requires Collation(coll) && AllNamed(items) && DistinctNames(items) && i < |items|
    requires forall x :: x in s <==> 0 <= x < i
    ensures !Lists(ByName(coll, items), s, ByName(coll, items)(i))
    ensures forall x :: x in Inserted(s, i, ByName(coll, items)) <==> 0 <= x <= i
  {
    var w := ByName(coll, items);
    InsertedMembers(s, i, w);
    forall k | 0 <= k < |s| ensures w(s[k]) != w(i) {
      assert s[k] in s;
      assert items[s[k]].file != items[i].file;
    }
  }

  /** The index without two names, as `plist_swap_first_fname` makes it. */
  ghost function Without(s: seq<int>, a: real, b: real, w: int -> real): seq<int> {
    Removed(Removed(s, a, w), b, w)
  }

  /** Slot 0 and the live slot i are named. */
  predicate NamedFirst(items: seq<Item>, i: int) {
    0 < i < |items| && !items[i].deleted && items[i].file.Some? && items[0].file.Some?
  }

  /** The name of item 0 is not live anywhere else. */
  predicate CanSwapFirst(items: seq<Item>, i: int) {
    && NamedFirst(items, i)
    && forall j :: 0 < j < |items| ==> !Live(items[j], items[0].file.value)
  }

  lemma SwapFirstRemoved(coll: string -> real, items: seq<Item>, s: seq<int>, i: nat)
    requires Collation(coll) && Indexed(items, s) && Ascending(ByName(coll, items), s) && NamedFirst(items, i)
    ensures var w, w' := ByName(coll, items), ByName(coll, Swapped(items, 0, i));
      var s2 := Without(s, w(i), w(0), w);
      && Ascending(w', s2) && w'(0) == w(i) && w'(i) == w(0)
      && (w(i) == w(0) <==> items[0].file == items[i].file)
      && (forall x :: x in s2 <==> x in s && w(x) != w(i) && w(x) != w(0))
      && (forall x :: x in s2 ==> w'(x) == w(x) && x != 0 && x != i)
  {
    hide Removed;
    var w, w' := ByName(coll, items), ByName(coll, Swapped(items, 0, i));
    var s1 := Removed(s, w(i), w);
    var s2 := Removed(s1, w(0), w);
    RemovedElements(s, w(i), w);
    RemovedElements(s1, w(0), w);
    RemovedKeepsOrder(s, w(i), w);
    RemovedKeepsOrder(s1, w(0), w);
    assert forall k :: 0 <= k < |s2| ==> s2[k] in s2;
    AscendingPointwise(w, s2, w', s2);
  }

  /** The second insertion meets an equal key exactly when both items have one name; if
      not, the index is right exactly when the first item's name is not live elsewhere. */
  lemma SwapFirstIndex(coll: string -> real, items: seq<Item>, s: seq<int>, i: nat)
    requires Collation(coll) && Indexed(items, s) && Ascending(ByName(coll, items), s) && NamedFirst(items, i)
    ensures var w, w' := ByName(coll, items), ByName(coll, Swapped(items, 0, i));
      var s2 := Without(s, w(i), w(0), w);
      && !Lists(w', s2, w'(0)) && (Lists(w', Inserted(s2, 0, w'), w'(i)) <==> items[0].file == items[i].file)
      && (items[0].file != items[i].file ==>
          (Indexed(Swapped(items, 0, i), Inserted(Inserted(s2, 0, w'), i, w')) <==> CanSwapFirst(items, i)))
  {
    hide Without, Inserted, ByName, Ascending, Indexed;
    var w, w' := ByName(coll, items), ByName(coll, Swapped(items, 0, i));
    var s2 := Without(s, w(i), w(0), w);
    SwapFirstRemoved(coll, items, s, i);
    InsertedMembers(s2, 0, w');
    var s3 := Inserted(s2, 0, w');
    InsertedMembers(s3, i, w');
    assert forall x :: x in s2 ==> w'(x) != w'(0) && w'(x) != w'(i);
    assert forall k :: 0 <= k < |s2| ==> s2[k] in s2;
    assert forall k :: 0 <= k < |s3| ==> s3[k] in s3;
    if items[0].file == items[i].file {
      assert 0 in s3;
      var k :| 0 <= k < |s3| && s3[k] == 0;
      assert w'(s3[k]) == w'(i);
    } else {
      assert forall x :: x in s3 ==> w'(x) != w'(i);
      SwapFirstExact(coll, items, s, i, Inserted(s3, i, w'));
    }
  }

  lemma SwapFirstExact(coll: string -> real, items: seq<Item>, s: seq<int>, i: nat, s4: seq<int>)
    requires Collation(coll) && Indexed(items, s) && Ascending(ByName(coll, items), s) && NamedFirst(items, i)
    requires items[0].file != items[i].file
    requires var w := ByName(coll, items);
      forall x :: x in s4 <==> x == 0 || x == i || (x in s && w(x) != w(i) && w(x) != w(0))
    ensures Indexed(Swapped(items, 0, i), s4) <==> CanSwapFirst(items, i)
  {
    var items', w := Swapped(items, 0, i), ByName(coll, items);
    if j :| 0 < j < |items| && Live(items[j], items[0].file.value) {
      assert j != i && w(j) == w(0) && j !in s4;
      assert items'[j] == items[j];
    } else {
      forall j | 0 <= j < |items| && j != 0 && j != i && !items[j].deleted && items[j].file.Some? ensures j in s4 {
        SwapFirstOthers(coll, items, s, i, j);
      }
    }
  }

  lemma SwapFirstOthers(coll: string -> real, items: seq<Item>, s: seq<int>, i: nat, j: nat)
    requires Collation(coll) && Indexed(items, s) && Ascending(ByName(coll, items), s) && CanSwapFirst(items, i)
    requires 0 < j < |items| && j != i && !items[j].deleted && items[j].file.Some?
    ensures j in s && ByName(coll, items)(j) != ByName(coll, items)(i)
    ensures ByName(coll, items)(j) != ByName(coll, items)(0)
  {
    assert !Live(items[j], items[0].file.value);
    if ByName(coll, items)(j) == ByName(coll, items)(i) { SameWeightSameSlot(ByName(coll, items), s, j, i); }
  }
}
