/** `playlist.c`, updated in place. */
module Playlists {
  import opened Basics
  import opened PlaylistSpec
  import opened PlaylistIndex
  import opened PlaylistSort
  import opened RbShape
  import opened RbMoves
  import opened RbTrees

  /** `struct plist`; `num` is the length of `items`. */
  class PList {
    var items: seq<Item>
    var notDeleted: int
    var totalTime: int
    var itemsWithTime: int
    const tree: RbTree
    const coll: string -> real

    ghost predicate Caches()
      reads this
    {
      && notDeleted == Total(LiveOne, items)
      && itemsWithTime == Total(TimedOne, items)
      && totalTime == Total(TimeOf, items)
    }

    /** The search tree agrees with the items. */
    ghost predicate Index()
      reads this, tree, tree.repr, tree.nil
    {
      && tree.Valid() && Collation(coll)
      && Ascending(ByName(coll, items), tree.Contents())
      && Indexed(items, tree.Contents())
    }

    ghost predicate Valid()
      reads this, tree, tree.repr, tree.nil
    {
      Caches() && Index()
    }

    /** `plist_init`. */
    constructor (nil: RbNode, coll: string -> real)
      requires nil.color == Black && Collation(coll)
      ensures Valid() && items == [] && tree.nil == nil && this.coll == coll
      ensures fresh(tree) && fresh(tree.repr)
    {
      items, notDeleted, totalTime, itemsWithTime := [], 0, 0, 0;
      this.coll := coll;
      tree := new RbTree(nil);
      new;
      assert tree.Contents() == [];
    }

    /** `plist_find_fname`: the index gives what a linear scan gives, and there is at
        most one live item of a name. */
    method FindFname(file: string) returns (r: int)
      requires Index()
      ensures r == Scan(items, file)
      ensures forall i :: 0 <= i < |items| && Live(items[i], file) ==> i == r
    {
      hide Ascending, Lists;
      var x;
      ghost var z, t, visits;
      x, z, t, visits := tree.Search(coll(file), ByName(coll, items));
      LookupAgrees(coll, items, tree.Contents(), file, x != tree.nil, if x != tree.nil then x.data else 0);
      if x == tree.nil {
        return -1;
      }
      return if !items[x.data].deleted then x.data else -1;
    }

    /** `plist_add`.  The kind and modification time of a named file come from outside.
        The list stays valid exactly when the name is new among the live items. */
    method Add(file: Option<string>, kind: FileType, mtime: int) returns (pos: int)
      requires Valid()
      modifies this, tree, tree.repr, tree.nil`color
      ensures Valid() <==> file.None? || !IsLive(old(items), file.value)
      ensures fresh(tree.repr - old(tree.repr))
      ensures pos == |old(items)|
      ensures items == old(items) + [if file.Some? then Fresh(file.value, kind, mtime) else Placeholder()]
    {
      hide Ascending, Lists, Inserted, Removed, Indexed, Collation, ByName, Total, RbTree.Valid, RbTree.Contents;
      var it := if file.Some? then Fresh(file.value, kind, mtime) else Placeholder();
      ghost var s := tree.Contents();
      AppendTotals(items, it);
      AppendWeights(coll, items, it, s);
      pos := |items|;
      items := items + [it];
      if file.Some? {
        AppendIndex(coll, old(items), it, s);
        tree.Delete(coll(file.value), ByName(coll, items));
        var aborted := tree.Insert(pos, ByName(coll, items));
      } else {
        AppendUnnamed(old(items), it, s);
      }
      notDeleted := notDeleted + 1;
    }

    /** `plist_add_from_item`. */
    method AddFromItem(it: Item) returns (pos: int)
      requires Valid() && !it.deleted
      requires it.file.Some? ==> !IsLive(items, it.file.value)
      modifies this, tree, tree.repr, tree.nil`color
      ensures Valid() && fresh(tree.repr - old(tree.repr))
      ensures pos == |old(items)| && items == old(items) + [it]
    {
      hide Ascending, Indexed, Collation, ByName, Total, RbTree.Valid, RbTree.Contents;
      pos := Add(it.file, it.kind, it.mtime);
      UpdateIndex(coll, items, pos, it, tree.Contents());
      UpdateTotals(items, pos, it);
      items := items[pos := it];
      if it.tags.Some? && it.tags.value.time != -1 {
        totalTime := totalTime + it.tags.value.time;
        itemsWithTime := itemsWithTime + 1;
      }
    }

    /** `plist_delete`: the item keeps its name and its node. */
    method Delete(num: int)
      requires Valid() && 0 <= num < |items| && !items[num].deleted
      modifies this
      ensures Valid() && items == old(items)[num := Erased(old(items)[num])]
    {
      hide Ascending, Indexed, Collation, ByName, Total, RbTree.Valid, RbTree.Contents;
      UpdateIndex(coll, items, num, Erased(items[num]), tree.Contents());
      UpdateTotals(items, num, Erased(items[num]));
      var tags := items[num].tags;
      if tags.Some? && tags.value.time != -1 {
        totalTime := totalTime - tags.value.time;
        itemsWithTime := itemsWithTime - 1;
      }
      items := items[num := Erased(items[num])];
      notDeleted := notDeleted - 1;
    }

    /** `plist_set_item_time`. */
    method SetItemTime(num: int, time: int)
      requires Valid() && 0 <= num < |items| && !items[num].deleted
      modifies this
      ensures Valid() && items == old(items)[num := Retimed(old(items)[num], time)]
    {
      hide Ascending, Indexed, Collation, ByName, Total, RbTree.Valid, RbTree.Contents, Retimed;
      RetimedIs(items[num], time);
      UpdateIndex(coll, items, num, Retimed(items[num], time), tree.Contents());
      UpdateTotals(items, num, Retimed(items[num], time));
      var oldTime := if items[num].tags.Some? then items[num].tags.value.time else -1;
      Retotal(oldTime, time);
      items := items[num := Retimed(items[num], time)];
    }

    /** The time of an item changes, from or to -1 for "not known". */
    method Retotal(oldTime: int, time: int)
      modifies this`totalTime, this`itemsWithTime
      ensures totalTime == old(totalTime) - (if oldTime != -1 then oldTime else 0) + if time != -1 then time else 0
      ensures itemsWithTime == old(itemsWithTime) - (if oldTime != -1 then 1 else 0) + if time != -1 then 1 else 0
    {
      if oldTime != -1 {
        totalTime := totalTime - oldTime;
        itemsWithTime := itemsWithTime - 1;
      }
      if time != -1 {
        totalTime := totalTime + time;
        itemsWithTime := itemsWithTime + 1;
      }
    }

    /** `plist_set_tags`. */
    method SetTags(num: int, tags: Tags)
      requires Valid() && 0 <= num < |items| && !items[num].deleted
      modifies this
      ensures Valid() && items == old(items)[num := old(items)[num].(tags := Some(tags))]
    {
      hide Ascending, Indexed, Collation, ByName, Total, RbTree.Valid, RbTree.Contents;
      var it := items[num].(tags := Some(tags));
      UpdateIndex(coll, items, num, it, tree.Contents());
      UpdateTotals(items, num, it);
      var oldTime := if items[num].tags.Some? then items[num].tags.value.time else -1;
      items := items[num := it];
      Retotal(oldTime, tags.time);
    }

    /** `plist_discard_tags`. */
    method DiscardTags()
      requires Valid()
      modifies this
      ensures Valid() && |items| == |old(items)|
      ensures forall i :: 0 <= i < |items| ==> items[i] == Untagged(old(items)[i])
    {
      hide Ascending, Indexed, Collation, ByName, Total, RbTree.Valid, RbTree.Contents;
      var i := 0;
      while i < |items|
        invariant 0 <= i <= |items| == |old(items)|
        invariant forall j :: 0 <= j < i ==> items[j] == Untagged(old(items)[j])
        invariant forall j :: i <= j < |items| ==> items[j] == old(items)[j]
        invariant Index()
        invariant notDeleted == old(notDeleted)
      {
        if !items[i].deleted && items[i].tags.Some? {
          UpdateIndex(coll, items, i, items[i].(tags := None), tree.Contents());
          items := items[i := items[i].(tags := None)];
        }
        i := i + 1;
      }
      TotalPointwise(LiveOne, old(items), items);
      TotalZero(TimedOne, items);
      TotalZero(TimeOf, items);
      itemsWithTime := 0;
      totalTime := 0;
    }

    /** `plist_clear`. */
    method Clear()
      requires tree.Valid() && Collation(coll)
      modifies this, tree
      ensures Valid() && items == [] && tree.repr == {}
    {
      items := [];
      notDeleted, totalTime, itemsWithTime := 0, 0, 0;
      tree.Clear();
    }

    /** `plist_next`: the first live slot after `num`. */
    method Next(num: int) returns (r: int)
      requires num >= -1
      ensures r >= -1 && FirstFrom(items, num + 1, r)
    {
      var i := num + 1;
      while i < |items| && items[i].deleted
        invariant num < i
        invariant forall j :: num < j < i && j < |items| ==> items[j].deleted
      {
        i := i + 1;
      }
      return if i < |items| then i else -1;
    }

    /** `plist_prev`: the last live slot before `num`. */
    method Prev(num: int) returns (r: int)
      requires -1 <= num <= |items|
      ensures r >= -1 && LastBelow(items, num, r)
    {
      var i := num - 1;
      while i >= 0 && items[i].deleted
        invariant i < num
        invariant forall j :: 0 <= j < num && i < j ==> items[j].deleted
      {
        i := i - 1;
      }
      return if i >= 0 then i else -1;
    }

    /** `plist_last`: the last live slot, if there is a live one; otherwise slot 0, or -1
        for an empty array. */
    method Last() returns (r: int)
      ensures -1 <= r < |items| && (items != [] ==> r >= 0)
      ensures forall j :: r < j < |items| ==> items[j].deleted
      ensures r > 0 ==> !items[r].deleted
      ensures (exists i :: 0 <= i < |items| && !items[i].deleted) ==> r != -1 && LastBelow(items, |items|, r)
    {
      var i := |items| - 1;
      while i > 0 && items[i].deleted
        invariant -1 <= i < |items| && (items != [] ==> i >= 0)
        invariant forall j :: i < j < |items| ==> items[j].deleted
      {
        i := i - 1;
      }
      return i;
    }

    /** `plist_total_time`: `allFiles` says that no live item lacks a time. */
    method GetTotalTime() returns (total: int, allFiles: bool)
      requires Valid()
      ensures total == Total(TimeOf, items)
      ensures allFiles <==>
        forall i :: 0 <= i < |items| && !items[i].deleted ==> items[i].tags.Some? && items[i].tags.value.time != -1
    {
      AllTimed(items);
      return totalTime, notDeleted == itemsWithTime;
    }

    /** `plist_cat`. */
    method Cat(b: PList)
      requires Valid() && b.Valid() && AllNamed(b.items)
      requires this != b && tree != b.tree && tree.repr !! b.tree.repr
      requires tree.nil !in b.tree.repr && b.tree.nil !in tree.repr
      modifies this, tree, tree.repr, tree.nil`color
      ensures Valid() && fresh(tree.repr - old(tree.repr))
      ensures items == Concatenated(old(items), b.items)
    {
      hide Ascending, Indexed, Collation, ByName, Total, RbTree.Valid, RbTree.Contents;
      var i := 0;
      while i < |b.items|
        invariant 0 <= i <= |b.items|
        invariant Valid() && fresh(tree.repr - old(tree.repr))
        invariant Concatenated(items, b.items, i) == Concatenated(old(items), b.items)
      {
        if !b.items[i].deleted {
          var found := FindFname(b.items[i].file.value);
          if found == -1 {
            var _ := AddFromItem(b.items[i]);
          }
        }
        i := i + 1;
      }
    }

    /** `plist_swap_files`: items and nodes change places together, so that each node
        still points at the item of its name. */
    method SwapFiles(file1: string, file2: string)
      requires Valid()
      modifies this, tree.repr
      ensures Valid() && multiset(items) == multiset(old(items)) && |items| == |old(items)|
      ensures IsLive(old(items), file1) && IsLive(old(items), file2) ==>
        items == Swapped(old(items), Scan(old(items), file1), Scan(old(items), file2))
      ensures FilesSwapped(coll, file1, file2, old(items), old(tree.Contents()), items, tree.Contents())
    {
      hide Ascending, Indexed, Collation, ByName, Total, RbTree.Valid, RbTree.Contents, Scan, Lists, Place,
        FilesSwapped;
      var x1, x2;
      ghost var z1, t1, z2, t2, visits;
      var w := ByName(coll, items);
      x1, z1, t1, visits := tree.Search(coll(file1), w);
      x2, z2, t2, visits := tree.Search(coll(file2), w);
      ghost var s := tree.Contents();
      FoundLive(coll, items, s, file1, x1 != tree.nil, if x1 != tree.nil then x1.data else 0);
      FoundLive(coll, items, s, file2, x2 != tree.nil, if x2 != tree.nil then x2.data else 0);
      if x1 != tree.nil && x2 != tree.nil {
        ghost var j, k := Place(z1, t1), Place(z2, t2);
        IndexedRange(items, s, j);
        IndexedRange(items, s, k);
        SwappedAt(coll, file1, file2, items, s, j, k);
        SwapNodes(x1, x2, j, k);
      } else {
        SwappedNone(coll, file1, file2, items, s);
      }
    }

    /** Two items change places together with the data of their nodes. */
    method SwapNodes(x1: RbNode, x2: RbNode, ghost j: nat, ghost k: nat)
      requires Valid() && j < |tree.Contents()| && k < |tree.Contents()|
      requires Refs(tree.shape)[j] == x1 && Refs(tree.shape)[k] == x2 && x1 in tree.repr && x2 in tree.repr
      requires x1.data == tree.Contents()[j] && x2.data == tree.Contents()[k]
      requires 0 <= x1.data < |items| && 0 <= x2.data < |items|
      modifies this, tree.repr
      ensures Valid() && multiset(items) == multiset(old(items))
      ensures items == Swapped(old(items), old(x1.data), old(x2.data))
      ensures tree.Contents() ==
        old(tree.Contents())[j := old(tree.Contents())[k]][k := old(tree.Contents())[j]]
    {
      hide Ascending, Indexed, Collation, ByName, Total, RbTree.Valid, RbTree.Contents, Refs, Swapped;
      SwapIndex(coll, items, tree.Contents(), j, k);
      SwapTotals(items, x1.data, x2.data);
      var d1, d2 := x1.data, x2.data;
      items := Swapped(items, d1, d2);
      tree.Rewrite(x1, d2, j);
      tree.Rewrite(x2, d1, k);
    }

    /** The first k nodes, in order, are dealt with: their live items are in `sorted` and
        counted through in the nodes. */
    ghost predicate Sorting(s: seq<int>, k: nat, sorted: seq<Item>)
      reads this, tree, tree.repr, tree.nil
    {
      && tree.Valid() && InRange(items, s) && |s| == |Refs(tree.shape)| && k <= |s|
      && InRange(items, s[..k])
      && sorted == Select(items, LiveSlots(items, s[..k]))
      && tree.Contents() == Renumbered(items, s[..k]) + s[k..]
    }

    /** The first loop of `plist_sort_fname`: to the first node of a live item. */
    method FirstLive(ghost s: seq<int>, ghost m: nat) returns (x: RbNode, ghost k: nat)
      requires tree.Valid() && tree.Contents() == s && InRange(items, s)
      requires m < |s| && !items[s[m]].deleted
      ensures k < |s| && x == Refs(tree.shape)[k] && x in tree.repr && x.data == s[k] && !items[s[k]].deleted
      ensures Sorting(s, k, [])
    {
      hide RbTree.Valid, RbTree.Contents, Refs, PList.Sorting, InRange;
      StartSorting(s);
      x := tree.Min();
      k := 0;
      RangeAt(items, s, 0);
      while items[x.data].deleted
        invariant k <= m && x == Refs(tree.shape)[k] && x in tree.repr && x.data == s[k] && 0 <= s[k] < |items|
        invariant Sorting(s, k, [])
        decreases |s| - k
      {
        SkipSorting(s, k, []);
        x := tree.Next(x, k);
        k := k + 1;
        RangeAt(items, s, k);
      }
    }

    lemma StartSorting(s: seq<int>)
      requires tree.Valid() && tree.Contents() == s && InRange(items, s)
      ensures Sorting(s, 0, [])
    {
      hide RbTree.Valid, RbTree.Contents, Refs, LiveSlots, Renumbered;
      SortStart(items, s);
    }

    lemma SkipSorting(s: seq<int>, k: nat, sorted: seq<Item>)
      requires Sorting(s, k, sorted) && k < |s| && items[s[k]].deleted
      ensures Sorting(s, k + 1, sorted)
    {
      hide RbTree.Valid, RbTree.Contents, Refs, LiveSlots, Renumbered;
      SortSkip(items, s, k, sorted);
    }

    /** The second loop of `plist_sort_fname`: copies the live items in tree order and
        renumbers their nodes on the way. */
    method CopyRest(x0: RbNode, ghost k0: nat, ghost s: seq<int>) returns (sorted: seq<Item>)
      requires k0 < |s| == |Refs(tree.shape)| && x0 == Refs(tree.shape)[k0] && x0 in tree.repr && x0.data == s[k0]
      requires InRange(items, s) && !items[s[k0]].deleted && Sorting(s, k0, [])
      modifies tree.repr
      ensures Sorting(s, |s|, sorted)
    {
      hide RbTree.Valid, RbTree.Contents, Refs, InRange, LiveSlots, Renumbered, Select;
      ghost var k := k0;
      RangeAt(items, s, k);
      SortTake(items, s, k, []);
      sorted := [items[x0.data]];
      tree.Rewrite(x0, 0, k);
      var x := tree.Next(x0, k);
      var n := 1;
      k := k + 1;
      while x != tree.nil
        invariant 1 <= k <= |s| == |Refs(tree.shape)| && tree.shape == old(tree.shape)
        invariant x != tree.nil <==> k < |s|
        invariant x != tree.nil ==> x == Refs(tree.shape)[k] && x in tree.repr && x.data == s[k]
        invariant Sorting(s, k, sorted) && n == |sorted|
        decreases |s| - k
      {
        RangeAt(items, s, k);
        if !items[x.data].deleted {
          SortTake(items, s, k, sorted);
          sorted := sorted + [items[x.data]];
          tree.Rewrite(x, n, k);
          n := n + 1;
        } else {
          SkipSorting(s, k, sorted);
        }
        x := tree.Next(x, k);
        k := k + 1;
      }
    }

    /** `plist_sort_fname`, on any list with a named live item or none at all: the named live
        items in order of name.  Items without a name get lost, and the nodes of deleted
        items keep slots that mean nothing now; so the list is valid afterwards exactly when
        no node pointed at a deleted item and no unnamed one has a time. */
    method SortFname()
      requires Valid() && (notDeleted != 0 ==> exists k :: 0 <= k < |items| && !items[k].deleted && items[k].file.Some?)
      modifies this, tree.repr
      ensures old(notDeleted) == 0 ==> Valid() && items == old(items) && tree.Contents() == old(tree.Contents())
      ensures old(notDeleted) != 0 ==>
        && InRange(old(items), old(tree.Contents()))
        && items == Select(old(items), LiveSlots(old(items), old(tree.Contents())))
        && tree.Contents() == Renumbered(old(items), old(tree.Contents()))
        && AllLive(items) && SortedByName(coll, items)
        && (Valid() <==> OnlyLive(old(items), old(tree.Contents())) && !LosesTime(old(items)))
      ensures old(AllLive(items)) ==>
        Valid() && SortedByName(coll, items) && multiset(items) == multiset(old(items)) &&
        tree.Contents() == Identity(|items|)
    {
      hide Ascending, Indexed, Collation, ByName, Total, RbTree.Valid, RbTree.Contents, LiveSlots, Renumbered, Select,
        InRange, SortedByName, LosesTime, Refs;
      ghost var s := tree.Contents();
      SortFacts(coll, items, s);
      if notDeleted == 0 {
        NothingLive(items);
        return;
      }
      var x;
      ghost var k;
      ghost var m :| 0 <= m < |s| && 0 <= s[m] < |items| && !items[s[m]].deleted;
      x, k := FirstLive(s, m);
      var sorted := CopyRest(x, k, s);
      assert s[..|s|] == s && s[|s|..] == [];
      assert Renumbered(items, s) + [] == Renumbered(items, s);
      items := sorted;
      notDeleted := |sorted|;
    }

    /** The first loop of `plist_shuffle`; `picks` are the random slots. */
    method ShuffleItems(picks: seq<nat>)
      requires |picks| == |items| && forall k :: 0 <= k < |picks| ==> picks[k] < |items|
      modifies this`items
      ensures items == Shuffled(old(items), picks, |old(items)|)
    {
      var i := 0;
      while i < |items|
        invariant 0 <= i <= |items| == |old(items)|
        invariant items == Shuffled(old(items), picks, i)
      {
        items := Swapped(items, i, picks[i]);
        i := i + 1;
      }
    }

    /** `plist_shuffle`: any order may result; the index is built anew. */
    method Shuffle(picks: seq<nat>)
      requires Valid() && AllNamed(items) && DistinctNames(items)
      requires |picks| == |items| && forall k :: 0 <= k < |picks| ==> picks[k] < |items|
      modifies this, tree, tree.repr
      ensures Valid() && fresh(tree.repr - old(tree.repr))
      ensures items == Shuffled(old(items), picks, |old(items)|)
      ensures multiset(items) == multiset(old(items)) && |items| == |old(items)|
    {
      hide Ascending, Indexed, Collation, ByName, Total, RbTree.Valid, RbTree.Contents, AllNamed, DistinctNames,
        Shuffled;
      ShuffledPermutes(items, picks, |items|);
      ShuffleItems(picks);
      PermutedTotals(items, old(items));
      PermutedNames(old(items), items);
      label Mixed:
      tree.Clear();
      EmptyAscending(ByName(coll, items));
      var i := 0;
      while i < |items|
        invariant 0 <= i <= |items| && items == old@Mixed(items)
        invariant tree.Valid() && fresh(tree.repr - old(tree.repr))
        invariant Ascending(ByName(coll, items), tree.Contents())
        invariant forall x :: x in tree.Contents() <==> 0 <= x < i
        invariant Caches()
      {
        RebuildStep(coll, items, tree.Contents(), i);
        var aborted := tree.Insert(i, ByName(coll, items));
        i := i + 1;
      }
      FullIndex(items, tree.Contents());
    }

    /** `plist_swap_first_fname`.  The C code aborts when the first item, deleted, has the
        same name; else the list stays valid exactly when the name of the first item is
        not live elsewhere. */
    method SwapFirstFname(fname: string) returns (aborted: bool)
      requires Valid()
      requires Scan(items, fname) > 0 ==> items[0].file.Some?
      modifies this, tree, tree.repr, tree.nil`color
      ensures fresh(tree.repr - old(tree.repr))
      ensures aborted <==> Scan(old(items), fname) > 0 && old(items)[0].file == Some(fname)
      ensures !aborted ==>
        (Valid() <==> (Scan(old(items), fname) > 0 ==> CanSwapFirst(old(items), Scan(old(items), fname))))
      ensures items ==
        if Scan(old(items), fname) > 0 then Swapped(old(items), 0, Scan(old(items), fname)) else old(items)
    {
      hide Ascending, Indexed, Collation, Total, RbTree.Valid, RbTree.Contents, CanSwapFirst, Inserted, Removed, Lists;
      var i := FindFname(fname);
      aborted := false;
      if i != -1 && i != 0 {
        var w := ByName(coll, items);
        SwapFirstRemoved(coll, items, tree.Contents(), i);
        SwapFirstIndex(coll, items, tree.Contents(), i);
        SwapTotals(items, 0, i);
        tree.Delete(coll(fname), w);
        tree.Delete(coll(items[0].file.value), w);
        items := Swapped(items, 0, i);
        aborted := tree.Insert(0, ByName(coll, items));
        aborted := tree.Insert(i, ByName(coll, items));
      }
    }

    /** `plist_set_file` on a placeholder; the C code aborts when the index has the name. */
    method NamePlaceholder(num: int, file: string, kind: FileType, mtime: int) returns (aborted: bool)
      requires Valid() && 0 <= num < |items| && items[num].file.None?
      modifies this, tree, tree.repr
      ensures fresh(tree.repr - old(tree.repr))
      ensures items == old(items)[num := old(items)[num].(file := Some(file), kind := kind, mtime := mtime)]
      ensures aborted <==> exists d :: d in old(tree.Contents()) && 0 <= d < |items| && old(items)[d].file == Some(file)
      ensures !aborted ==> Valid()
    {
      hide Ascending, Indexed, Collation, Total, RbTree.Valid, RbTree.Contents, Inserted, Lists, ByName;
      ghost var s := tree.Contents();
      var it := items[num].(file := Some(file), kind := kind, mtime := mtime);
      NamedIndex(coll, items, num, it, s);
      UpdateTotals(items, num, it);
      items := items[num := it];
      aborted := tree.Insert(num, ByName(coll, items));
    }
  }

  /** The lists have no part in common but the sentinel. */
  ghost predicate Apart(p: PList, q: PList)
    reads p, q, p.tree, q.tree
  {
    && p != q && p.tree != q.tree && p.tree.repr !! q.tree.repr
    && p.tree.nil == q.tree.nil && p.tree.nil !in p.tree.repr && q.tree.nil !in q.tree.repr
  }

  lemma CanClear(p: PList)
    requires p.Valid()
    ensures p.tree.Valid() && Collation(p.coll)
  {}

  lemma NilIsBlack(p: PList)
    requires p.Valid()
    ensures p.tree.nil.color == Black && p.tree.nil !in p.tree.repr
  {}

  /** An operation on one list leaves the other one valid: of the sentinel only the color
      is written, and it is black again. */
  twostate lemma StillValid(q: PList)
    requires old(q.Valid()) && unchanged(q) && unchanged(q.tree) && unchanged(q.tree.repr)
    requires q.tree.nil.color == Black
    ensures q.Valid()
  {
    hide Rep, RedBlack, Ascending, Indexed, Collation, Total;
    assert Snapshot(q.tree.repr) == old(Snapshot(q.tree.repr));
    assert q.tree.Contents() == old(q.tree.Contents());
  }

  lemma AppendTotals(items: seq<Item>, it: Item)
    ensures Total(LiveOne, items + [it]) == Total(LiveOne, items) + LiveOne(it)
    ensures Total(TimedOne, items + [it]) == Total(TimedOne, items) + TimedOne(it)
    ensures Total(TimeOf, items + [it]) == Total(TimeOf, items) + TimeOf(it)
  {
    TotalAppend(LiveOne, items, it);
    TotalAppend(TimedOne, items, it);
    TotalAppend(TimeOf, items, it);
  }

  lemma UpdateTotals(items: seq<Item>, i: nat, it: Item)
    requires i < |items|
    ensures Total(LiveOne, items[i := it]) == Total(LiveOne, items) - LiveOne(items[i]) + LiveOne(it)
    ensures Total(TimedOne, items[i := it]) == Total(TimedOne, items) - TimedOne(items[i]) + TimedOne(it)
    ensures Total(TimeOf, items[i := it]) == Total(TimeOf, items) - TimeOf(items[i]) + TimeOf(it)
  {
    TotalUpdate(LiveOne, items, i, it);
    TotalUpdate(TimedOne, items, i, it);
    TotalUpdate(TimeOf, items, i, it);
  }

  lemma {:induction false} AllTimed(items: seq<Item>)
    ensures Total(TimedOne, items) <= Total(LiveOne, items)
    ensures Total(TimedOne, items) == Total(LiveOne, items)
       <==> forall i :: 0 <= i < |items| && !items[i].deleted ==> Timed(items[i])
  {
    if items != [] {
      var n := |items| - 1;
      AllTimed(items[..n]);
      assert forall i :: 0 <= i < n ==> items[..n][i] == items[i];
    }
  }

  lemma FoundLive(coll: string -> real, items: seq<Item>, s: seq<int>, name: string, found: bool, d: int)
    requires Collation(coll) && Indexed(items, s) && Ascending(ByName(coll, items), s)
    requires found <==> Lists(ByName(coll, items), s, coll(name))
    requires found ==> d in s && ByName(coll, items)(d) == coll(name)
    ensures IsLive(items, name) ==> found && Scan(items, name) == d
  {
    LookupAgrees(coll, items, s, name, found, d);
  }

  lemma IndexedRange(items: seq<Item>, s: seq<int>, k: nat)
    requires Indexed(items, s) && k < |s|
    ensures 0 <= s[k] < |items|
  {
    assert s[k] in s;
  }

  lemma PermutedTotals(a: seq<Item>, b: seq<Item>)
    requires multiset(a) == multiset(b)
    ensures Total(LiveOne, a) == Total(LiveOne, b) && Total(TimedOne, a) == Total(TimedOne, b)
    ensures Total(TimeOf, a) == Total(TimeOf, b)
  {
    TotalPermutation(LiveOne, a, b);
    TotalPermutation(TimedOne, a, b);
    TotalPermutation(TimeOf, a, b);
  }

  lemma SwapTotals(items: seq<Item>, a: nat, b: nat)
    requires a < |items| && b < |items|
    ensures var r := Swapped(items, a, b);
      multiset(r) == multiset(items) &&
      Total(LiveOne, r) == Total(LiveOne, items) && Total(TimedOne, r) == Total(TimedOne, items) &&
      Total(TimeOf, r) == Total(TimeOf, items)
  {
    SwappedPermutes(items, a, b);
    PermutedTotals(Swapped(items, a, b), items);
  }

  lemma PermutedNames(a: seq<Item>, b: seq<Item>)
    requires multiset(a) == multiset(b) && AllNamed(a) && DistinctNames(a)
    ensures AllNamed(b) && DistinctNames(b)
  {
    forall i | 0 <= i < |b| ensures b[i].file.Some? {
      assert b[i] in multiset(b);
      assert b[i] in a;
    }
    forall i, j | 0 <= i < j < |b| ensures b[i].file != b[j].file {
      SameNameTwice(a, b, i, j);
    }
  }

  lemma SameNameTwice(a: seq<Item>, b: seq<Item>, i: nat, j: nat)
    requires multiset(a) == multiset(b) && DistinctNames(a) && i < j < |b|
    ensures b[i].file != b[j].file
  {
    assert b[i] in multiset(b) && b[j] in multiset(b);
    assert b[i] in a && b[j] in a;
    var k :| 0 <= k < |a| && a[k] == b[i];
    var l :| 0 <= l < |a| && a[l] == b[j];
    if b[i].file == b[j].file {
      assert k == l;
      Twice(b, i, j);
      Once(a, k);
      assert false;
    }
  }

  lemma Twice(s: seq<Item>, i: nat, j: nat)
    requires i < j < |s| && s[i] == s[j]
    ensures multiset(s)[s[i]] >= 2
  {
    assert s == s[..i] + [s[i]] + s[i + 1..j] + [s[j]] + s[j + 1..];
  }

  lemma Once(s: seq<Item>, k: nat)
    requires DistinctNames(s) && k < |s|
    ensures multiset(s)[s[k]] == 1
  {
    assert s == s[..k] + [s[k]] + s[k + 1..];
    assert s[k] !in s[..k] && s[k] !in s[k + 1..];
  }

  lemma EmptyAscending(w: int -> real)
    ensures Ascending(w, [])
  {}

  lemma FullIndex(items: seq<Item>, s: seq<int>)
    requires AllNamed(items) && forall x :: x in s <==> 0 <= x < |items|
    ensures Indexed(items, s)
  {}

  lemma NothingLive(items: seq<Item>)
    requires Total(LiveOne, items) == 0
    ensures AllLive(items) ==> items == []
  {
    if AllLive(items) { TotalAllLive(items); }
  }

  /** All that a sort needs to know beforehand. */
  lemma SortFacts(coll: string -> real, items: seq<Item>, s: seq<int>)
    requires Indexed(items, s) && Ascending(ByName(coll, items), s)
    ensures InRange(items, s)
    ensures (exists k :: 0 <= k < |items| && !items[k].deleted && items[k].file.Some?) ==>
      exists k :: 0 <= k < |s| && 0 <= s[k] < |items| && !items[s[k]].deleted
    ensures var sorted, s' := Select(items, LiveSlots(items, s)), Renumbered(items, s);
      && AllLive(sorted) && SortedByName(coll, sorted) && Total(LiveOne, sorted) == |sorted|
      && (Indexed(sorted, s') && Ascending(ByName(coll, sorted), s') <==> OnlyLive(items, s))
      && (Total(TimedOne, sorted) == Total(TimedOne, items) && Total(TimeOf, sorted) == Total(TimeOf, items)
          <==> !LosesTime(items))
      && (AllLive(items) ==>
          && OnlyLive(items, s) && !LosesTime(items) && multiset(sorted) == multiset(items)
          && s' == Identity(|sorted|) && (items == [] ==> s == []))
  {
    assert forall k :: 0 <= k < |s| ==> s[k] in s;
    if k :| 0 <= k < |items| && !items[k].deleted && items[k].file.Some? {
      assert k in s;
      var j :| 0 <= j < |s| && s[j] == k;
      assert !items[s[j]].deleted;
    }
    hide Ascending, Indexed, ByName, Total, LiveSlots, Renumbered, Select, SortedByName, LosesTime, OnlyLive;
    SortOrder(coll, items, s);
    SortIndexExact(coll, items, s);
    SortTotals(coll, items, s);
    if AllLive(items) { SortCovers(coll, items, s); }
  }

  lemma NamedIndex(coll: string -> real, items: seq<Item>, num: nat, it: Item, s: seq<int>)
    requires Collation(coll) && Indexed(items, s) && Ascending(ByName(coll, items), s)
    requires num < |items| && items[num].file.None? && it.file.Some?
    ensures var items' := items[num := it];
      var w := ByName(coll, items');
      && Ascending(w, s)
      && (Lists(w, s, w(num)) <==> exists d :: d in s && 0 <= d < |items| && items[d].file == it.file)
      && Indexed(items', Inserted(s, num, w))
  {
    hide Ascending, Inserted;
    var w := ByName(coll, items[num := it]);
    NamedWeights(coll, items, num, it, s);
    AscendingPointwise(ByName(coll, items), s, w, s);
    InsertedMembers(s, num, w);
    NamedListed(coll, items, num, it, s);
  }

  lemma NamedWeights(coll: string -> real, items: seq<Item>, num: nat, it: Item, s: seq<int>)
    requires Indexed(items, s) && num < |items| && items[num].file.None?
    ensures forall k :: 0 <= k < |s| ==> ByName(coll, items[num := it])(s[k]) == ByName(coll, items)(s[k])
  {
    assert forall k :: 0 <= k < |s| ==> s[k] in s;
  }

  lemma NamedListed(coll: string -> real, items: seq<Item>, num: nat, it: Item, s: seq<int>)
    requires Collation(coll) && Indexed(items, s) && num < |items| && items[num].file.None? && it.file.Some?
    ensures var w := ByName(coll, items[num := it]);
      Lists(w, s, w(num)) <==> exists d :: d in s && 0 <= d < |items| && items[d].file == it.file
  {
    var w := ByName(coll, items[num := it]);
    NamedWeights(coll, items, num, it, s);
    if k :| 0 <= k < |s| && w(s[k]) == w(num) {
      assert s[k] in s && items[s[k]].file == it.file;
    }
    if d :| d in s && 0 <= d < |items| && items[d].file == it.file {
      var k :| 0 <= k < |s| && s[k] == d;
      assert w(s[k]) == w(num);
    }
  }
}
