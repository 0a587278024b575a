/** What `plist_sort_fname` makes of any list and its index, and exactly when the index is
    right afterwards. */
module PlaylistSort {
  import opened Basics
  import opened PlaylistSpec
  import opened PlaylistIndex
  import opened RbMoves

  ghost predicate InRange(items: seq<Item>, s: seq<int>) {
    forall k :: 0 <= k < |s| ==> 0 <= s[k] < |items|
  }

  /** The slots of live items, in tree order: the order after the sort. */
  ghost function LiveSlots(items: seq<Item>, s: seq<int>): (r: seq<int>)
    requires InRange(items, s)
    ensures InRange(items, r) && |r| <= |s|
  {
    if s == [] then []
    else
      var n := |s| - 1;
      LiveSlots(items, s[..n]) + if items[s[n]].deleted then [] else [s[n]]
  }

  lemma {:induction false} LiveSlotsIn(items: seq<Item>, s: seq<int>)
    requires InRange(items, s)
    ensures forall k ::
      0 <= k < |LiveSlots(items, s)| ==> LiveSlots(items, s)[k] in s && !items[LiveSlots(items, s)[k]].deleted
    ensures forall k :: 0 <= k < |s| && !items[s[k]].deleted ==> s[k] in LiveSlots(items, s)
  {
    if s != [] {
      var n := |s| - 1;
      LiveSlotsIn(items, s[..n]);
      assert s == s[..n] + [s[n]];
    }
  }

  /** The data of the nodes after the sort: live items are counted through, and nodes of
      deleted items keep the slot they had. */
  ghost function Renumbered(items: seq<Item>, s: seq<int>): (r: seq<int>)
    requires InRange(items, s)
    ensures |r| == |s|
  {
    if s == [] then []
    else
      var n := |s| - 1;
      Renumbered(items, s[..n]) + [if items[s[n]].deleted then s[n] else |LiveSlots(items, s[..n])|]
  }

  /** One node further. */
  lemma SortStep(items: seq<Item>, s: seq<int>, k: nat)
    requires InRange(items, s) && k < |s|
    ensures InRange(items, s[..k]) && InRange(items, s[..k + 1])
    ensures LiveSlots(items, s[..k + 1]) == LiveSlots(items, s[..k]) + if items[s[k]].deleted then [] else [s[k]]
    ensures Renumbered(items, s[..k + 1])
         == Renumbered(items, s[..k]) + [if items[s[k]].deleted then s[k] else |LiveSlots(items, s[..k])|]
  {
    assert s[..k + 1][..k] == s[..k];
  }

  /** No node points at a deleted item. */
  ghost predicate OnlyLive(items: seq<Item>, s: seq<int>)
    requires InRange(items, s)
  {
    forall k :: 0 <= k < |s| ==> !items[s[k]].deleted
  }

  lemma {:induction false} AllKept(items: seq<Item>, s: seq<int>)
    requires InRange(items, s) && OnlyLive(items, s)
    ensures LiveSlots(items, s) == s
  {
    if s != [] {
      var n := |s| - 1;
      AllKept(items, s[..n]);
      assert s[..n] + [s[n]] == s;
    }
  }

  lemma {:induction false} AllNumbered(items: seq<Item>, s: seq<int>)
    requires InRange(items, s) && OnlyLive(items, s)
    ensures Renumbered(items, s) == Identity(|s|)
  {
    hide LiveSlots;
    if s != [] {
      var n := |s| - 1;
      AllNumbered(items, s[..n]);
      AllKept(items, s[..n]);
      assert Identity(n) + [n] == Identity(n + 1);
    }
  }

  lemma AllCounted(items: seq<Item>, s: seq<int>)
    requires InRange(items, s) && OnlyLive(items, s)
    ensures LiveSlots(items, s) == s && Renumbered(items, s) == Identity(|s|)
  {
    hide LiveSlots, Renumbered;
    AllKept(items, s);
    AllNumbered(items, s);
  }

  lemma {:induction false} RenumberedAt(items: seq<Item>, s: seq<int>, k: nat)
    requires InRange(items, s) && k < |s|
    ensures InRange(items, s[..k])
    ensures Renumbered(items, s)[k] == if items[s[k]].deleted then s[k] else |LiveSlots(items, s[..k])|
  {
    if k < |s| - 1 {
      RenumberedAt(items, s[..|s| - 1], k);
      assert s[..|s| - 1][..k] == s[..k];
    }
  }

  /** Each number below the count of live items is given to a node. */
  lemma {:induction false} Counted(items: seq<Item>, s: seq<int>, d: nat) returns (k: nat)
    requires InRange(items, s) && d < |LiveSlots(items, s)|
    ensures k < |s| && !items[s[k]].deleted && Renumbered(items, s)[k] == d
  {
    hide LiveSlots, Renumbered;
    if s == [] {
      NoSlots(items);
      assert false;
    }
    var n := |s| - 1;
    SortStep(items, s, n);
    assert s[..n + 1] == s;
    if d < |LiveSlots(items, s[..n])| {
      k := Counted(items, s[..n], d);
    } else {
      k := n;
    }
  }

  lemma NoSlots(items: seq<Item>)
    ensures LiveSlots(items, []) == [] && Renumbered(items, []) == []
  {}

  lemma {:induction false} LiveSlotsAscend(items: seq<Item>, s: seq<int>, w: int -> real)
    requires InRange(items, s) && Ascending(w, s)
    ensures Ascending(w, LiveSlots(items, s))
  {
    hide Ascending;
    if s != [] {
      var n := |s| - 1;
      AscendingPrefix(w, s, n);
      LiveSlotsAscend(items, s[..n], w);
      var r := LiveSlots(items, s[..n]);
      LiveSlotsIn(items, s[..n]);
      forall i | 0 <= i < |r| ensures w(r[i]) < w(s[n]) {
        var k :| 0 <= k < n && s[..n][k] == r[i];
      }
      AscendingMore(w, r, s[n]);
      assert r + [] == r;
    }
  }

  lemma AscendingPrefix(w: int -> real, s: seq<int>, n: nat)
    requires Ascending(w, s) && n < |s|
    ensures Ascending(w, s[..n]) && forall k :: 0 <= k < n ==> w(s[..n][k]) < w(s[n])
  {}

  lemma AscendingMore(w: int -> real, r: seq<int>, x: int)
    requires Ascending(w, r) && forall i :: 0 <= i < |r| ==> w(r[i]) < w(x)
    ensures Ascending(w, r + [x])
  {}

  /** The items of the sorted array are live, named and strictly ascending. */
  lemma SortOrder(coll: string -> real, items: seq<Item>, s: seq<int>)
    requires InRange(items, s) && Indexed(items, s) && Ascending(ByName(coll, items), s)
    ensures AllLive(Select(items, LiveSlots(items, s))) && SortedByName(coll, Select(items, LiveSlots(items, s)))
  {
    hide LiveSlots;
    var w, live := ByName(coll, items), LiveSlots(items, s);
    LiveSlotsAscend(items, s, w);
    LiveSlotsIn(items, s);
    assert forall k :: 0 <= k < |live| ==> items[live[k]].file.Some?;
    OrderOf(coll, items, live);
  }

  lemma OrderOf(coll: string -> real, items: seq<Item>, live: seq<int>)
    requires InRange(items, live) && Ascending(ByName(coll, items), live)
    requires forall k :: 0 <= k < |live| ==> items[live[k]].file.Some? && !items[live[k]].deleted
    ensures AllLive(Select(items, live)) && SortedByName(coll, Select(items, live))
  {
    var w, sorted := ByName(coll, items), Select(items, live);
    forall i, j | 0 <= i < j < |sorted| ensures coll(sorted[i].file.value) < coll(sorted[j].file.value) {
      assert w(live[i]) < w(live[j]);
    }
  }

  // ----- the index

  /** Items listed in tree order, with slot i as the i-th datum. */
  lemma SortIndex(coll: string -> real, items: seq<Item>, s: seq<int>)
    requires InRange(items, s) && Indexed(items, s) && Ascending(ByName(coll, items), s) && OnlyLive(items, s)
    ensures Indexed(Select(items, s), Identity(|s|)) && Ascending(ByName(coll, Select(items, s)), Identity(|s|))
  {
    var w := ByName(coll, items);
    var sorted, ids := Select(items, s), Identity(|s|);
    assert forall i :: 0 <= i < |ids| ==> ids[i] == i && ids[i] in ids;
    assert forall i :: 0 <= i < |s| ==> s[i] in s;
    AscendingPointwise(w, s, ByName(coll, sorted), ids);
  }

  /** The node of a deleted item keeps a slot that is out of range, or that another node
      was given. */
  lemma StaleNode(coll: string -> real, items: seq<Item>, s: seq<int>, k: nat)
    requires InRange(items, s) && k < |s| && items[s[k]].deleted
    ensures var sorted, s' := Select(items, LiveSlots(items, s)), Renumbered(items, s);
      !(Indexed(sorted, s') && Ascending(ByName(coll, sorted), s'))
  {
    var sorted, s' := Select(items, LiveSlots(items, s)), Renumbered(items, s);
    RenumberedAt(items, s, k);
    assert s'[k] in s' && s'[k] == s[k];
    if s[k] < |sorted| {
      var j := Counted(items, s, s[k]);
      var w := ByName(coll, sorted);
      assert w(s'[j]) == w(s'[k]) && j != k;
    }
  }

  /** The index is right after a sort exactly when no node pointed at a deleted item. */
  lemma SortIndexExact(coll: string -> real, items: seq<Item>, s: seq<int>)
    requires InRange(items, s) && Indexed(items, s) && Ascending(ByName(coll, items), s)
    ensures var sorted, s' := Select(items, LiveSlots(items, s)), Renumbered(items, s);
      Indexed(sorted, s') && Ascending(ByName(coll, sorted), s') <==> OnlyLive(items, s)
  {
    if OnlyLive(items, s) {
      AllCounted(items, s);
      SortIndex(coll, items, s);
    } else {
      var k :| 0 <= k < |s| && items[s[k]].deleted;
      StaleNode(coll, items, s, k);
    }
  }

  // ----- the caches

  /** An item without a name, which the sort loses, has a known time. */
  ghost predicate LosesTime(items: seq<Item>) {
    exists i :: 0 <= i < |items| && items[i].file.None? && Timed(items[i])
  }

  lemma {:induction false} TotalConcat(f: Item -> int, a: seq<Item>, b: seq<Item>)
    ensures Total(f, a + b) == Total(f, a) + Total(f, b)
  {
    if b == [] {
      assert a + b == a;
    } else {
      var n := |b| - 1;
      assert (a + b)[..|a| + n] == a + b[..n];
      TotalConcat(f, a, b[..n]);
    }
  }

  lemma {:induction false} NoneTimed(s: seq<Item>)
    ensures Total(TimedOne, s) >= 0
    ensures Total(TimedOne, s) == 0 <==> forall i :: 0 <= i < |s| ==> !Timed(s[i])
  {
    if s != [] {
      var n := |s| - 1;
      NoneTimed(s[..n]);
      assert forall i :: 0 <= i < n ==> s[..n][i] == s[i];
    }
  }

  /** The slots that the sort keeps and those it leaves out are all of them. */
  lemma KeptAndLost(coll: string -> real, items: seq<Item>, s: seq<int>)
    requires InRange(items, s) && Ascending(ByName(coll, items), s)
    ensures Covers(LiveSlots(items, s) + Absent(|items|, LiveSlots(items, s)), |items|)
  {
    var w, live := ByName(coll, items), LiveSlots(items, s);
    var lost := Absent(|items|, live);
    LiveSlotsAscend(items, s, w);
    AbsentIs(|items|, live);
    hide LiveSlots, Absent, ByName;
    assert forall i, j :: 0 <= i < j < |live| ==> w(live[i]) < w(live[j]);
    hide Ascending;
    CoversJoin(live, lost, |items|);
  }

  lemma CoversJoin(a: seq<int>, b: seq<int>, n: nat)
    requires forall k :: 0 <= k < |a| ==> 0 <= a[k] < n
    requires forall d :: d in b <==> 0 <= d < n && d !in a
    requires NoDup(a) && NoDup(b)
    ensures Covers(a + b, n)
  {
    var all := a + b;
    assert forall k :: 0 <= k < |b| ==> b[k] in b;
    forall i, j | 0 <= i < j < |all| ensures all[i] != all[j] {
      if i < |a| <= j { assert a[i] in a && b[j - |a|] in b; }
    }
  }

  lemma TotalSplit(coll: string -> real, items: seq<Item>, s: seq<int>, f: Item -> int)
    requires InRange(items, s) && Ascending(ByName(coll, items), s)
    ensures InRange(items, Absent(|items|, LiveSlots(items, s)))
    ensures Total(f, items) == Total(f, Select(items, LiveSlots(items, s)))
                             + Total(f, Select(items, Absent(|items|, LiveSlots(items, s))))
  {
    hide Total, LiveSlots, Ascending;
    var live := LiveSlots(items, s);
    var lost := Absent(|items|, live);
    AbsentIs(|items|, live);
    assert forall k :: 0 <= k < |lost| ==> lost[k] in lost;
    KeptAndLost(coll, items, s);
    SelectPermutes(items, live + lost);
    assert Select(items, live + lost) == Select(items, live) + Select(items, lost);
    TotalPermutation(f, items, Select(items, live + lost));
    TotalConcat(f, Select(items, live), Select(items, lost));
  }

  /** The counts stay right exactly when no unnamed item has a time. */
  lemma SortTotals(coll: string -> real, items: seq<Item>, s: seq<int>)
    requires InRange(items, s) && Indexed(items, s) && Ascending(ByName(coll, items), s)
    ensures var sorted := Select(items, LiveSlots(items, s));
      && Total(LiveOne, sorted) == |sorted|
      && (Total(TimedOne, sorted) == Total(TimedOne, items) && Total(TimeOf, sorted) == Total(TimeOf, items)
          <==> !LosesTime(items))
  {
    hide LiveSlots, Total, Ascending, LosesTime, Absent;
    var live := LiveSlots(items, s);
    var lost := Absent(|items|, live);
    TotalSplit(coll, items, s, TimedOne);
    TotalSplit(coll, items, s, TimeOf);
    LiveSlotsIn(items, s);
    assert forall k :: 0 <= k < |live| ==> live[k] in live;
    TotalAllLive(Select(items, live));
    LostTimes(items, s);
    NoneTimed(Select(items, lost));
    if !LosesTime(items) { TotalZero(TimeOf, Select(items, lost)); }
  }

  lemma LostTimes(items: seq<Item>, s: seq<int>)
    requires InRange(items, s) && Indexed(items, s)
    ensures InRange(items, Absent(|items|, LiveSlots(items, s)))
    ensures var rest := Select(items, Absent(|items|, LiveSlots(items, s)));
      LosesTime(items) <==> exists k :: 0 <= k < |rest| && Timed(rest[k])
  {
    hide LiveSlots, Absent;
    var live := LiveSlots(items, s);
    var lost := Absent(|items|, live);
    AbsentIs(|items|, live);
    LiveSlotsIn(items, s);
    assert forall k :: 0 <= k < |lost| ==> lost[k] in lost;
    var rest := Select(items, lost);
    if i :| 0 <= i < |items| && items[i].file.None? && Timed(items[i]) {
      assert i in lost;
      var k :| 0 <= k < |lost| && lost[k] == i;
      assert Timed(rest[k]);
    }
    forall k | 0 <= k < |rest| && Timed(rest[k]) ensures LosesTime(items) {
      assert lost[k] in lost && rest[k] == items[lost[k]];
      assert items[lost[k]].file.None?;
    }
  }

  // ----- lists without deleted and unnamed items

  /** Without deleted or unnamed items the tree holds each slot exactly once, so the sort
      is a permutation. */
  lemma SortCovers(coll: string -> real, items: seq<Item>, s: seq<int>)
    requires AllLive(items) && InRange(items, s) && Indexed(items, s) && Ascending(ByName(coll, items), s)
    ensures Covers(s, |items|) && OnlyLive(items, s) && !LosesTime(items)
    ensures LiveSlots(items, s) == s && Renumbered(items, s) == Identity(|items|)
    ensures multiset(Select(items, LiveSlots(items, s))) == multiset(items)
  {
    hide Covers, LiveSlots, Renumbered, Ascending, Indexed, Select;
    CoversAll(coll, items, s);
    assert forall k :: 0 <= k < |s| ==> !items[s[k]].deleted;
    AllCounted(items, s);
    SelectPermutes(items, s);
  }

  lemma CoversAll(coll: string -> real, items: seq<Item>, s: seq<int>)
    requires AllLive(items) && InRange(items, s) && Indexed(items, s) && Ascending(ByName(coll, items), s)
    ensures Covers(s, |items|)
  {
    var w := ByName(coll, items);
    forall i, j | 0 <= i < j < |s| ensures s[i] != s[j] { assert w(s[i]) < w(s[j]); }
  }

  // ----- for the walk

  lemma SortStart(items: seq<Item>, s: seq<int>)
    requires InRange(items, s)
    ensures InRange(items, s[..0]) && Select(items, LiveSlots(items, s[..0])) == []
    ensures Renumbered(items, s[..0]) + s[0..] == s
  {}

  lemma RangeAt(items: seq<Item>, s: seq<int>, k: nat)
    requires InRange(items, s)
    ensures k < |s| ==> 0 <= s[k] < |items|
  {}

  lemma SortSkip(items: seq<Item>, s: seq<int>, k: nat, sorted: seq<Item>)
    requires InRange(items, s) && k < |s| && items[s[k]].deleted
    requires InRange(items, s[..k]) && sorted == Select(items, LiveSlots(items, s[..k]))
    ensures InRange(items, s[..k + 1]) && sorted == Select(items, LiveSlots(items, s[..k + 1]))
    ensures Renumbered(items, s[..k]) + s[k..] == Renumbered(items, s[..k + 1]) + s[k + 1..]
  {
    hide LiveSlots, Renumbered;
    SortStep(items, s, k);
    assert s[k..] == [s[k]] + s[k + 1..];
  }

  lemma SortTake(items: seq<Item>, s: seq<int>, k: nat, sorted: seq<Item>)
    requires InRange(items, s) && k < |s| && !items[s[k]].deleted
    requires InRange(items, s[..k]) && sorted == Select(items, LiveSlots(items, s[..k]))
    ensures InRange(items, s[..k + 1]) && sorted + [items[s[k]]] == Select(items, LiveSlots(items, s[..k + 1]))
    ensures (Renumbered(items, s[..k]) + s[k..])[k := |sorted|] == Renumbered(items, s[..k + 1]) + s[k + 1..]
  {
    hide LiveSlots, Renumbered;
    SortStep(items, s, k);
    assert s[k..] == [s[k]] + s[k + 1..];
  }
}
