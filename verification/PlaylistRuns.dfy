/** Whole runs over two playlists that share the sentinel: any sequence of the operations
    of `playlist.c` on either, and of appending one to the other. */
module PlaylistRuns {
  import opened Basics
  import opened PlaylistSpec
  import opened PlaylistIndex
  import opened PlaylistSort
  import opened RbShape
  import opened RbMoves
  import opened RbTrees
  import opened Playlists

  datatype Op =
    | AddFile(name: string, kind: FileType, mtime: int)
    | AddItem(it: Item)
    | AddPlaceholder
    | NameSlot(num: int, name: string, kind: FileType, mtime: int)
    | DeleteSlot(num: int)
    | TimeSlot(num: int, time: int)
    | TagSlot(num: int, tags: Tags)
    | DropTags
    | ExchangeFiles(file1: string, file2: string)
    | SortNames
    | Mix(picks: seq<nat>)
    | MoveFirst(name: string)
    | Empty

  /** What the callers of `playlist.c` see to before each call. */
  predicate Allowed(items: seq<Item>, op: Op) {
    match op
    case AddFile(name, _, _) => Scan(items, name) == -1
    case AddItem(it) => !it.deleted && (it.file.Some? ==> Scan(items, it.file.value) == -1)
    case NameSlot(num, _, _, _) => 0 <= num < |items| && items[num].file.None?
    case DeleteSlot(num) => 0 <= num < |items| && !items[num].deleted
    case TimeSlot(num, _) => 0 <= num < |items| && !items[num].deleted
    case TagSlot(num, _) => 0 <= num < |items| && !items[num].deleted
    case SortNames => AllLive(items)
    case Mix(picks) =>
      && AllNamed(items) && DistinctNames(items)
      && |picks| == |items| && forall k :: 0 <= k < |picks| ==> picks[k] < |items|
    case MoveFirst(name) => Scan(items, name) > 0 ==> CanSwapFirst(items, Scan(items, name))
    case _ => true
  }

  /** The index has the name, if only for a deleted item; naming a placeholder so aborts. */
  ghost predicate HasName(p: PList, name: string)
    reads p, p.tree, p.tree.repr
  {
    exists d :: d in p.tree.Contents() && 0 <= d < |p.items| && p.items[d].file == Some(name)
  }

  method FindName(p: PList, name: string) returns (found: bool)
    requires p.Valid()
    ensures found <==> HasName(p, name)
  {
    hide RbTree.Valid, RbTree.Contents, Total;
    var w := ByName(p.coll, p.items);
    var x;
    ghost var z, t, visits;
    x, z, t, visits := p.tree.Search(p.coll(name), w);
    NameListed(p.coll, p.items, p.tree.Contents(), name);
    return x != p.tree.nil;
  }

  lemma NameListed(coll: string -> real, items: seq<Item>, s: seq<int>, name: string)
    requires Collation(coll) && Indexed(items, s)
    ensures Lists(ByName(coll, items), s, coll(name)) <==>
      exists d :: d in s && 0 <= d < |items| && items[d].file == Some(name)
  {
    var w := ByName(coll, items);
    if i :| 0 <= i < |s| && w(s[i]) == coll(name) {
      assert s[i] in s && items[s[i]].file == Some(name);
    }
    if d :| d in s && 0 <= d < |items| && items[d].file == Some(name) {
      var i :| 0 <= i < |s| && s[i] == d;
      assert w(s[i]) == coll(name);
    }
  }

  /** What each operation makes of the items. */
  ghost predicate Effect(coll: string -> real, op: Op, s: seq<Item>, s': seq<Item>)
    requires Allowed(s, op)
  {
    match op
    case AddFile(name, kind, mtime) => s' == s + [Fresh(name, kind, mtime)]
    case AddItem(it) => s' == s + [it]
    case AddPlaceholder => s' == s + [Placeholder()]
    case NameSlot(num, name, kind, mtime) => s' == s[num := s[num].(file := Some(name), kind := kind, mtime := mtime)]
    case DeleteSlot(num) => s' == s[num := Erased(s[num])]
    case TimeSlot(num, time) => s' == s[num := Retimed(s[num], time)]
    case TagSlot(num, tags) => s' == s[num := s[num].(tags := Some(tags))]
    case DropTags => |s'| == |s| && forall i :: 0 <= i < |s| ==> s'[i] == Untagged(s[i])
    case ExchangeFiles(file1, file2) =>
      && multiset(s') == multiset(s)
      && (IsLive(s, file1) && IsLive(s, file2) ==> s' == Swapped(s, Scan(s, file1), Scan(s, file2)))
    case SortNames => multiset(s') == multiset(s) && SortedByName(coll, s')
    case Mix(picks) => s' == Shuffled(s, picks, |s|)
    case MoveFirst(name) => s' == if Scan(s, name) > 0 then Swapped(s, 0, Scan(s, name)) else s
    case Empty => s' == []
  }

  method Perform(p: PList, op: Op)
    requires p.Valid() && Allowed(p.items, op) && (op.NameSlot? ==> !HasName(p, op.name))
    modifies p, p.tree, p.tree.repr, p.tree.nil`color
    ensures p.Valid() && fresh(p.tree.repr - old(p.tree.repr))
    ensures Effect(p.coll, op, old(p.items), p.items)
  {
    hide PList.Valid, HasName, Swapped, Erased, Retimed, Untagged, SortedByName, Shuffled;
    match op
    case AddFile(name, kind, mtime) => var _ := p.Add(Some(name), kind, mtime);
    case AddItem(it) => var _ := p.AddFromItem(it);
    case AddPlaceholder => var _ := p.Add(None, Other, -1);
    case NameSlot(num, name, kind, mtime) => NameFree(p, num, name, kind, mtime);
    case DeleteSlot(num) => p.Delete(num);
    case TimeSlot(num, time) => p.SetItemTime(num, time);
    case TagSlot(num, tags) => p.SetTags(num, tags);
    case DropTags => p.DiscardTags();
    case ExchangeFiles(file1, file2) => p.SwapFiles(file1, file2);
    case SortNames => SortAll(p);
    case Mix(picks) => p.Shuffle(picks);
    case MoveFirst(name) => var _ := p.SwapFirstFname(name);
    case Empty => ClearList(p);
  }

  method NameFree(p: PList, num: int, name: string, kind: FileType, mtime: int)
    requires p.Valid() && 0 <= num < |p.items| && p.items[num].file.None? && !HasName(p, name)
    modifies p, p.tree, p.tree.repr
    ensures p.Valid() && fresh(p.tree.repr - old(p.tree.repr))
    ensures p.items == old(p.items)[num := old(p.items)[num].(file := Some(name), kind := kind, mtime := mtime)]
  {
    hide PList.Valid;
    var aborted := p.NamePlaceholder(num, name, kind, mtime);
  }

  method SortAll(p: PList)
    requires p.Valid() && AllLive(p.items)
    modifies p, p.tree.repr
    ensures p.Valid() && multiset(p.items) == multiset(old(p.items)) && SortedByName(p.coll, p.items)
  {
    hide PList.Index, Total, SortedByName;
    TotalAllLive(p.items);
    assert p.items != [] ==> !p.items[0].deleted;
    p.SortFname();
  }

  method ClearList(p: PList)
    requires p.Valid()
    modifies p, p.tree
    ensures p.Valid() && p.tree.repr == {} && p.items == []
  {
    p.Clear();
  }

  datatype Call = On(op: Op) | Join

  /** One call on `p`, or appending `q` to it. */
  method Turn(p: PList, q: PList, call: Call)
    requires p.Valid() && q.Valid() && Apart(p, q)
    requires call.On? ==> Allowed(p.items, call.op) && (call.op.NameSlot? ==> !HasName(p, call.op.name))
    requires call.Join? ==> AllNamed(q.items)
    modifies p, p.tree, p.tree.repr, p.tree.nil`color
    ensures p.Valid() && q.Valid() && Apart(p, q) && fresh(p.tree.repr - old(p.tree.repr))
    ensures call.On? ==> Effect(p.coll, call.op, old(p.items), p.items)
    ensures call.Join? ==> p.items == Concatenated(old(p.items), q.items)
  {
    hide PList.Caches, HasName, Allowed, Effect, Concatenated, Rep, RedBlack, Ascending, Indexed, Collation;
    match call
    case On(op) => Perform(p, op);
    case Join => p.Cat(q);
    StillValid(q);
  }

  /** What one call makes of the items of both lists: its effect on the list it is made on,
      or nothing, if the callers of `playlist.c` would not make it or it names a placeholder
      by a name that the index has. */
  ghost predicate Took(coll: string -> real, call: (bool, Call), was: (seq<Item>, seq<Item>),
                       now: (seq<Item>, seq<Item>)) {
    if call.0 then now.0 == was.0 && TookOne(coll, call.1, was.1, was.0, now.1)
    else now.1 == was.1 && TookOne(coll, call.1, was.0, was.1, now.0)
  }

  ghost predicate TookOne(coll: string -> real, call: Call, mine: seq<Item>, other: seq<Item>, now: seq<Item>) {
    match call
    case On(op) =>
      if !Allowed(mine, op) then now == mine
      else Effect(coll, op, mine, now) || (op.NameSlot? && now == mine)
    case Join => if AllNamed(other) then now == Concatenated(mine, other) else now == mine
  }

  /** After any run from two empty lists, a lookup through the index gives what a linear
      scan gives, the live names are distinct, and the caches equal the totals.  Each call
      says whether it is made on the second list; `trace` are the items after each call. */
  method Run(nil: RbNode, coll: string -> real, calls: seq<(bool, Call)>, name: string)
    returns (p: PList, q: PList, found: int, ghost trace: seq<(seq<Item>, seq<Item>)>)
    requires nil.color == Black && Collation(coll)
    modifies nil`color
    ensures |trace| == |calls| + 1 && trace[0] == ([], []) && trace[|calls|] == (p.items, q.items)
    ensures forall i :: 0 <= i < |calls| ==> Took(coll, calls[i], trace[i], trace[i + 1])
    ensures p.Valid() && q.Valid() && found == Scan(p.items, name)
    ensures p.notDeleted == Total(LiveOne, p.items)
    ensures p.itemsWithTime == Total(TimedOne, p.items)
    ensures p.totalTime == Total(TimeOf, p.items)
    ensures forall i :: 0 <= i < |p.items| && Live(p.items[i], name) ==> i == found
    ensures nil.color == Black
  {
    hide Total, Scan, Took, PList.Index;
    p, q, trace := Calls(nil, coll, calls);
    found := p.FindFname(name);
  }

  method Calls(nil: RbNode, coll: string -> real, calls: seq<(bool, Call)>)
    returns (p: PList, q: PList, ghost trace: seq<(seq<Item>, seq<Item>)>)
    requires nil.color == Black && Collation(coll)
    modifies nil`color
    ensures |trace| == |calls| + 1 && trace[0] == ([], []) && trace[|calls|] == (p.items, q.items)
    ensures forall i :: 0 <= i < |calls| ==> Took(coll, calls[i], trace[i], trace[i + 1])
    ensures p.Valid() && q.Valid() && nil.color == Black
  {
    hide PList.Valid, TookOne, Collation;
    p := new PList(nil, coll);
    q := new PList(nil, coll);
    NilIsBlack(p);
    NilIsBlack(q);
    trace := [([], [])];
    var i := 0;
    while i < |calls|
      invariant 0 <= i <= |calls| && |trace| == i + 1 && trace[0] == ([], []) && trace[i] == (p.items, q.items)
      invariant forall k :: 0 <= k < i ==> Took(coll, calls[k], trace[k], trace[k + 1])
      invariant p.Valid() && q.Valid() && Apart(p, q) && p.tree.nil == nil && p.coll == q.coll == coll
      invariant fresh(p) && fresh(p.tree) && fresh(p.tree.repr) && fresh(q) && fresh(q.tree) && fresh(q.tree.repr)
      invariant nil.color == Black
    {
      var (second, call) := calls[i];
      if second {
        TurnIfAllowed(q, p, call);
      } else {
        TurnIfAllowed(p, q, call);
      }
      trace := trace + [(p.items, q.items)];
      i := i + 1;
    }
  }

  method TurnIfAllowed(p: PList, q: PList, call: Call)
    requires p.Valid() && q.Valid() && Apart(p, q)
    modifies p, p.tree, p.tree.repr, p.tree.nil`color
    ensures p.Valid() && q.Valid() && Apart(p, q) && fresh(p.tree.repr - old(p.tree.repr))
    ensures p.tree.nil.color == Black
    ensures TookOne(p.coll, call, old(p.items), q.items, p.items)
  {
    hide PList.Valid, HasName, Allowed, Effect, Concatenated;
    var known := false;
    if call.On? && call.op.NameSlot? {
      known := FindName(p, call.op.name);
    }
    if (call.On? && Allowed(p.items, call.op) && !known) || (call.Join? && AllNamed(q.items)) {
      Turn(p, q, call);
    }
    NilIsBlack(p);
  }

  // ----- a run followed in full

  /** A file that is there is not added again; after its deletion it is, at the end; and
      appending to the other list leaves the deleted entry out. */
  lemma AddDeleteAdd(coll: string -> real, calls: seq<(bool, Call)>, trace: seq<(seq<Item>, seq<Item>)>,
                     a: Op, b: Op)
    requires a == AddFile("a", Sound, 1) && b == AddFile("b", Sound, 2)
    requires calls ==
      [(false, On(a)), (false, On(b)), (false, On(a)), (false, On(DeleteSlot(0))), (false, On(a)), (true, Join)]
    requires |trace| == |calls| + 1 && trace[0] == ([], [])
    requires forall i :: 0 <= i < |calls| ==> Took(coll, calls[i], trace[i], trace[i + 1])
    ensures var x, y := Fresh("a", Sound, 1), Fresh("b", Sound, 2);
      trace[3].0 == [x, y] && trace[6] == ([Erased(x), y, x], [y, x])
  {
    hide Effect, Allowed, Concatenated, Scan, Took, TookOne;
    var x, y := Fresh("a", Sound, 1), Fresh("b", Sound, 2);
    assert [] + [x] == [x] && [x] + [y] == [x, y] && [x, y][0 := Erased(x)] == [Erased(x), y];
    assert "a"[0] != "b"[0];
    assert Live([x, y][0], "a");
    FileAdded(coll, a, [], [], trace[1]);
    FileAdded(coll, b, [x], [], trace[2]);
    FileThere(coll, a, [x, y], [], trace[3]);
    FirstDeleted(coll, [x, y], [], trace[4]);
    FileAdded(coll, a, [Erased(x), y], [], trace[5]);
    assert [Erased(x), y] + [x] == [Erased(x), y, x];
    Joined(coll, x, y, trace[6]);
  }

  lemma FileAdded(coll: string -> real, op: Op, s: seq<Item>, t: seq<Item>, now: (seq<Item>, seq<Item>))
    requires op.AddFile? && Took(coll, (false, On(op)), (s, t), now) && !IsLive(s, op.name)
    ensures now == (s + [Fresh(op.name, op.kind, op.mtime)], t)
  {}

  lemma FileThere(coll: string -> real, op: Op, s: seq<Item>, t: seq<Item>, now: (seq<Item>, seq<Item>))
    requires op.AddFile? && Took(coll, (false, On(op)), (s, t), now) && IsLive(s, op.name)
    ensures now == (s, t)
  {}

  lemma FirstDeleted(coll: string -> real, s: seq<Item>, t: seq<Item>, now: (seq<Item>, seq<Item>))
    requires Took(coll, (false, On(DeleteSlot(0))), (s, t), now) && s != [] && !s[0].deleted
    ensures now == (s[0 := Erased(s[0])], t)
  {}

  lemma Joined(coll: string -> real, x: Item, y: Item, now: (seq<Item>, seq<Item>))
    requires x.file == Some("a") && y.file == Some("b") && !x.deleted && !y.deleted
    requires Took(coll, (true, Join), ([Erased(x), y, x], []), now)
    ensures now == ([Erased(x), y, x], [y, x])
  {
    var s := [Erased(x), y, x];
    assert Concatenated([y, x], s, 3) == [y, x];
    assert "a"[0] != "b"[0];
    assert Concatenated([y], s, 2) == [y, x] by { assert [y] + [x] == [y, x]; }
    assert Concatenated([], s, 1) == [y, x] by { assert [] + [y] == [y]; }
  }

  // ----- calls that leave a list that is not valid

  /** Adding a file twice: the first item loses its node. */
  method AddedTwice(nil: RbNode, coll: string -> real) returns (p: PList)
    requires nil.color == Black && Collation(coll)
    modifies nil`color
    ensures !p.Valid() && |p.items| == 2
  {
    hide PList.Index, PList.Caches, Collation;
    p := new PList(nil, coll);
    var _ := p.Add(Some("a"), Sound, 0);
    assert Live(p.items[0], "a");
    var _ := p.Add(Some("a"), Sound, 0);
  }

  /** Sorting a list with a deleted item in its index: the node of that item is stale. */
  method SortedStale(nil: RbNode, coll: string -> real) returns (p: PList)
    requires nil.color == Black && Collation(coll)
    modifies nil`color
    ensures !p.Valid()
  {
    hide PList.Index, PList.Caches, Collation, Select, LiveSlots, Renumbered, LosesTime;
    p := new PList(nil, coll);
    var _ := p.Add(Some("a"), Sound, 0);
    assert !IsLive(p.items, "b") by { assert "a"[0] != "b"[0]; }
    var _ := p.Add(Some("b"), Sound, 0);
    HasNode(p, 0);
    p.Delete(0);
    assert p.items[1] == Fresh("b", Sound, 0) && p.items[0].deleted;
    CountsLive(p, 1);
    p.SortFname();
  }

  lemma CountsLive(p: PList, i: nat)
    requires p.Valid() && i < |p.items| && !p.items[i].deleted
    ensures p.notDeleted > 0
  {
    SomeCounted(p.items, i);
  }

  lemma {:induction false} SomeCounted(s: seq<Item>, i: nat)
    requires i < |s| && !s[i].deleted
    ensures Total(LiveOne, s) > 0
  {
    AllTimed(s[..|s| - 1]);
    NoneTimed(s[..|s| - 1]);
    if i < |s| - 1 { SomeCounted(s[..|s| - 1], i); }
  }

  /** A live named item has a node. */
  lemma HasNode(p: PList, i: nat)
    requires p.Valid() && i < |p.items| && !p.items[i].deleted && p.items[i].file.Some?
    ensures i in p.tree.Contents()
  {}
}
