/** `player.c`: the history of bitrate changes, a linked list that lookups prune. */
module Bitrate {

  datatype Change = Change(time: int, bitrate: int)

  // ----- the full history

  /** Times increase and each change is a change. */
  predicate Regular(h: seq<Change>) {
    && (forall i, j :: 0 <= i < j < |h| ==> h[i].time < h[j].time)
    && (forall i :: 0 < i < |h| ==> h[i - 1].bitrate != h[i].bitrate)
  }

  /** What an addition does to the full history. */
  function Added(h: seq<Change>, c: Change): seq<Change> {
    if h == [] then [c]
    else
      var last := h[|h| - 1];
      if last.bitrate != c.bitrate && last.time != c.time then h + [c] else h
  }

  /** The index of the last change at or before `t`; -1 if there is none. */
  function LastBy(h: seq<Change>, t: int): (i: int)
    ensures -1 <= i < |h|
    ensures i >= 0 ==> h[i].time <= t
    ensures forall j :: i < j < |h| ==> t < h[j].time
  {
    if h == [] then -1
    else if h[|h| - 1].time <= t then |h| - 1
    else LastBy(h[..|h| - 1], t)
  }

  /** The bitrate at time `t`: the last change by then, or the first change if none is
      that early. */
  function BitrateAt(h: seq<Change>, t: int): int {
    if h == [] then -1
    else if LastBy(h, t) == -1 then h[0].bitrate
    else h[LastBy(h, t)].bitrate
  }

  /** Dropping what lies before a change that a lookup already reached does not change
      any later lookup. */
  lemma PrunedAnswers(h: seq<Change>, k: nat, t: int)
    requires Regular(h) && k < |h| && (k == 0 || h[k].time <= t)
    ensures BitrateAt(h[k..], t) == BitrateAt(h, t)
  {
    var i, j := LastBy(h, t), LastBy(h[k..], t);
    assert forall m :: 0 <= m < |h| - k ==> h[k..][m] == h[k + m];
    assert forall m :: k <= m < |h| ==> h[m] == h[k..][m - k];
  }

  lemma AddedKeeps(h: seq<Change>, c: Change)
    requires Regular(h)
    requires h != [] && h[|h| - 1].bitrate != c.bitrate && h[|h| - 1].time != c.time ==> h[|h| - 1].time < c.time
    ensures Regular(Added(h, c))
  {}

  /** `kept` is what lookups up to `asked` left of the history `h`. */
  predicate Remains(kept: seq<Change>, h: seq<Change>, asked: int) {
    && |kept| <= |h| && (kept == [] <==> h == [])
    && kept == h[|h| - |kept|..]
    && (|kept| < |h| ==> kept[0].time <= asked)
  }

  lemma RemainsAdded(kept: seq<Change>, h: seq<Change>, asked: int, c: Change)
    requires Remains(kept, h, asked)
    ensures Remains(Added(kept, c), Added(h, c), asked)
  {
    if kept != [] {
      assert kept[|kept| - 1] == h[|h| - 1];
      assert (h + [c])[|h| - |kept|..] == h[|h| - |kept|..] + [c];
    }
  }

  lemma RemainsPruned(kept: seq<Change>, h: seq<Change>, asked: int, t: int)
    requires Remains(kept, h, asked) && |kept| > 1 && kept[1].time <= t
    ensures Remains(kept[1..], h, t)
  {
    assert kept[1..] == h[|h| - |kept| + 1..];
  }

  lemma RemainsAnswers(kept: seq<Change>, h: seq<Change>, asked: int, t: int)
    requires Regular(h) && Remains(kept, h, asked) && kept != []
    requires (|kept| < |h| ==> asked <= t) && (|kept| > 1 ==> t < kept[1].time)
    ensures BitrateAt(h, t) == kept[0].bitrate
  {
    var k := |h| - |kept|;
    assert kept[0] == h[k];
    PrunedAnswers(h, k, t);
    FirstAnswers(kept, t);
  }

  lemma FirstAnswers(h: seq<Change>, t: int)
    requires h != [] && (forall i, j :: 0 <= i < j < |h| ==> h[i].time < h[j].time) && (|h| > 1 ==> t < h[1].time)
    ensures BitrateAt(h, t) == h[0].bitrate
  {}

  // ----- the pruned list

  class Node {
    var next: Node?
    const time: int
    const bitrate: int

    constructor (time: int, bitrate: int)
      ensures this.time == time && this.bitrate == bitrate && next == null
    {
      this.time, this.bitrate := time, bitrate;
      next := null;
    }
  }

  ghost function ChangesOf(spine: seq<Node>): (r: seq<Change>)
    ensures |r| == |spine|
  {
    seq(|spine|, i requires 0 <= i < |spine| => Change(spine[i].time, spine[i].bitrate))
  }

  lemma ChangesOfRest(spine: seq<Node>)
    requires spine != []
    ensures ChangesOf(spine[1..]) == ChangesOf(spine)[1..]
  {}

  lemma ChangesOfOne(n: Node)
    ensures ChangesOf([n]) == [Change(n.time, n.bitrate)]
  {}

  lemma ChangesOfMore(spine: seq<Node>, n: Node)
    ensures ChangesOf(spine + [n]) == ChangesOf(spine) + [Change(n.time, n.bitrate)]
  {}

  class BitrateList {
    var head: Node?
    var tail: Node?
    ghost var spine: seq<Node>
    ghost var history: seq<Change>   // all changes, none pruned
    ghost var asked: int             // the time of the latest lookup that pruned

    ghost predicate Linked()
      reads this`head, this`tail, this`spine, spine
    {
      && (head == null <==> spine == []) && (tail == null <==> spine == [])
      && (spine != [] ==> head == spine[0] && tail == spine[|spine| - 1] && tail.next == null)
      && (forall i :: 0 <= i < |spine| - 1 ==> spine[i].next == spine[i + 1])
      && (forall i, j :: 0 <= i < j < |spine| ==> spine[i] != spine[j])
    }

    /** The list is well formed and is what is left of the history. */
    ghost predicate Valid()
      reads this, spine
    {
      Linked() && Regular(history) && Remains(ChangesOf(spine), history, asked)
    }

    /** No lookup still to come is earlier than those that pruned. */
    ghost predicate AskedBefore(ops: seq<Op>, i: nat)
      reads this
    {
      |spine| < |history| ==> forall j :: i <= j < |ops| && ops[j].Ask? && NoClear(ops, i, j) ==> asked <= ops[j].time
    }

    /** `bitrate_list_init`. */
    constructor ()
      ensures Valid() && history == [] && spine == []
    {
      head, tail := null, null;
      spine, history, asked := [], [], 0;
    }

    /** `bitrate_list_empty`. */
    method Empty()
      requires Valid()
      modifies this
      ensures Valid() && history == [] && spine == []
    {
      head, tail := null, null;
      spine, history := [], [];
    }

    /** `bitrate_list_add`; a change of bitrate comes later than the last one. */
    method Add(time: int, bitrate: int)
      requires Valid()
      requires tail != null && tail.bitrate != bitrate && tail.time != time ==> tail.time < time
      modifies this, spine
      ensures Valid() && history == Added(old(history), Change(time, bitrate)) && asked == old(asked)
      ensures |history| - |spine| == old(|history| - |spine|)
      ensures forall k :: 0 <= k < |spine| ==> spine[k] in old(spine) || fresh(spine[k])
    {
      hide Remains, Regular, ChangesOf;
      if tail == null {
        AddFirst(time, bitrate);
      } else if tail.bitrate != bitrate && tail.time != time {
        AddMore(time, bitrate);
      } else {
        NotAdded(Change(time, bitrate));
      }
    }

    /** A change that is not added to the list is none to the history. */
    lemma NotAdded(c: Change)
      requires Valid() && tail != null && !(tail.bitrate != c.bitrate && tail.time != c.time)
      ensures Added(history, c) == history
    {
      LastKept(ChangesOf(spine), history, asked);
    }

    method AddFirst(time: int, bitrate: int)
      requires Valid() && tail == null
      modifies this`head, this`tail, this`spine, this`history
      ensures Valid() && history == Added(old(history), Change(time, bitrate))
      ensures |history| - |spine| == old(|history| - |spine|) && |spine| == 1 && fresh(spine[0])
    {
      AddedRemains(ChangesOf(spine), history, asked, Change(time, bitrate));
      hide Remains, Regular, BitrateList.Linked, ChangesOf;
      history := Added(history, Change(time, bitrate));
      FirstNode(time, bitrate);
      ChangesOfOne(spine[0]);
      assert spine == [spine[0]];
    }

    method AddMore(time: int, bitrate: int)
      requires Valid() && tail != null && tail.bitrate != bitrate && tail.time < time
      modifies this`tail, this`spine, this`history, spine
      ensures Valid() && history == Added(old(history), Change(time, bitrate))
      ensures |history| - |spine| == old(|history| - |spine|)
      ensures |spine| == |old(spine)| + 1 && spine[..|old(spine)|] == old(spine) && fresh(spine[|old(spine)|])
    {
      hide Remains, Regular, BitrateList.Linked, ChangesOf, Added;
      ghost var was, c := spine, Change(time, bitrate);
      MoreFacts(c);
      history := Added(history, c);
      AppendNode(time, bitrate);
      assert spine == was + [spine[|was|]];
      ChangesOfMore(was, spine[|was|]);
    }

    lemma MoreFacts(c: Change)
      requires Valid() && tail != null && tail.bitrate != c.bitrate && tail.time < c.time
      ensures Regular(Added(history, c)) && |Added(history, c)| == |history| + 1
      ensures Remains(ChangesOf(spine) + [c], Added(history, c), asked)
    {
      hide Remains, Regular;
      AddedRemains(ChangesOf(spine), history, asked, c);
      LastKept(ChangesOf(spine), history, asked);
    }

    method FirstNode(time: int, bitrate: int)
      requires Linked() && tail == null
      modifies this`head, this`tail, this`spine
      ensures Linked() && |spine| == 1 && fresh(spine[0]) && spine[0].time == time && spine[0].bitrate == bitrate
    {
      head := new Node(time, bitrate);
      tail := head;
      spine := [head];
    }

    method AppendNode(time: int, bitrate: int)
      requires Linked() && tail != null
      modifies this`tail, this`spine, spine
      ensures Linked() && |spine| == |old(spine)| + 1 && spine[..|old(spine)|] == old(spine)
      ensures fresh(spine[|spine| - 1]) && spine[|spine| - 1].time == time && spine[|spine| - 1].bitrate == bitrate
    {
      var n := new Node(time, bitrate);
      tail.next := n;
      tail := n;
      spine := spine + [n];
    }

    /** `bitrate_list_get`, at times that do not decrease: the pruned list answers as the
        full history would. */
    method Get(time: int) returns (bitrate: int)
      requires Valid() && (|spine| < |history| ==> asked <= time)
      modifies this
      ensures Valid() && history == old(history)
      ensures bitrate == BitrateAt(history, time)
      ensures |spine| < |history| ==> asked <= time
      ensures forall n :: n in spine ==> n in old(spine)
    {
      if head == null {
        return -1;
      }
      while head.next != null && head.next.time <= time
        invariant Valid() && head != null && history == old(history)
        invariant |spine| < |history| ==> asked <= time
        invariant forall n :: n in spine ==> n in old(spine)
        decreases |spine|
      {
        PruneOne(time);
      }
      RemainsAnswers(ChangesOf(spine), history, asked, time);
      bitrate := head.bitrate;
    }

    method DropFirst()
      requires Linked() && |spine| > 1
      modifies this`head, this`spine
      ensures Linked() && spine == old(spine)[1..]
    {
      assert head.next == spine[0 + 1];
      head := head.next;
      spine := spine[1..];
    }

    method PruneOne(time: int)
      requires Valid() && head != null && head.next != null && head.next.time <= time
      modifies this
      ensures Valid() && head != null && history == old(history) && asked == time && |spine| < |old(spine)|
      ensures forall n :: n in spine ==> n in old(spine)
    {
      assert |spine| > 1 && head.next == spine[0 + 1];
      RemainsPruned(ChangesOf(spine), history, asked, time);
      ChangesOfRest(spine);
      hide Remains, Regular, ChangesOf;
      asked := time;
      DropFirst();
    }
  }

  /** An addition to what is left of the history keeps all three in step. */
  lemma AddedRemains(kept: seq<Change>, h: seq<Change>, asked: int, c: Change)
    requires Regular(h) && Remains(kept, h, asked)
    requires
      kept != [] && kept[|kept| - 1].bitrate != c.bitrate && kept[|kept| - 1].time != c.time ==>
        kept[|kept| - 1].time < c.time
    ensures Regular(Added(h, c)) && Remains(Added(kept, c), Added(h, c), asked)
    ensures Added(kept, c) == kept ==> Added(h, c) == h
  {
    LastKept(kept, h, asked);
    RemainsAdded(kept, h, asked, c);
    AddedKeeps(h, c);
  }

  lemma LastKept(kept: seq<Change>, h: seq<Change>, asked: int)
    requires Remains(kept, h, asked)
    ensures kept != [] ==> kept[|kept| - 1] == h[|h| - 1]
    ensures kept == [] <==> h == []
  {}

  // ----- whole runs

  datatype Op = Put(change: Change) | Ask(time: int) | Clear

  predicate NoClear(ops: seq<Op>, i: nat, j: nat)
    requires i <= j <= |ops|
  {
    forall k :: i <= k < j ==> !ops[k].Clear?
  }

  /** Additions and lookups are each made at times that do not decrease, except across a
      seek, which empties the list. */
  predicate InOrder(ops: seq<Op>) {
    && (forall i, j :: 0 <= i < j < |ops| && ops[i].Put? && ops[j].Put? && NoClear(ops, i, j) ==>
          ops[i].change.time <= ops[j].change.time)
    && (forall i, j :: 0 <= i < j < |ops| && ops[i].Ask? && ops[j].Ask? && NoClear(ops, i, j) ==>
          ops[i].time <= ops[j].time)
  }

  /** The history after the operations. */
  function HistoryOf(ops: seq<Op>): (h: seq<Change>) {
    if ops == [] then []
    else
      var n := |ops| - 1;
      match ops[n]
      case Put(c) => Added(HistoryOf(ops[..n]), c)
      case Ask(_) => HistoryOf(ops[..n])
      case Clear => []
  }

  /** The answers that the full, never pruned history gives. */
  function Answers(ops: seq<Op>): seq<int> {
    if ops == [] then []
    else
      var n := |ops| - 1;
      if ops[n].Ask? then Answers(ops[..n]) + [BitrateAt(HistoryOf(ops[..n]), ops[n].time)] else Answers(ops[..n])
  }

  /** The last change recorded is no later than the additions still to come. */
  lemma {:induction false} HistoryBefore(ops: seq<Op>, i: nat, time: int)
    requires i <= |ops| && forall j :: 0 <= j < i && ops[j].Put? && NoClear(ops, j, i) ==> ops[j].change.time <= time
    ensures HistoryOf(ops[..i]) != [] ==> HistoryOf(ops[..i])[|HistoryOf(ops[..i])| - 1].time <= time
  {
    if i > 0 {
      assert ops[..i][..i - 1] == ops[..i - 1];
      if !ops[i - 1].Clear? {
        assert forall j :: 0 <= j < i - 1 && NoClear(ops, j, i - 1) ==> NoClear(ops, j, i);
        assert ops[i - 1].Put? ==> NoClear(ops, i - 1, i);
        HistoryBefore(ops, i - 1, time);
      }
    }
  }

  /** Additions are made at times that increase, except across a seek. */
  predicate Strict(ops: seq<Op>) {
    forall i, j :: 0 <= i < j < |ops| && ops[i].Put? && ops[j].Put? && NoClear(ops, i, j) ==>
      ops[i].change.time < ops[j].change.time
  }

  /** A lookup gives the bitrate that was added last at or before that time since the seek. */
  lemma {:induction false} AnswersTheLast(ops: seq<Op>, k: nat, t: int)
    requires Strict(ops) && k < |ops| && ops[k].Put? && ops[k].change.time <= t && NoClear(ops, k, |ops|)
    requires forall j :: k < j < |ops| && ops[j].Put? ==> t < ops[j].change.time
    ensures BitrateAt(HistoryOf(ops), t) == ops[k].change.bitrate
    ensures HistoryOf(ops) != []
  {
    var n := |ops| - 1;
    var before := ops[..n];
    var h := HistoryOf(before);
    if k == n {
      HistoryBefore(ops, n, ops[n].change.time - 1);
      AddedAnswers(h, ops[n].change, t);
    } else {
      StrictBefore(ops, n);
      assert NoClear(before, k, n);
      AnswersTheLast(before, k, t);
      if ops[n].Put? { AddedLater(h, ops[n].change, t); }
    }
  }

  lemma StrictBefore(ops: seq<Op>, n: nat)
    requires Strict(ops) && n <= |ops|
    ensures Strict(ops[..n])
  {
    forall i, j | 0 <= i < j < n && ops[i].Put? && ops[j].Put? && NoClear(ops[..n], i, j)
      ensures ops[i].change.time < ops[j].change.time
    {
      assert forall k :: i <= k < j ==> ops[..n][k] == ops[k];
      assert NoClear(ops, i, j);
    }
  }

  lemma AddedAnswers(h: seq<Change>, c: Change, t: int)
    requires c.time <= t && (h != [] ==> h[|h| - 1].time < c.time)
    ensures BitrateAt(Added(h, c), t) == c.bitrate && Added(h, c) != []
  {}

  lemma AddedLater(h: seq<Change>, c: Change, t: int)
    requires h != [] && t < c.time
    ensures BitrateAt(Added(h, c), t) == BitrateAt(h, t) && Added(h, c) != []
  {
    assert (h + [c])[..|h|] == h;
  }

  /** Before the first addition since the seek, a lookup gives the bitrate added first. */
  lemma {:induction false} AnswersTheFirst(ops: seq<Op>, k: nat, t: int)
    requires k < |ops| && ops[k].Put? && NoClear(ops, k, |ops|)
    requires forall j :: k <= j < |ops| && ops[j].Put? ==> t < ops[j].change.time
    requires forall j :: 0 <= j < k && NoClear(ops, j, k) ==> !ops[j].Put?
    ensures BitrateAt(HistoryOf(ops), t) == ops[k].change.bitrate
    ensures HistoryOf(ops) != []
  {
    var n := |ops| - 1;
    if k == n {
      NothingYet(ops, n);
      assert LastBy([ops[n].change], t) == -1;
    } else {
      assert NoClear(ops[..n], k, n);
      forall j | 0 <= j < k && NoClear(ops[..n], j, k) ensures !ops[..n][j].Put? {
        assert forall i :: j <= i < k ==> ops[..n][i] == ops[i];
        assert NoClear(ops, j, k);
      }
      AnswersTheFirst(ops[..n], k, t);
      if ops[n].Put? { AddedLater(HistoryOf(ops[..n]), ops[n].change, t); }
    }
  }

  lemma {:induction false} NothingYet(ops: seq<Op>, i: nat)
    requires i <= |ops| && forall j :: 0 <= j < i && NoClear(ops, j, i) ==> !ops[j].Put?
    ensures HistoryOf(ops[..i]) == []
  {
    if i > 0 {
      assert ops[..i][..i - 1] == ops[..i - 1];
      if !ops[i - 1].Clear? {
        assert NoClear(ops, i - 1, i);
        forall j | 0 <= j < i - 1 && NoClear(ops, j, i - 1) ensures !ops[j].Put? {
          assert NoClear(ops, j, i);
        }
        NothingYet(ops, i - 1);
      }
    }
  }

  /** Over every run, the pruned list answers every lookup as the full history does. */
  method Replay(ops: seq<Op>) returns (answers: seq<int>)
    requires InOrder(ops)
    ensures answers == Answers(ops)
    ensures Regular(HistoryOf(ops))
  {
    var list := new BitrateList();
    answers := [];
    for i := 0 to |ops|
      invariant list.Valid() && fresh(list) && fresh(list.spine)
      invariant list.history == HistoryOf(ops[..i]) && answers == Answers(ops[..i])
      invariant list.AskedBefore(ops, i)
    {
      var more := Step(list, ops, i);
      answers := answers + more;
    }
    assert ops[..|ops|] == ops;
  }

  method Step(list: BitrateList, ops: seq<Op>, i: nat) returns (answers: seq<int>)
    requires InOrder(ops) && i < |ops| && list.Valid()
    requires list.history == HistoryOf(ops[..i]) && list.AskedBefore(ops, i)
    modifies list, list.spine
    ensures list.Valid() && list.history == HistoryOf(ops[..i + 1]) && list.AskedBefore(ops, i + 1)
    ensures Answers(ops[..i + 1]) == Answers(ops[..i]) + answers
    ensures forall k :: 0 <= k < |list.spine| ==> list.spine[k] in old(list.spine) || fresh(list.spine[k])
  {
    hide Remains, Regular, LastBy, BitrateAt, Added, BitrateList.Linked, InOrder;
    answers := [];
    assert ops[..i + 1][..i] == ops[..i];
    if ops[i].Put? {
      NoClearLater(ops, i);
      AddNext(list, ops, i);
    } else if ops[i].Ask? {
      var b := AskNext(list, ops, i);
      answers := [b];
    } else {
      list.Empty();
    }
  }

  lemma NoClearLater(ops: seq<Op>, i: nat)
    requires i < |ops| && !ops[i].Clear?
    ensures forall j :: i < j <= |ops| && NoClear(ops, i + 1, j) ==> NoClear(ops, i, j)
  {}

  method AskNext(list: BitrateList, ops: seq<Op>, i: nat) returns (b: int)
    requires InOrder(ops) && i < |ops| && ops[i].Ask? && list.Valid() && list.AskedBefore(ops, i)
    modifies list
    ensures list.Valid() && list.history == old(list.history) && list.AskedBefore(ops, i + 1)
    ensures b == BitrateAt(list.history, ops[i].time)
    ensures forall k :: 0 <= k < |list.spine| ==> list.spine[k] in old(list.spine)
  {
    hide Remains, Regular, LastBy, BitrateAt, BitrateList.Linked;
    assert NoClear(ops, i, i);
    NoClearLater(ops, i);
    b := list.Get(ops[i].time);
  }

  method AddNext(list: BitrateList, ops: seq<Op>, i: nat)
    requires InOrder(ops) && i < |ops| && ops[i].Put? && list.Valid() && list.history == HistoryOf(ops[..i])
    modifies list, list.spine
    ensures list.Valid() && list.history == Added(old(list.history), ops[i].change) && list.asked == old(list.asked)
    ensures |list.history| - |list.spine| == old(|list.history| - |list.spine|)
    ensures forall k :: 0 <= k < |list.spine| ==> list.spine[k] in old(list.spine) || fresh(list.spine[k])
  {
    HistoryBefore(ops, i, ops[i].change.time);
    LastKept(ChangesOf(list.spine), list.history, list.asked);
    hide Remains, Regular, HistoryOf, InOrder, Added;
    list.Add(ops[i].change.time, ops[i].change.bitrate);
  }
}
