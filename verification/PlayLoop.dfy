/** `audio.c`: the player, which keeps three lists and decides what is played next. */
module PlayLoop {
  import opened Basics
  import opened PlaylistSpec
  import opened PlaylistIndex
  import opened RbShape
  import opened RbTrees
  import opened Playlists
  import opened PlayOrder

  datatype Options = Options(autoNext: bool, repeat: bool, shuffle: bool, queueNextSongReturn: bool)

  /** What the user asks for while a file is played. */
  datatype Request = Nothing | Next | Previous | Stop

  /** What is asked for while the n-th file is played. */
  function RequestAt(requests: seq<Request>, n: nat): Request {
    if n < |requests| then requests[n] else Nothing
  }

  /** The run goes on to the next file. */
  predicate GoesOn(o: Options, r: Request) {
    r.Next? || (r.Nothing? && o.autoNext)
  }

  /** The file at which a run comes to its end before the end of the programme: because the
      user stops it, or because nothing makes it go on. */
  datatype Halt = Halt(at: nat, stopped: bool)

  function HaltOf(o: Options, requests: seq<Request>, n: nat): (h: Option<Halt>)
    ensures h.Some? ==> h.value.at >= n
    decreases |requests| - n
  {
    if n >= |requests| then (if o.autoNext then None else Some(Halt(n, false)))
    else if GoesOn(o, requests[n]) then HaltOf(o, requests, n + 1)
    else Some(Halt(n, requests[n].Stop?))
  }

  /** The run goes on at each file before the one at which it halts. */
  lemma HaltIs(o: Options, requests: seq<Request>, n: nat)
    requires Previous !in requests
    requires var h := HaltOf(o, requests, 0); h.Some? ==> n <= h.value.at
    ensures var h, r := HaltOf(o, requests, 0), RequestAt(requests, n);
      && !r.Previous?
      && (h.Some? && n == h.value.at <==> !GoesOn(o, r))
      && (h.Some? && n == h.value.at ==> h.value.stopped == r.Stop?)
  {
    HaltFrom(o, requests, 0, n);
    if n < |requests| { assert requests[n] in requests; }
  }

  lemma {:induction false} HaltFrom(o: Options, requests: seq<Request>, m: nat, n: nat)
    requires m <= n && var h := HaltOf(o, requests, m); h.Some? ==> n <= h.value.at
    ensures var h, r := HaltOf(o, requests, m), RequestAt(requests, n);
      && (h.Some? && n == h.value.at <==> !GoesOn(o, r))
      && (h.Some? && n == h.value.at ==> h.value.stopped == r.Stop?)
    decreases |requests| - m
  {
    if m < |requests| && m < n && GoesOn(o, requests[m]) { HaltFrom(o, requests, m + 1, n); }
  }

  /** What a run starts from. */
  datatype Start = Start(file: string, before: Option<string>, started: bool, queued: seq<string>, shuffled: seq<Item>)

  /** Random slots below n. */
  method RandomSlots(n: nat) returns (picks: seq<nat>)
    ensures |picks| == n && forall k :: 0 <= k < n ==> picks[k] < n
  {
    picks := [];
    while |picks| < n
      invariant |picks| <= n && forall k :: 0 <= k < |picks| ==> picks[k] < n
    {
      var k: nat :| k < n;
      picks := picks + [k];
    }
  }

  /** The variables of `audio.c` that decide what is played. */
  class Player {
    const queue: PList
    const playlist: PList
    const shuffled: PList
    var currPlist: PList
    var currPlaying: int
    var currFname: Option<string>
    var beforeQueue: Option<string>
    var startedInQueue: bool

    ghost predicate Lists()
      reads queue, queue.tree, queue.tree.repr, queue.tree.nil
      reads playlist, playlist.tree, playlist.tree.repr, playlist.tree.nil
      reads shuffled, shuffled.tree, shuffled.tree.repr, shuffled.tree.nil
    {
      && queue.Valid() && playlist.Valid() && shuffled.Valid()
      && Apart(queue, playlist) && Apart(shuffled, playlist) && Apart(shuffled, queue)
    }

    /** The shuffled list is empty or in step with the playlist. */
    ghost predicate Valid()
      reads this, queue, queue.tree, queue.tree.repr, queue.tree.nil
      reads playlist, playlist.tree, playlist.tree.repr, playlist.tree.nil
      reads shuffled, shuffled.tree, shuffled.tree.repr, shuffled.tree.nil
    {
      && Lists() && queue != playlist && queue != shuffled && playlist != shuffled
      && AllNamed(queue.items) && AllNamed(playlist.items) && AllNamed(shuffled.items)
      && (shuffled.items == [] || InStep(playlist.items, shuffled.items))
      && (currPlist == queue || currPlist == playlist || currPlist == shuffled) && currPlaying >= -1
    }

    constructor (queue: PList, playlist: PList, shuffled: PList)
      requires queue.Valid() && playlist.Valid() && shuffled.Valid() && shuffled.items == []
      requires Apart(queue, playlist) && Apart(shuffled, playlist) && Apart(shuffled, queue)
      requires AllNamed(queue.items) && AllNamed(playlist.items)
      ensures Valid() && this.queue == queue && this.playlist == playlist && this.shuffled == shuffled
      ensures currPlaying == -1 && beforeQueue.None? && !startedInQueue
    {
      this.queue, this.playlist, this.shuffled, currPlist := queue, playlist, shuffled, playlist;
      currPlaying, currFname, beforeQueue, startedInQueue := -1, None, None, false;
    }

    /** The list that is played when the queue is used up. */
    function Order(o: Options): PList {
      if o.shuffle then shuffled else playlist
    }

    /** `plist_get_file` of the current item. */
    function CurrentFile(): Option<string>
      reads this, currPlist
    {
      if 0 <= currPlaying < |currPlist.items| then currPlist.items[currPlaying].file else None
    }

    // ----- changing the lists

    /** `plist_clear` of the shuffled list. */
    method ClearShuffled()
      requires Lists()
      modifies shuffled, shuffled.tree
      ensures Lists() && shuffled.items == [] && shuffled.tree.repr == {}
    {
      hide PList.Valid, RbTree.Valid, Collation;
      CanClear(shuffled);
      shuffled.Clear();
      NilIsBlack(shuffled);
      StillValid(playlist);
      StillValid(queue);
    }

    /** `audio_plist_add`: the shuffled list is emptied. */
    method PlistAdd(file: string, kind: FileType, mtime: int)
      requires Valid()
      modifies playlist, playlist.tree, playlist.tree.repr, playlist.tree.nil`color, shuffled, shuffled.tree
      ensures Valid() && shuffled.items == []
      ensures playlist.items ==
        old(playlist.items) + if Scan(old(playlist.items), file) == -1 then [Fresh(file, kind, mtime)] else []
      ensures fresh(playlist.tree.repr - old(playlist.tree.repr))
    {
      hide PList.Index, Total, InStep, LiveNames;
      ClearShuffled();
      label Cleared:
      var found := playlist.FindFname(file);
      if found == -1 {
        var _ := playlist.Add(Some(file), kind, mtime);
        NilIsBlack(playlist);
        StillValid@Cleared(shuffled);
        StillValid@Cleared(queue);
      }
    }

    /** `audio_plist_delete`: from both lists. */
    method PlistDelete(file: string)
      requires Valid()
      modifies playlist, shuffled
      ensures Valid()
      ensures var i := Scan(old(playlist.items), file);
        playlist.items ==
          if i == -1 then old(playlist.items) else old(playlist.items)[i := Erased(old(playlist.items)[i])]
    {
      hide Player.Lists, InStep, LiveNames, Erased, AllNamed, Scan;
      DeletedInStep(playlist.items, shuffled.items, file);
      DeleteBoth(file);
    }

    method DeleteBoth(file: string)
      requires Lists()
      modifies playlist, shuffled
      ensures Lists()
      ensures var i := Scan(old(playlist.items), file);
        playlist.items ==
          if i == -1 then old(playlist.items) else old(playlist.items)[i := Erased(old(playlist.items)[i])]
      ensures var k := Scan(old(shuffled.items), file);
        shuffled.items ==
          if k == -1 then old(shuffled.items) else old(shuffled.items)[k := Erased(old(shuffled.items)[k])]
    {
      hide PList.Valid, Erased, Scan;
      DeleteFrom(playlist, file);
      DeleteFrom(shuffled, file);
    }

    method DeleteFrom(list: PList, file: string)
      requires list.Valid()
      modifies list
      ensures list.Valid()
      ensures var i := Scan(old(list.items), file);
        list.items == if i == -1 then old(list.items) else old(list.items)[i := Erased(old(list.items)[i])]
    {
      hide PList.Index, PList.Caches, Erased;
      var num := list.FindFname(file);
      if num != -1 {
        list.Delete(num);
      }
    }

    /** `audio_plist_clear`. */
    method PlistClear()
      requires Valid()
      modifies playlist, playlist.tree, shuffled, shuffled.tree
      ensures Valid() && playlist.items == [] && shuffled.items == []
    {
      hide Player.Lists, InStep, LiveNames;
      ClearShuffled();
      ClearPlaylist();
    }

    method ClearPlaylist()
      requires Lists()
      modifies playlist, playlist.tree
      ensures Lists() && playlist.items == []
    {
      hide PList.Valid, RbTree.Valid, Collation;
      CanClear(playlist);
      playlist.Clear();
      NilIsBlack(playlist);
      StillValid(shuffled);
      StillValid(queue);
    }

    /** `audio_queue_add`. */
    method QueueAdd(file: string, kind: FileType, mtime: int)
      requires Valid()
      modifies queue, queue.tree, queue.tree.repr, queue.tree.nil`color
      ensures Valid()
      ensures queue.items ==
        old(queue.items) + if Scan(old(queue.items), file) == -1 then [Fresh(file, kind, mtime)] else []
      ensures fresh(queue.tree.repr - old(queue.tree.repr))
    {
      hide PList.Index, Total, InStep, LiveNames;
      var found := queue.FindFname(file);
      if found == -1 {
        var _ := queue.Add(Some(file), kind, mtime);
        NilIsBlack(queue);
        StillValid(shuffled);
        StillValid(playlist);
      }
    }

    // ----- the shuffled list

    /** `plist_cat` and `plist_shuffle` on the empty shuffled list. */
    method Fill()
      requires Lists() && AllNamed(playlist.items) && shuffled.items == []
      modifies shuffled, shuffled.tree, shuffled.tree.repr, shuffled.tree.nil`color
      ensures Lists() && Mixed(playlist.items, shuffled.items)
      ensures fresh(shuffled.tree.repr - old(shuffled.tree.repr))
    {
      hide PList.Valid, Shuffled, Concatenated, LiveItems, FindsLive, LiveNames, DistinctNames, Mixed;
      CopiedLive(playlist);
      shuffled.Cat(playlist);
      ghost var copy := shuffled.items;
      var picks := RandomSlots(|shuffled.items|);
      shuffled.Shuffle(picks);
      PermutedNames(copy, shuffled.items);
      ShuffledMixed(playlist.items, shuffled.items);
      NilIsBlack(shuffled);
      StillValid(playlist);
      StillValid(queue);
    }

    /** `plist_swap_first_fname` on a freshly shuffled list. */
    method Lead(first: string)
      requires Lists() && Mixed(playlist.items, shuffled.items)
      modifies shuffled, shuffled.tree, shuffled.tree.repr, shuffled.tree.nil`color
      ensures Lists() && Mixed(playlist.items, shuffled.items) && Leads(shuffled.items, first)
      ensures fresh(shuffled.tree.repr - old(shuffled.tree.repr))
    {
      hide PList.Valid, Swapped, Mixed, Scan, Leads, DistinctNames, AllNamed;
      SwappedMixed(playlist.items, shuffled.items, first);
      var aborted := shuffled.SwapFirstFname(first);
      NilIsBlack(shuffled);
      StillValid(playlist);
      StillValid(queue);
    }

    /** The shuffled list was filled anew, if it was empty and is needed; the file `first`
        then leads it. */
    ghost predicate Refilled(o: Options, was: seq<Item>, first: string)
      reads this, playlist, shuffled
      requires AllNamed(was) && AllNamed(playlist.items)
    {
      if o.shuffle && LiveNames(was) == [] && LiveNames(playlist.items) != []
      then Mixed(playlist.items, shuffled.items) && Leads(shuffled.items, first)
      else shuffled.items == was
    }

    /** The choice of the list in `go_to_another_file`. */
    method ChooseList(o: Options)
      requires Valid() && currFname.Some?
      modifies this`currPlist, shuffled, shuffled.tree, shuffled.tree.repr, shuffled.tree.nil`color
      ensures Valid() && currPlist == Order(o) && Refilled(o, old(shuffled.items), currFname.value)
      ensures fresh(shuffled.tree.repr - old(shuffled.tree.repr))
    {
      hide PList.Index, LiveNames, Total, Leads, Scan, DistinctNames;
      CountIsLive(playlist.items);
      CountIsLive(shuffled.items);
      if o.shuffle {
        currPlist := shuffled;
        if playlist.notDeleted != 0 && shuffled.notDeleted == 0 {
          if shuffled.items != [] { InStepEmpty(playlist.items, shuffled.items); }
          Fill();
          Lead(currFname.value);
        }
      } else {
        currPlist := playlist;
      }
    }

    // ----- moving on

    /** Takes the first file of the queue. */
    method PopQueue()
      requires Valid() && LiveNames(queue.items) != []
      modifies this`currPlist, this`currPlaying, queue
      ensures Valid() && currPlist == queue && currPlaying >= 0
      ensures CurrentFile() == Some(old(LiveNames(queue.items))[0])
      ensures LiveNames(queue.items) == old(LiveNames(queue.items))[1..]
    {
      hide LiveNames, PList.Valid;
      currPlist := queue;
      currPlaying := queue.Next(-1);
      assert queue.items[0..] == queue.items;
      LiveFrom(queue.items, 0, currPlaying);
      LiveNamesPopped(queue.items, currPlaying);
      hide Erased;
      queue.Delete(currPlaying);
    }

    /** Where the list stands after the queue: at the current file, or at the file played
        before the queue. */
    method FindPosition(o: Options) returns (pos: int)
      requires Valid() && currFname.Some?
      modifies this`currPlist, this`currFname, this`beforeQueue
      modifies shuffled, shuffled.tree, shuffled.tree.repr, shuffled.tree.nil`color
      ensures Valid() && currPlist == Order(o) && currFname.Some?
      ensures Refilled(o, old(shuffled.items), Anchor(old(currFname).value, old(beforeQueue), o.queueNextSongReturn))
      ensures pos == Position(Order(o).items, old(currFname).value, old(beforeQueue), o.queueNextSongReturn)
      ensures fresh(shuffled.tree.repr - old(shuffled.tree.repr))
    {
      hide PList.Index, PList.Caches, LiveNames, Player.Refilled, AllNamed, InStep;
      if beforeQueue.Some? && o.queueNextSongReturn {
        currFname := beforeQueue;
        beforeQueue := None;
      }
      ChooseList(o);
      pos := currPlist.FindFname(currFname.value);
      if pos == -1 && beforeQueue.Some? {
        pos := currPlist.FindFname(beforeQueue.value);
      }
    }

    /** `plist_clear`, `plist_cat` and `plist_shuffle`. */
    method Reshuffle()
      requires Lists() && AllNamed(playlist.items)
      modifies shuffled, shuffled.tree, shuffled.tree.repr, shuffled.tree.nil`color
      ensures Lists() && Mixed(playlist.items, shuffled.items)
      ensures fresh(shuffled.tree.repr - old(shuffled.tree.repr))
    {
      hide Mixed, AllNamed, PList.Valid;
      ClearShuffled();
      Fill();
    }

    /** The step forward, from position `pos` of the list `was`: to the next live slot; when
        repeating, the first one follows the last, and a shuffled list is mixed again. */
    ghost predicate Forward(o: Options, was: seq<Item>, pos: int)
      reads this`currPlaying, playlist, shuffled
    {
      && pos >= -1
      && if o.repeat && FirstFrom(was, pos + 1, -1)
         then
           && FirstFrom(Order(o).items, 0, currPlaying)
           && if o.shuffle then Mixed(playlist.items, shuffled.items) else Order(o).items == was
         else Order(o).items == was && FirstFrom(was, pos + 1, currPlaying)
    }

    method StepForward(pos: int, o: Options)
      requires Valid() && -1 <= pos < |Order(o).items| && currPlist == Order(o)
      modifies this`currPlaying, this`startedInQueue
      modifies shuffled, shuffled.tree, shuffled.tree.repr, shuffled.tree.nil`color
      ensures Valid() && !startedInQueue && (!o.shuffle ==> shuffled.items == old(shuffled.items))
      ensures Forward(o, old(Order(o).items), if old(startedInQueue) then -1 else pos)
      ensures fresh(shuffled.tree.repr - old(shuffled.tree.repr))
    {
      hide Player.Lists, LiveNames, Mixed, AllNamed, FirstFrom, InStep;
      var from := if pos == -1 || startedInQueue then -1 else pos;
      startedInQueue := false;
      currPlaying := currPlist.Next(from);
      if currPlaying == -1 && o.repeat {
        Wrap(o);
      } else if currPlaying != -1 {
        OneFirst(currPlist.items, from + 1, currPlaying);
      }
    }

    /** Going back to the first item. */
    method Wrap(o: Options)
      requires Valid() && currPlist == Order(o)
      modifies this`currPlaying, shuffled, shuffled.tree, shuffled.tree.repr, shuffled.tree.nil`color
      ensures Valid() && FirstFrom(Order(o).items, 0, currPlaying)
      ensures if o.shuffle then Mixed(playlist.items, shuffled.items) else shuffled.items == old(shuffled.items)
      ensures fresh(shuffled.tree.repr - old(shuffled.tree.repr))
    {
      hide Player.Lists, LiveNames, Mixed, AllNamed, FirstFrom, InStep, Player.Valid;
      if o.shuffle {
        Remix();
      }
      var first := currPlist.Next(-1);
      SetPlaying(first);
    }

    method SetPlaying(k: int)
      requires Valid() && k >= -1
      modifies this`currPlaying
      ensures Valid() && currPlaying == k
    {
      hide Player.Lists, LiveNames, AllNamed, InStep;
      currPlaying := k;
    }

    method Remix()
      requires Valid()
      modifies shuffled, shuffled.tree, shuffled.tree.repr, shuffled.tree.nil`color
      ensures Valid() && Mixed(playlist.items, shuffled.items)
      ensures fresh(shuffled.tree.repr - old(shuffled.tree.repr))
    {
      hide Player.Lists, LiveNames, Mixed, AllNamed, InStep;
      Reshuffle();
      MixedInStep(playlist.items, shuffled.items);
    }

    /** `plist_prev` of -1 is -1, so after the queue there is no previous file. */
    method StepBack(pos: int, repeat: bool)
      requires Valid() && LiveNames(currPlist.items) != [] && -1 <= pos < |currPlist.items|
      modifies this`currPlaying, this`startedInQueue
      ensures Valid() && !startedInQueue
      ensures Backward(currPlist.items, if old(startedInQueue) then -1 else pos, repeat, currPlaying)
    {
      hide Player.Lists, LiveNames, AllNamed, InStep, Backward;
      currPlaying := BackFrom(currPlist, if pos == -1 || startedInQueue then -1 else pos, repeat);
      startedInQueue := false;
    }

    method BackFrom(list: PList, pos: int, repeat: bool) returns (k: int)
      requires AllNamed(list.items) && LiveNames(list.items) != [] && -1 <= pos < |list.items|
      ensures k >= -1 && Backward(list.items, pos, repeat, k)
    {
      hide LiveNames, AllNamed, LastBelow;
      k := list.Prev(pos);
      if k == -1 && repeat {
        SomeLive(list.items);
        k := list.Last();
      } else if k != -1 {
        OneLast(list.items, pos, k);
      }
    }

    /** The outcome of `go_to_another_file` in the list `was`, from position `pos`. */
    ghost predicate Moved(o: Options, r: Request, was: seq<Item>, pos: int, playing: int, started: bool)
      reads this`currPlaying, this`startedInQueue, playlist, shuffled
      requires AllNamed(was)
    {
      var pos' := if started then -1 else pos;
      if LiveNames(was) == [] || !(r.Previous? || r.Next? || o.autoNext) then
        currPlaying == (if o.repeat then playing else -1) && startedInQueue == started && Order(o).items == was
      else
        && !startedInQueue
        && if r.Previous? then Backward(was, pos', o.repeat, currPlaying) && Order(o).items == was
           else Forward(o, was, pos')
    }

    /** With Repeat on a run over a list that is not empty does not come to an end by itself. */
    lemma RepeatGoesOn(o: Options, r: Request, was: seq<Item>, pos: int, playing: int, started: bool)
      requires AllNamed(was) && AllNamed(playlist.items) && AllNamed(Order(o).items)
      requires o.repeat && GoesOn(o, r) && LiveNames(was) != [] && LiveNames(playlist.items) != []
      requires Moved(o, r, was, pos, playing, started)
      ensures currPlaying != -1
    {
      SomeLive(was);
      if o.shuffle && Mixed(playlist.items, shuffled.items) { InStepEmpty(playlist.items, shuffled.items); }
      if LiveNames(Order(o).items) != [] { SomeLive(Order(o).items); }
    }

    /** With the queue used up, a request for the previous file goes back from the entry that
        is played, and without it the run goes forward from there. */
    lemma WentFrom(o: Options, r: Request, was: seq<Item>, k: nat, queued: seq<string>, shuffledWas: seq<Item>)
      requires AllNamed(was) && AllNamed(shuffledWas) && AllNamed(queue.items) && AllNamed(playlist.items)
      requires AllNamed(Order(o).items) && k < |was| && !was[k].deleted && Scan(was, was[k].file.value) == k
      requires queued == [] || !(r.Next? || o.autoNext)
      requires Went(o, r, was, was[k].file.value, None, false, k, queued, shuffledWas)
      ensures r.Previous? ==> Order(o).items == was && Backward(was, k, o.repeat, currPlaying)
      ensures GoesOn(o, r) && !(o.repeat && LiveNames(was[k + 1..]) == []) ==>
        Order(o).items == was && FirstFrom(was, k + 1, currPlaying)
      ensures GoesOn(o, r) && o.repeat && LiveNames(was[k + 1..]) == [] ==>
        && FirstFrom(Order(o).items, 0, currPlaying)
        && if o.shuffle then Mixed(playlist.items, shuffled.items) else Order(o).items == was
      ensures !r.Previous? && !GoesOn(o, r) && !r.Stop? ==> currPlaying == if o.repeat then k else -1
    {
      hide LiveNames, FirstFrom, Backward, Mixed, Leads;
      LiveSome(was, k);
      if FirstFrom(was, k + 1, -1) {
        LiveFrom(was, k + 1, -1);
      } else if LiveNames(was[k + 1..]) == [] {
        NoneAfter(was, k + 1);
      }
    }

    lemma NoneAfter(s: seq<Item>, from: nat)
      requires AllNamed(s) && from <= |s| && LiveNames(s[from..]) == []
      ensures FirstFrom(s, from, -1)
    {
      NoneLive(s[from..]);
      assert forall j :: from <= j < |s| ==> s[j] == s[from..][j - from];
    }

    /** The part of `go_to_another_file` for an empty queue; `was` is the list before a
        repetition mixes it again. */
    method ContinueList(o: Options, r: Request) returns (ghost was: seq<Item>)
      requires Valid() && currFname.Some?
      modifies this, shuffled, shuffled.tree, shuffled.tree.repr, shuffled.tree.nil`color
      ensures Valid() && currPlist == Order(o) && beforeQueue.None?
      ensures !o.shuffle ==> shuffled.items == old(shuffled.items)
      ensures AllNamed(was)
      ensures Chosen(o, old(shuffled.items), Anchor(old(currFname).value, old(beforeQueue), o.queueNextSongReturn), was)
      ensures Moved(o, r, was, Position(was, old(currFname).value, old(beforeQueue), o.queueNextSongReturn),
        old(currPlaying), old(startedInQueue))
      ensures fresh(shuffled.tree.repr - old(shuffled.tree.repr))
    {
      hide LiveNames, Player.Lists, Position, Player.Forward, Backward, AllNamed, InStep, Mixed, Leads;
      var pos := FindPosition(o);
      was := currPlist.items;
      Counted();
      if r.Previous? && currPlist.notDeleted != 0 {
        StepBack(pos, o.repeat);
      } else if (r.Next? || o.autoNext) && currPlist.notDeleted != 0 {
        StepForward(pos, o);
      } else if !o.repeat {
        currPlaying := -1;
      }
      beforeQueue := None;
    }

    /** The cached count of the current list is that of its names. */
    lemma Counted()
      requires Valid()
      ensures AllNamed(currPlist.items) && currPlist.notDeleted == |LiveNames(currPlist.items)|
    {
      hide PList.Index, Total, LiveNames;
      CountIsLive(currPlist.items);
    }

    /** `was` is the list that is played on: the playlist, or the shuffled list, filled anew
        if it was empty. */
    ghost predicate Chosen(o: Options, shuffledWas: seq<Item>, first: string, was: seq<Item>)
      reads this, playlist
      requires AllNamed(shuffledWas) && AllNamed(playlist.items)
    {
      if !o.shuffle then was == playlist.items
      else if LiveNames(shuffledWas) == [] && LiveNames(playlist.items) != []
      then Mixed(playlist.items, was) && Leads(was, first)
      else was == shuffledWas
    }

    /** The outcome of `go_to_another_file`, given what was played and what the lists were. */
    ghost predicate Went(o: Options, r: Request, was: seq<Item>, last: string, before: Option<string>, started: bool,
                         playing: int, queued: seq<string>, shuffledWas: seq<Item>)
      reads this, queue, playlist, shuffled, currPlist
      requires AllNamed(was) && AllNamed(shuffledWas) && AllNamed(queue.items) && AllNamed(playlist.items)
    {
      if queued != [] && (r.Next? || o.autoNext) then
        && currPlist == queue && currPlaying >= 0 && CurrentFile() == Some(queued[0])
        && LiveNames(queue.items) == queued[1..]
        && beforeQueue == (if before.Some? then before else Some(last))
        && startedInQueue == started && shuffled.items == shuffledWas
      else
        && currPlist == Order(o) && beforeQueue.None? && LiveNames(queue.items) == queued
        && Chosen(o, shuffledWas, Anchor(last, before, o.queueNextSongReturn), was)
        && (!o.shuffle ==> shuffled.items == shuffledWas)
        && Moved(o, r, was, Position(was, last, before, o.queueNextSongReturn), playing, started)
    }

    /** `go_to_another_file`; `r` is what the user asked for. */
    method GoToAnotherFile(o: Options, r: Request) returns (ghost was: seq<Item>)
      requires Valid() && currFname.Some?
      modifies this, queue, shuffled, shuffled.tree, shuffled.tree.repr, shuffled.tree.nil`color
      ensures Valid() && AllNamed(was)
      ensures Went(o, r, was, old(currFname).value, old(beforeQueue), old(startedInQueue), old(currPlaying),
        old(LiveNames(queue.items)), old(shuffled.items))
      ensures fresh(shuffled.tree.repr - old(shuffled.tree.repr))
    {
      hide LiveNames, PList.Index, Position, Total, Player.Moved, Player.Chosen, InStep;
      was := [];
      CountIsLive(queue.items);
      if queue.notDeleted != 0 && (r.Next? || o.autoNext) {
        if beforeQueue.None? && currFname.Some? {
          beforeQueue := currFname;
        }
        PopQueue();
      } else {
        was := ContinueList(o, r);
      }
    }

    // ----- the loop

    /** One turn of the loop of `play_thread`: plays the current file and goes on, unless the
        user stops it. */
    method PlayOne(o: Options, r: Request) returns (file: Option<string>, ghost was: seq<Item>)
      requires Valid() && currPlaying != -1 && (CurrentFile().Some? || currFname.Some?)
      modifies this, queue, shuffled, shuffled.tree, shuffled.tree.repr, shuffled.tree.nil`color
      ensures Valid() && file == old(CurrentFile()) && AllNamed(was)
      ensures r.Stop? ==>
        && currPlaying == -1 && currPlist == old(currPlist) && queue.items == old(queue.items)
        && beforeQueue == old(beforeQueue) && startedInQueue == old(startedInQueue)
        && shuffled.items == old(shuffled.items)
      ensures !r.Stop? ==>
        Went(o, r, was, (if file.Some? then file else old(currFname)).value, old(beforeQueue), old(startedInQueue),
          old(currPlaying), old(LiveNames(queue.items)), old(shuffled.items))
      ensures fresh(shuffled.tree.repr - old(shuffled.tree.repr))
    {
      hide LiveNames, Player.Lists, Player.Went, InStep;
      was := [];
      file := CurrentFile();
      if file.Some? {
        currFname := file;
      }
      if r.Stop? {
        currPlaying := -1;
      } else {
        was := GoToAnotherFile(o, r);
      }
    }

    /** All that a run plays that starts so, given the list it comes to in the end. */
    ghost function Whole(o: Options, st: Start): seq<string>
      reads playlist, shuffled
      requires AllNamed(Order(o).items)
    {
      Programme(Order(o).items, o.queueNextSongReturn, st.file, st.before, st.started, st.queued)
    }

    /** The lists of a run: nothing but the shuffled list changes, which may be filled. */
    ghost predicate SameOrder(o: Options, st: Start)
      reads playlist, shuffled
      requires AllNamed(playlist.items) && AllNamed(st.shuffled)
    {
      || shuffled.items == st.shuffled
      || (o.shuffle && LiveNames(st.shuffled) == [] && Mixed(playlist.items, shuffled.items))
    }

    /** In the queue, with n files behind: those and the current one are the first of the
        programme. */
    ghost predicate InQueue(st: Start, played: seq<string>)
      reads this, queue, shuffled, currPlist
      requires AllNamed(queue.items)
    {
      var n, first := |played|, [st.file] + st.queued;
      && n <= |st.queued| && played == first[..n] && CurrentFile() == Some(first[n])
      && LiveNames(queue.items) == st.queued[n..]
      && beforeQueue == BeforeAt(st.before, st.file, n) && startedInQueue == st.started
      && shuffled.items == st.shuffled
    }

    /** In the list: what was played, the current entry and the live entries after it are
        the programme. */
    ghost predicate InList(o: Options, st: Start, played: seq<string>)
      reads this, queue, playlist, shuffled, currPlist
      requires AllNamed(queue.items) && AllNamed(Order(o).items) && AllNamed(playlist.items) && AllNamed(st.shuffled)
    {
      && |played| > |st.queued| && LiveNames(queue.items) == []
      && currPlist == Order(o) && 0 <= currPlaying < |currPlist.items| && !currPlist.items[currPlaying].deleted
      && beforeQueue.None? && !startedInQueue && SameOrder(o, st)
      && played + ([currPlist.items[currPlaying].file.value] + LiveNames(currPlist.items[currPlaying + 1..])) ==
        Whole(o, st)
    }

    ghost predicate Ended(o: Options, st: Start, played: seq<string>)
      reads this`currPlaying, this`beforeQueue, this`startedInQueue, queue, playlist, shuffled
      requires AllNamed(queue.items) && AllNamed(Order(o).items) && AllNamed(playlist.items) && AllNamed(st.shuffled)
    {
      && currPlaying == -1 && LiveNames(queue.items) == [] && beforeQueue.None? && SameOrder(o, st)
      && (startedInQueue ==> LiveNames(Order(o).items) == [])
      && (LiveNames(playlist.items) != [] ==> LiveNames(Order(o).items) != [])
      && played == Whole(o, st)
    }

    // ----- what a turn does to the run

    /** The next file in the queue. */
    lemma QueueToQueue(o: Options, r: Request, st: Start, played: seq<string>, was: seq<Item>, playing: int)
      requires AllNamed(was) && AllNamed(st.shuffled) && AllNamed(queue.items) && AllNamed(playlist.items)
      requires GoesOn(o, r) && |played| < |st.queued| && played == ([st.file] + st.queued)[..|played|]
      requires Went(o, r, was, ([st.file] + st.queued)[|played|], BeforeAt(st.before, st.file, |played|), st.started,
                 playing, st.queued[|played|..], st.shuffled)
      ensures currPlaying != -1 && InQueue(st, played + [([st.file] + st.queued)[|played|]])
      ensures |LiveNames(queue.items)| < |st.queued| - |played|
    {
      hide LiveNames, AllNamed;
      var n, first := |played|, [st.file] + st.queued;
      assert first[..n + 1] == first[..n] + [first[n]];
      assert st.queued[n..][1..] == st.queued[n + 1..];
    }

    /** From the queue, now empty, to the list. */
    lemma QueueToList(o: Options, r: Request, st: Start, played: seq<string>, was: seq<Item>, playing: int)
      requires AllNamed(was) && AllNamed(st.shuffled) && AllNamed(queue.items) && AllNamed(playlist.items)
      requires AllNamed(Order(o).items) && currPlaying >= -1
      requires GoesOn(o, r) && !o.repeat && |played| == |st.queued| && played == ([st.file] + st.queued)[..|played|]
      requires Went(o, r, was, ([st.file] + st.queued)[|played|], BeforeAt(st.before, st.file, |played|), st.started,
                 playing, [], st.shuffled)
      ensures var played' := played + [([st.file] + st.queued)[|played|]];
        && (currPlaying == -1 ==> Ended(o, st, played'))
        && (currPlaying != -1 ==> InList(o, st, played'))
      ensures LiveNames(queue.items) == []
    {
      hide LiveNames, Programme, FirstFrom, Position, Player.Chosen, Player.SameOrder;
      var first := [st.file] + st.queued;
      assert first[..|first| - 1] + [first[|first| - 1]] == first;
      ChosenOrder(o, st, Anchor(first[|played|], BeforeAt(st.before, st.file, |played|), o.queueNextSongReturn), was);
      ProgrammeFrom(was, o.queueNextSongReturn, st.file, st.before, st.started, st.queued, currPlaying);
      assert first + [] == first;
    }

    lemma ChosenOrder(o: Options, st: Start, first: string, was: seq<Item>)
      requires AllNamed(st.shuffled) && AllNamed(playlist.items) && AllNamed(was)
      requires Chosen(o, st.shuffled, first, was) && Order(o).items == was
      requires !o.shuffle ==> shuffled.items == st.shuffled
      ensures SameOrder(o, st) && (LiveNames(playlist.items) != [] ==> LiveNames(was) != [])
    {
      hide LiveNames, Mixed, Leads;
      if o.shuffle && Mixed(playlist.items, was) {
        MixedInStep(playlist.items, was);
        InStepEmpty(playlist.items, was);
      }
    }

    /** From slot k of the list to the next live one. */
    lemma ListToList(o: Options, st: Start, played: seq<string>, items: seq<Item>, k: nat)
      requires AllNamed(items) && AllNamed(st.shuffled) && AllNamed(queue.items) && AllNamed(playlist.items)
      requires items == Order(o).items && k < |items| && !items[k].deleted && |played| > |st.queued| && SameOrder(o, st)
      requires played + ([items[k].file.value] + LiveNames(items[k + 1..])) == Whole(o, st)
      requires LiveNames(queue.items) == [] && beforeQueue.None? && !startedInQueue && currPlist == Order(o)
      requires FirstFrom(items, k + 1, currPlaying)
      ensures var played' := played + [items[k].file.value];
        && (currPlaying == -1 ==> Ended(o, st, played'))
        && (currPlaying != -1 ==> InList(o, st, played') && k < currPlaying < |items|)
    {
      hide LiveNames, Programme, Mixed;
      LiveSome(items, k);
      RestFrom(items, k + 1, currPlaying);
      var f, rest := items[k].file.value, LiveNames(items[k + 1..]);
      assert played + [f] + [] == played + [f];
      assert played + ([f] + rest) == played + [f] + rest;
    }

    lemma WentOn(o: Options, r: Request, was: seq<Item>, items: seq<Item>, last: string, k: nat, mixed: seq<Item>)
      requires AllNamed(was) && AllNamed(items) && AllNamed(mixed) && AllNamed(queue.items) && AllNamed(playlist.items)
      requires Went(o, r, was, last, None, false, k, [], mixed) && GoesOn(o, r) && !o.repeat
      requires items == (if o.shuffle then mixed else playlist.items) && LiveNames(items) != []
      requires Position(items, last, None, o.queueNextSongReturn) == k
      ensures LiveNames(queue.items) == [] && beforeQueue.None? && !startedInQueue && currPlist == Order(o)
      ensures shuffled.items == mixed && FirstFrom(Order(o).items, k + 1, currPlaying)
    {
      hide LiveNames, FirstFrom, Position, Mixed, Leads, AllNamed, Backward;
    }

    /** A live entry is found where it is. */
    lemma Located(o: Options)
      requires Valid() && 0 <= currPlaying < |Order(o).items| && !Order(o).items[currPlaying].deleted
      ensures LiveNames(Order(o).items) != []
      ensures Position(Order(o).items, Order(o).items[currPlaying].file.value, None, o.queueNextSongReturn) ==
        currPlaying
    {
      hide PList.Valid, FindsLive, Position, LiveNames;
      FoundByName(Order(o));
      LiveSome(Order(o).items, currPlaying);
      PositionHere(Order(o).items, o.queueNextSongReturn, currPlaying);
    }

    ghost function StartNow(): Start
      reads this, queue, shuffled, currPlist
      requires AllNamed(queue.items) && CurrentFile().Some?
    {
      Start(CurrentFile().value, beforeQueue, startedInQueue, LiveNames(queue.items), shuffled.items)
    }

    /** What a run that came to its end while the k-th file was played leaves behind: stopped
        by the user, or with nothing to make it go on. */
    ghost predicate Left(st: Start, k: nat, stopped: bool)
      reads this`beforeQueue, this`startedInQueue, queue
      requires AllNamed(queue.items)
    {
      && LiveNames(queue.items) == st.queued[Min(k, |st.queued|)..]
      && beforeQueue == (if stopped && k <= |st.queued| then BeforeAt(st.before, st.file, k) else None)
      && startedInQueue == (st.started && k <= |st.queued|)
    }

    /** The outcome of a run: what was played, and what is left behind. */
    ghost predicate Ran(o: Options, st: Start, halt: Option<Halt>, played: seq<string>)
      reads this`currPlaying, this`beforeQueue, this`startedInQueue, queue, playlist, shuffled
      requires AllNamed(queue.items) && AllNamed(Order(o).items) && AllNamed(playlist.items) && AllNamed(st.shuffled)
    {
      && currPlaying == -1 && SameOrder(o, st)
      && match halt
         case None => played == Whole(o, st) && Ended(o, st, played)
         case Some(h) =>
           && played == Upto(Whole(o, st), Some(h.at))
           && if h.at < |Whole(o, st)| then Left(st, h.at, h.stopped) else Ended(o, st, played)
    }

    /** A turn after which the run goes on: AutoNext is on, or the user asks for the next. */
    method Turn(o: Options, r: Request, ghost st: Start, ghost played: seq<string>) returns (file: Option<string>)
      requires Valid() && GoesOn(o, r) && !o.repeat && AllNamed(st.shuffled) && currPlaying != -1
      requires InQueue(st, played) || InList(o, st, played)
      modifies this, queue, shuffled, shuffled.tree, shuffled.tree.repr, shuffled.tree.nil`color
      ensures Valid() && file.Some?
      ensures currPlaying == -1 ==> Ended(o, st, played + [file.value])
      ensures currPlaying != -1 ==> InQueue(st, played + [file.value]) || InList(o, st, played + [file.value])
      ensures currPlaying != -1 ==>
        || |LiveNames(queue.items)| < |old(LiveNames(queue.items))|
        || (LiveNames(queue.items) == old(LiveNames(queue.items)) && |played| == |st.queued|)
        || (LiveNames(queue.items) == old(LiveNames(queue.items)) && |played| > |st.queued|
            && old(currPlaying) < currPlaying < |Order(o).items| && Order(o).items == old(Order(o).items))
      ensures fresh(shuffled.tree.repr - old(shuffled.tree.repr))
    {
      hide LiveNames, Player.Lists, InStep, Player.Ended, Programme, Player.Went, Position, FirstFrom, Mixed;
      ghost var k, items, mixed := currPlaying, currPlist.items, shuffled.items;
      if |played| > |st.queued| {
        Located(o);
      } else {
        assert st.queued[|st.queued|..] == [];
      }
      ghost var was;
      file, was := PlayOne(o, r);
      if |played| < |st.queued| {
        QueueToQueue(o, r, st, played, was, k);
      } else if |played| == |st.queued| {
        QueueToList(o, r, st, played, was, k);
      } else {
        WentOn(o, r, was, items, file.value, k, mixed);
        ListToList(o, st, played, items, k);
      }
    }

    /** A turn in which the user stops playing. */
    method StopTurn(o: Options, ghost st: Start, ghost played: seq<string>) returns (file: Option<string>)
      requires Valid() && AllNamed(st.shuffled) && currPlaying != -1
      requires InQueue(st, played) || InList(o, st, played)
      modifies this, queue, shuffled, shuffled.tree, shuffled.tree.repr, shuffled.tree.nil`color
      ensures Valid() && file.Some? && currPlaying == -1
      ensures Ran(o, st, Some(Halt(|played|, true)), played + [file.value])
      ensures fresh(shuffled.tree.repr - old(shuffled.tree.repr))
    {
      hide LiveNames, Player.Lists, InStep, Mixed, Programme;
      ghost var n := |played|;
      if |played| <= |st.queued| {
        StoppedInQueue(o, st, n);
      } else {
        ghost var items := currPlist.items;
        StoppedInList(o, st, played, items[currPlaying].file.value, LiveNames(items[currPlaying + 1..]));
      }
      ghost var was;
      file, was := PlayOne(o, Stop);
    }

    /** A turn with AutoNext off in which nothing is asked for: the run ends. */
    method LastTurn(o: Options, ghost st: Start, ghost played: seq<string>) returns (file: Option<string>)
      requires Valid() && !o.autoNext && !o.repeat && AllNamed(st.shuffled) && currPlaying != -1
      requires InQueue(st, played) || InList(o, st, played)
      modifies this, queue, shuffled, shuffled.tree, shuffled.tree.repr, shuffled.tree.nil`color
      ensures Valid() && file.Some? && currPlaying == -1
      ensures Ran(o, st, Some(Halt(|played|, false)), played + [file.value])
      ensures fresh(shuffled.tree.repr - old(shuffled.tree.repr))
    {
      hide LiveNames, Player.Lists, InStep, Mixed, Programme, Leads, Position;
      ghost var k, items := currPlaying, currPlist.items;
      if |played| > |st.queued| {
        Located(o);
        StoppedInList(o, st, played, items[k].file.value, LiveNames(items[k + 1..]));
      }
      ghost var was;
      file, was := PlayOne(o, Nothing);
      if |played| <= |st.queued| {
        StoppedInQueue(o, st, |played|);
      }
    }

    lemma StoppedInQueue(o: Options, st: Start, n: nat)
      requires AllNamed(Order(o).items) && n <= |st.queued|
      ensures var first := [st.file] + st.queued;
        n < |Whole(o, st)| && Whole(o, st)[..n + 1] == first[..n] + [first[n]]
    {
      hide LiveNames;
      var first := [st.file] + st.queued;
      assert first[..n + 1] == first[..n] + [first[n]];
    }

    lemma StoppedInList(o: Options, st: Start, played: seq<string>, f: string, rest: seq<string>)
      requires AllNamed(Order(o).items) && played + ([f] + rest) == Whole(o, st)
      ensures |played| < |Whole(o, st)| && Whole(o, st)[..|played| + 1] == played + [f]
    {
      assert played + ([f] + rest) == (played + [f]) + rest;
    }

    /** `play_thread` with Repeat off: every run ends, whatever is asked for except the
        previous file.  It plays the programme, to the end or to the file at which it is
        stopped or, with AutoNext off, at which the user does not ask for the next one. */
    method PlayThread(o: Options, requests: seq<Request>) returns (played: seq<string>)
      requires Valid() && !o.repeat && (currPlaying == -1 || CurrentFile().Some?) && Previous !in requests
      modifies this, queue, shuffled, shuffled.tree, shuffled.tree.repr, shuffled.tree.nil`color
      ensures Valid() && currPlaying == -1 && currFname.None?
      ensures old(currPlaying) == -1 ==>
        played == [] && queue.items == old(queue.items) && shuffled.items == old(shuffled.items)
        && beforeQueue == old(beforeQueue) && startedInQueue == old(startedInQueue)
      ensures old(currPlaying) != -1 ==> Ran(o, old(StartNow()), HaltOf(o, requests, 0), played)
      ensures fresh(shuffled.tree.repr - old(shuffled.tree.repr))
    {
      hide LiveNames, Player.Lists, InStep, Player.Ran, Player.Ended, Player.InQueue, Player.InList;
      played := [];
      if currPlaying != -1 {
        ghost var st, halt := StartNow(), HaltOf(o, requests, 0);
        Begins(st);
        while currPlaying != -1
          invariant Valid() && fresh(shuffled.tree.repr - old(shuffled.tree.repr))
          invariant currPlaying != -1 ==> InQueue(st, played) || InList(o, st, played)
          invariant currPlaying != -1 && halt.Some? ==> |played| <= halt.value.at
          invariant currPlaying == -1 ==> Ran(o, st, halt, played)
          decreases if currPlaying == -1 then 0 else 1 + |LiveNames(queue.items)|,
            if |played| <= |st.queued| then 1 else 0,
            if |played| <= |st.queued| then 0 else Remaining(o)
        {
          HaltIs(o, requests, |played|);
          var r := RequestAt(requests, |played|);
          var file;
          if r.Stop? {
            file := StopTurn(o, st, played);
          } else if GoesOn(o, r) {
            file := Turn(o, r, st, played);
            if currPlaying == -1 { EndedRan(o, st, halt, played + [file.value]); }
          } else {
            file := LastTurn(o, st, played);
          }
          played := played + [file.value];
        }
      }
      currFname := None;
    }

    /** How many slots of the list are left. */
    ghost function Remaining(o: Options): nat
      reads this, playlist, shuffled
    {
      if currPlaying < |Order(o).items| then |Order(o).items| - currPlaying else 0
    }

    lemma Begins(st: Start)
      requires AllNamed(queue.items) && CurrentFile().Some? && st == StartNow()
      ensures InQueue(st, [])
    {}

    lemma EndedRan(o: Options, st: Start, halt: Option<Halt>, played: seq<string>)
      requires AllNamed(queue.items) && AllNamed(Order(o).items) && AllNamed(playlist.items) && AllNamed(st.shuffled)
      requires Ended(o, st, played) && (halt.Some? ==> |played| <= halt.value.at)
      ensures Ran(o, st, halt, played)
    {
      hide LiveNames, Programme, Mixed;
    }

    /** With Shuffle, a run that begins in the queue plays the queue and then each live
        entry of the playlist once, in some order. */
    lemma QueueThenShuffle(o: Options, st: Start, played: seq<string>)
      requires Valid() && AllNamed(st.shuffled) && o.shuffle && st.started && Ended(o, st, played)
      ensures var first := [st.file] + st.queued;
        first <= played && multiset(played[|first|..]) == multiset(LiveNames(playlist.items))
    {
      hide LiveNames, Player.Lists, Mixed;
      var first := [st.file] + st.queued;
      StartedInQueue(shuffled.items, o.queueNextSongReturn, first, st.before);
      assert first[1..] == st.queued;
      assert played[|first|..] == LiveNames(shuffled.items);
      if shuffled.items == [] { LiveNamesNone([]); }
    }

    // ----- repeating

    /** A turn of a run with Repeat, in the playlist. */
    method RepeatTurn(o: Options, r: Request) returns (file: Option<string>)
      requires Valid() && o.repeat && !o.shuffle && GoesOn(o, r) && InPlaylist()
      modifies this, queue, shuffled, shuffled.tree, shuffled.tree.repr, shuffled.tree.nil`color
      ensures Valid() && InPlaylist() && fresh(shuffled.tree.repr - old(shuffled.tree.repr))
      ensures file == old(playlist.items[currPlaying].file)
      ensures var m, j := |LiveNames(playlist.items)|, old(Rank(playlist.items, currPlaying));
        Rank(playlist.items, currPlaying) == if j + 1 == m then 0 else j + 1
    {
      hide LiveNames, Player.Lists, InStep, Rank, FirstFrom, Player.Went, Position;
      ghost var items, k, mixed := playlist.items, currPlaying, shuffled.items;
      Located(o);
      ghost var was;
      file, was := PlayOne(o, r);
      Repeated(o, r, was, k, mixed);
      NextRank(items, k, currPlaying);
    }

    /** The run is in the playlist, with nothing in the queue and no flag left over. */
    ghost predicate InPlaylist()
      reads this, queue, playlist
    {
      && AllNamed(queue.items) && LiveNames(queue.items) == [] && AllNamed(playlist.items)
      && currPlist == playlist && 0 <= currPlaying < |playlist.items| && !playlist.items[currPlaying].deleted
      && beforeQueue.None? && !startedInQueue
    }

    lemma Repeated(o: Options, r: Request, was: seq<Item>, k: nat, mixed: seq<Item>)
      requires AllNamed(was) && AllNamed(mixed) && AllNamed(queue.items) && AllNamed(playlist.items)
      requires o.repeat && !o.shuffle && GoesOn(o, r) && k < |playlist.items| && !playlist.items[k].deleted
      requires Position(playlist.items, playlist.items[k].file.value, None, o.queueNextSongReturn) == k
      requires Went(o, r, was, playlist.items[k].file.value, None, false, k, [], mixed)
      ensures InPlaylist()
      ensures var items := playlist.items;
        || FirstFrom(items, k + 1, currPlaying)
        || (FirstFrom(items, k + 1, -1) && FirstFrom(items, 0, currPlaying))
    {
      hide LiveNames, Position, Mixed, Leads, Backward;
      LiveSome(playlist.items, k);
      assert was == playlist.items;
    }

    /** `play_thread` with Repeat on goes round and round the playlist: the i-th file played
        is i places after the first one, counted around the live entries. */
    method PlayRound(o: Options, requests: seq<Request>) returns (played: seq<string>)
      requires Valid() && o.repeat && !o.shuffle && InPlaylist()
      requires forall r :: r in requests ==> GoesOn(o, r)
      modifies this, queue, shuffled, shuffled.tree, shuffled.tree.repr, shuffled.tree.nil`color
      ensures Valid() && InPlaylist() && fresh(shuffled.tree.repr - old(shuffled.tree.repr))
      ensures |played| == |requests|
      ensures var names := LiveNames(playlist.items);
        names != [] && forall i :: 0 <= i < |played| ==>
          played[i] == names[(old(Rank(playlist.items, currPlaying)) + i) % |names|]
    {
      hide LiveNames, Player.Lists, InStep, Rank;
      played := [];
      ghost var j, names := Rank(playlist.items, currPlaying), LiveNames(playlist.items);
      NameAtRank(playlist.items, currPlaying);
      while |played| < |requests|
        invariant Valid() && InPlaylist() && fresh(shuffled.tree.repr - old(shuffled.tree.repr))
        invariant |played| <= |requests| && currPlaying >= 0
        invariant Rank(playlist.items, currPlaying) == (j + |played|) % |names|
        invariant forall i :: 0 <= i < |played| ==> played[i] == names[(j + i) % |names|]
      {
        NextRemainder(j + |played|, |names|);
        NameAtRank(playlist.items, currPlaying);
        var file := RepeatTurn(o, requests[|played|]);
        played := played + [file.value];
      }
    }

    // ----- starting

    /** The choice of the first entry in `audio_play`. */
    method SelectEntry(fname: string)
      requires Valid()
      modifies this`currPlaying
      ensures Valid()
      ensures fname != "" ==> currPlaying == Scan(currPlist.items, fname)
      ensures fname == "" ==> FirstFrom(currPlist.items, 0, currPlaying)
    {
      hide PList.Index, Total, LiveNames, InStep;
      CountIsLive(currPlist.items);
      if fname != "" {
        currPlaying := currPlist.FindFname(fname);
      } else if currPlist.notDeleted != 0 {
        currPlaying := currPlist.Next(-1);
      } else {
        NoneLive(currPlist.items);
        currPlaying := -1;
      }
    }

    /** The shuffled list of a new run, `first` in front. */
    method NewOrder(first: string)
      requires Valid()
      modifies this`currPlist, shuffled, shuffled.tree, shuffled.tree.repr, shuffled.tree.nil`color
      ensures Valid() && currPlist == shuffled && Mixed(playlist.items, shuffled.items) && Leads(shuffled.items, first)
      ensures fresh(shuffled.tree.repr - old(shuffled.tree.repr))
    {
      hide Player.Lists, LiveNames, Mixed, InStep, Leads, AllNamed;
      Reshuffle();
      Lead(first);
      MixedInStep(playlist.items, shuffled.items);
      currPlist := shuffled;
    }

    /** The selection in `audio_play`. */
    method Select(fname: string, o: Options)
      requires Valid()
      modifies this, queue, shuffled, shuffled.tree, shuffled.tree.repr, shuffled.tree.nil`color
      ensures Valid() && beforeQueue == old(beforeQueue)
      ensures
        if old(LiveNames(queue.items)) != [] && fname == "" then
          && currPlist == queue && CurrentFile() == Some(old(LiveNames(queue.items))[0]) && currPlaying != -1
          && LiveNames(queue.items) == old(LiveNames(queue.items))[1..]
          && startedInQueue && shuffled.items == old(shuffled.items)
        else
          && currPlist == Order(o) && queue.items == old(queue.items) && startedInQueue == old(startedInQueue)
          && (fname != "" ==> currPlaying == Scan(currPlist.items, fname))
          && (fname == "" ==> FirstFrom(currPlist.items, 0, currPlaying))
          && (if o.shuffle then Mixed(playlist.items, shuffled.items) && Leads(shuffled.items, fname)
              else shuffled.items == old(shuffled.items))
      ensures fresh(shuffled.tree.repr - old(shuffled.tree.repr))
    {
      hide PList.Index, Total, LiveNames, InStep, Mixed, Leads, FirstFrom, Scan, AllNamed;
      CountIsLive(queue.items);
      if queue.notDeleted != 0 && fname == "" {
        PopQueue();
        startedInQueue := true;
      } else {
        if o.shuffle {
          NewOrder(fname);
        } else {
          currPlist := playlist;
        }
        SelectEntry(fname);
      }
    }

    /** `audio_play`: what playing from `fname`, or from the start if it is empty, plays until
        nothing is left or until it is stopped, whatever an earlier run left in the flags. */
    method AudioPlay(fname: string, o: Options, requests: seq<Request>)
      returns (played: seq<string>, ghost begun: Option<Start>)
      requires Valid() && !o.repeat && Previous !in requests
      modifies this, queue, shuffled, shuffled.tree, shuffled.tree.repr, shuffled.tree.nil`color
      ensures Valid() && currPlaying == -1
      ensures begun.None? <==>
        if fname == "" then old(LiveNames(queue.items)) == [] && LiveNames(playlist.items) == []
        else Scan(playlist.items, fname) == -1
      ensures begun.None? ==>
        && played == [] && queue.items == old(queue.items)
        && beforeQueue == old(beforeQueue) && startedInQueue == old(startedInQueue)
      ensures begun.Some? ==>
        AllNamed(begun.value.shuffled) && Ran(o, begun.value, HaltOf(o, requests, 0), played)
      ensures begun.Some? ==>
        Begun(fname, o, begun.value, old(LiveNames(queue.items)), old(beforeQueue), old(startedInQueue))
      ensures fresh(shuffled.tree.repr - old(shuffled.tree.repr))
    {
      hide Player.Lists, LiveNames, InStep, Mixed, Leads, FirstFrom, Scan, Player.Ran;
      ghost var queued := LiveNames(queue.items);
      Select(fname, o);
      if queued == [] || fname != "" { Selected(fname, o); }
      begun := if currPlaying == -1 then None else Some(StartNow());
      played := PlayThread(o, requests);
      if begun.Some? && (queued == [] || fname != "") {
        OrderKept(o, begun.value, HaltOf(o, requests, 0), played);
      }
    }

    /** How the run began: in the queue, or in the list, with the flags that were left. */
    ghost predicate Begun(fname: string, o: Options, st: Start, queued: seq<string>, before: Option<string>,
                          started: bool)
      reads playlist, shuffled
      requires AllNamed(Order(o).items) && AllNamed(playlist.items)
    {
      && st.before == before
      && if queued != [] && fname == "" then st.file == queued[0] && st.queued == queued[1..] && st.started
         else
           && st.queued == queued && st.started == started && LiveNames(Order(o).items) != []
           && st.file == (if fname != "" then fname else LiveNames(Order(o).items)[0])
           && (o.shuffle ==> Mixed(playlist.items, shuffled.items) && Leads(shuffled.items, fname))
    }

    /** The entry selected is there exactly when the playlist has it. */
    lemma Selected(fname: string, o: Options)
      requires Valid() && currPlist == Order(o)
      requires fname != "" ==> currPlaying == Scan(currPlist.items, fname)
      requires fname == "" ==> FirstFrom(currPlist.items, 0, currPlaying)
      requires o.shuffle ==> Mixed(playlist.items, shuffled.items)
      ensures currPlaying == -1 <==>
        if fname == "" then LiveNames(playlist.items) == [] else Scan(playlist.items, fname) == -1
      ensures currPlaying != -1 ==>
        && LiveNames(Order(o).items) != []
        && CurrentFile() == Some(if fname != "" then fname else LiveNames(Order(o).items)[0])
    {
      hide LiveNames, Player.Lists;
      var items := currPlist.items;
      if o.shuffle {
        InStepFinds(playlist.items, items, fname);
        InStepEmpty(playlist.items, items);
      }
      if fname == "" {
        assert items[0..] == items;
        LiveFrom(items, 0, currPlaying);
      } else if currPlaying != -1 {
        LiveSome(items, currPlaying);
      }
    }

    /** A list that is not empty stays as it is. */
    lemma OrderKept(o: Options, st: Start, halt: Option<Halt>, played: seq<string>)
      requires AllNamed(queue.items) && AllNamed(Order(o).items) && AllNamed(playlist.items) && AllNamed(st.shuffled)
      requires Ran(o, st, halt, played)
      ensures o.shuffle && LiveNames(st.shuffled) != [] ==> shuffled.items == st.shuffled
    {
      hide LiveNames, Programme, Mixed;
    }
  }

  /** Deleting a file from both lists keeps them in step. */
  lemma DeletedInStep(playlist: seq<Item>, s: seq<Item>, file: string)
    requires AllNamed(playlist) && AllNamed(s) && (s == [] || InStep(playlist, s))
    ensures var i, k := Scan(playlist, file), Scan(s, file);
      var playlist' := if i == -1 then playlist else playlist[i := Erased(playlist[i])];
      var s' := if k == -1 then s else s[k := Erased(s[k])];
      AllNamed(playlist') && AllNamed(s') && (s' == [] || InStep(playlist', s'))
  {
    hide LiveNames, InStep;
    if s != [] {
      InStepFinds(playlist, s, file);
      var i, k := Scan(playlist, file), Scan(s, file);
      if i != -1 { InStepErased(playlist, s, i, k); }
    }
  }

  // ----- a flag that is left over

  /** A list of the given files. */
  method NewList(nil: RbNode, coll: string -> real, names: seq<string>) returns (p: PList)
    requires nil.color == Black && Collation(coll) && NoDup(names)
    modifies nil`color
    ensures p.Valid() && AllNamed(p.items) && LiveNames(p.items) == names && nil.color == Black
    ensures p.tree.nil == nil && fresh(p) && fresh(p.tree) && fresh(p.tree.repr)
  {
    hide PList.Caches, PList.Index, LiveNames, Collation;
    p := new PList(nil, coll);
    LiveNamesNone([]);
    var i := 0;
    while i < |names|
      invariant 0 <= i <= |names| && p.Valid() && AllNamed(p.items) && LiveNames(p.items) == names[..i]
      invariant p.tree.nil == nil && fresh(p) && fresh(p.tree) && fresh(p.tree.repr)
    {
      ghost var items := p.items;
      NotListed(items, names, i);
      OneLive(names[i]);
      var _ := p.Add(Some(names[i]), Sound, 0);
      LiveNamesConcat(items, [Fresh(names[i], Sound, 0)]);
      i := i + 1;
    }
    assert names[..i] == names;
    NilIsBlack(p);
  }

  lemma NotListed(items: seq<Item>, names: seq<string>, i: nat)
    requires AllNamed(items) && NoDup(names) && i < |names| && LiveNames(items) == names[..i]
    ensures !IsLive(items, names[i]) && names[..i + 1] == names[..i] + [names[i]]
  {
    if k :| 0 <= k < |items| && Live(items[k], names[i]) { LiveIsNamed(items, k); }
  }

  lemma OneLive(name: string)
    ensures AllNamed([Fresh(name, Sound, 0)]) && LiveNames([Fresh(name, Sound, 0)]) == [name]
  {
    var s := [Fresh(name, Sound, 0)];
    assert s[..0] == [];
  }

  /** A run that begins in the queue and is stopped there leaves its mark: the next run, from
      the last entry on, goes back to the first one. */
  method StopThenPlay(p: Player, o: Options) returns (first: seq<string>, second: seq<string>)
    requires p.Valid() && o.autoNext && !o.repeat && !o.shuffle && p.beforeQueue.None? && !p.startedInQueue
    requires LiveNames(p.queue.items) == ["q"] && LiveNames(p.playlist.items) == ["a", "b"]
    modifies p, p.queue, p.shuffled, p.shuffled.tree, p.shuffled.tree.repr, p.shuffled.tree.nil`color
    ensures first == ["q"] && second == ["b", "a", "b"]
  {
    hide Player.Lists, LiveNames, InStep, Programme, Player.SameOrder, Mixed;
    assert ["q"][1..] == [] && ["b"][1..] == [];
    StartedInQueue(p.playlist.items, o.queueNextSongReturn, ["q"], None);
    StartedInQueue(p.playlist.items, o.queueNextSongReturn, ["b"], None);
    ghost var begun;
    first, begun := p.AudioPlay("", o, [Stop]);
    assert p.startedInQueue && p.beforeQueue.None? && LiveNames(p.queue.items) == [];
    ScanIsListed(p.playlist.items, "b");
    assert ["a", "b"][1] == "b";
    second, begun := p.AudioPlay("b", o, []);
  }

  /** A run that is stopped in the queue leaves the file to return to: with
      QueueNextSongReturn the next run goes on behind that file, not behind its own. */
  method StopThenReturn(p: Player, o: Options) returns (first: seq<string>, second: seq<string>)
    requires p.Valid() && o.autoNext && !o.repeat && !o.shuffle && o.queueNextSongReturn
    requires p.beforeQueue.None? && !p.startedInQueue
    requires LiveNames(p.queue.items) == ["q"] && LiveNames(p.playlist.items) == ["a", "b", "c"]
    modifies p, p.queue, p.shuffled, p.shuffled.tree, p.shuffled.tree.repr, p.shuffled.tree.nil`color
    ensures first == ["a", "q"] && second == ["c", "b", "c"]
  {
    hide Player.Lists, LiveNames, InStep, Programme, Player.SameOrder, Mixed;
    PlaylistValid(p);
    ghost var k := BehindFirst(p.playlist);
    ReturnsBehind(p.playlist.items, true, k, ["q"]);
    ReturnsLater(p.playlist.items, true, k, "c", []);
    ghost var begun;
    first, begun := p.AudioPlay("a", o, [Nothing, Stop]);
    assert !p.startedInQueue && p.beforeQueue == Some("a") && LiveNames(p.queue.items) == [];
    ScanIsListed(p.playlist.items, "c");
    second, begun := p.AudioPlay("c", o, []);
  }

  lemma PlaylistValid(p: Player)
    requires p.Valid()
    ensures p.playlist.Valid()
  {
    hide PList.Valid;
  }

  lemma BehindFirst(p: PList) returns (k: nat)
    requires p.Valid() && AllNamed(p.items) && LiveNames(p.items) == ["a", "b", "c"]
    ensures k < |p.items| && p.items[k].file == Some("a") && Scan(p.items, "a") == k && Scan(p.items, "c") != -1
    ensures LiveNames(p.items[k + 1..]) == ["b", "c"]
  {
    hide LiveNames, PList.Valid;
    assert LiveNames(p.items)[0] == "a" && LiveNames(p.items)[2] == "c";
    ScanIsListed(p.items, "a");
    ScanIsListed(p.items, "c");
    SomeLive(p.items);
    var n: nat :| n < |p.items| && !p.items[n].deleted;
    k := FirstOf(p.items, n);
    assert p.items[0..] == p.items;
    LiveFrom(p.items, 0, k);
    assert ["a", "b", "c"] == ["a"] + ["b", "c"];
    PlayOrder.SameTail("a", LiveNames(p.items[k + 1..]), ["b", "c"]);
    FoundByName(p);
  }

  lemma {:induction false} FirstOf(s: seq<Item>, n: nat) returns (k: nat)
    requires n < |s| && !s[n].deleted
    ensures FirstFrom(s, 0, k)
  {
    if j: nat :| j < n && !s[j].deleted {
      k := FirstOf(s, j);
    } else {
      k := n;
    }
  }

  /** Such a run exists. */
  method LeftoverRun(nil: RbNode, coll: string -> real, back: bool) returns (first: seq<string>, second: seq<string>)
    requires nil.color == Black && Collation(coll)
    modifies nil`color
    ensures first == ["q"] && second == ["b", "a", "b"]
  {
    hide PList.Valid, LiveNames, Collation;
    assert NoDup(["a", "b"]) by { assert "a"[0] != "b"[0]; }
    var queue := NewList(nil, coll, ["q"]);
    label One:
    var playlist := NewList(nil, coll, ["a", "b"]);
    StillValid@One(queue);
    var shuffled := new PList(nil, coll);
    NilIsBlack(queue);
    NilIsBlack(playlist);
    NilIsBlack(shuffled);
    var p := new Player(queue, playlist, shuffled);
    first, second := StopThenPlay(p, Options(true, false, false, back));
  }
}
