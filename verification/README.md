# A verified model of the moc 2.5.0 player core

This project models, in Dafny 4.11, the parts of the vendored music player under
`src/moc-2.5.0` that hold data structures, caches over them, protocols between threads,
a hash function, a hash table and a wire format, and proves what they are for.
`dafny verify dfyconfig.toml` checks all of it.

Code that changes things in place is a class or a method over an array, proved against a
function of the old state; two-thread protocols are state machines whose steps run between
the points where a thread takes or gives up a mutex or waits, and the claims hold in every
interleaving; the reference each is compared with (a sorted list, a linear scan, a
left-to-right parse, the digest of a whole message, an unpruned history) is defined
separately.

| files | component | main results |
|---|---|---|
| `RbShape`, `RbMoves`, `RbTree` | `rbtree.c` | insertion and deletion with their fixups end and keep a red-black tree whose in-order data are the old ones with one datum put in or taken out; the sentinel shared by all trees stays as it was; a search looks at no more than 2*log2(n+1) nodes |
| `Playlist`, `PlaylistIndex`, `PlaylistSort`, `PlaylistClass`, `PlaylistRuns` | `playlist.c` | over every sequence of operations on two lists, the index answers as a linear scan does and the cached counts and times are the totals |
| `Fifo` | `fifo_buf.c` | the ring buffer is a bounded byte sequence |
| `IoStream` | `io.c` | in every interleaving, reads and peeks return the file's bytes at the user's position, seeks end where asked, and a block read before a seek stays out; exactly when a short read means the end of the file |
| `OutBuf` | `out_buf.c` | in every interleaving, the device gets the accepted stream without the cleared bytes, in order; nothing moves between a stop and the next reset or during a pause; the thread ends drained |
| `Md5Spec`, `Md5Vectors`, `Md5Rounds`, `Md5` | `md5.c` | however a message is cut, the result is the digest of RFC 1321, with two of its known answers |
| `Getopt` | `getopt.c` | scanning to the end stably partitions argv; what each form of an option yields |
| `PlayOrder`, `PlayLoop` | `audio.c` | the play loop ends; exactly which files it plays, in which order, with and without Shuffle, round and round with Repeat, and what a stopped run leaves behind |
| `OptionTable` | `options.c` | the open-addressing table is a map from case-folded names to slots |
| `WireFormat`, `WirePackets`, `Protocol` | `protocol.c`, `interface.c` | a sequence of events arrives as the same sequence in canonical form exactly when no delivery ends inside a number |
| `Decoder` | `decoder.c` | the list that a preference loads |
| `Bitrate` | `player.c` | the pruned history answers like the full one |

How the pieces of the system are represented:

* A red-black node is an object; the tree is a ghost value `Tree` of node references, and
  a fixup loop works on a subtree in its context (`Zip`).  `Rep` says that the pointers are
  exactly the picture of the value.  A tree compares its data through weights
  `int -> real`; for a playlist the weight of a slot is the weight of its file name.
* `strcoll` is an injective weight `string -> real`.  The set of names is countable, so
  every total order whose equality is string equality is of this form.
* Random numbers, modification times, file types, short reads, the places where a socket's
  stream is cut into deliveries, the amount a device can take and the alignment of a buffer
  are parameters or choices of the model; the properties hold for all of them.
* `int` is four bytes and `time_t` eight, low-order byte first, on the wire and in md5.
* `my_bcopy` of `getopt.c` is its copying loop, from low to high places.  Where the GNU
  library is used it is `memcpy`, whose result is undefined on the overlapping regions that
  `exchange` gives it.
* `assert` and `fatal` of the C code are preconditions, except where a result says that
  the code would abort.

Where the code and its comments disagree, the model follows the code:

* `io.c:643-644` says that a read returns 0 at the end of the file.  A seek may come between
  the reader's empty read at the end and its setting of the flag (`io.c:366-386`); the flag
  then survives the seek, and reads return 0 at the new position.  `IoStream.ShortReads` and
  `IoStream.OvertakenExactly` say exactly when; `IoStream.OvertakenRead` is such a run.
* `rbtree.c:10-11` says that the sentinel is never modified.  The last line of
  `rb_delete_fixup` writes its color when the tree becomes empty.  The color written is the
  one it has, so `RbTrees.RbTree.Delete` may write that one field and keeps it black.
* `playlist.c:267-270` says that `plist_prev` of -1 is the first item.  It is -1
  (`Playlists.PList.Prev`), so after playing from the queue a request for the previous file
  ends the run unless Repeat is on (`PlayLoop.Player.StepBack`).
* `plist_add` removes the index node of its name first.  If that name is live, the older
  item loses its node: the list stays valid exactly when the name is not live
  (`Playlists.PList.Add`, `PlaylistIndex.AppendIndex`; `PlaylistRuns.AddedTwice` is a list
  that is not).  `interface.c:4061-4065` adds the files of a command line without looking
  for the name first.
* `load_decoders` rotates the decoders named after the asterisk.  They keep their order
  exactly when there is at most one of them or the number of unnamed plugins is a multiple
  of their number (`Decoder.TailKeepsOrder`); `Decoder.TailReordered` is an input for which
  they do not.
* `audio_play` does not reset `started_playing_in_queue` and `before_queue_fname`, and a
  stopped run leaves them (`PlayLoop.Player.PlayThread`).  With an empty queue, playing from
  an entry plays exactly the entries from there on if and only if neither is left over in a
  way that matters (`PlayOrder.PlaysTheRest`); `PlayLoop.LeftoverRun` is a run in which one
  is.
* `out_buf.c:335-336` says that `out_buf_reset` may be called only when the buffer is
  stopped.  `player.c:698` and `player.c:805` call it at the start of every file, without a
  stop; only `player.c:563` follows one.  The model takes a reset at any time at which the
  producer is not putting.
* `get_int` and `get_time` make one `recv` each and fail on a short one, while `get_str`
  goes on.  Reception succeeds if and only if no delivery ends inside a field of fixed width
  (`WireFormat.StreamRoundTrip`, `Protocol.Transfer`); `WireFormat.CutInsideALength` is a
  delivery that loses an event.
* `plist_sort_fname` leaves the nodes of deleted items with stale slots and loses unnamed
  items.  The list is valid afterwards if and only if there are no such nodes and no unnamed
  item has a time (`Playlists.PList.SortFname`; `PlaylistRuns.SortedStale` is a list with
  such a node).
* The byte count of `md5.c` carries at most one into its high word, so that a single aligned
  call on 2^33 bytes or more miscounts; `Md5.Buffer` and `Md5.Context.ProcessBytes` say
  exactly when and by how much, and `Md5.LongBuffer` is a call that does.

## Model

| member | source | states |
|---|---|---|
| `RbShape.SegPlug` | src/moc-2.5.0/rbtree.c:28-50 | the links, parent links and colors of a tree are right exactly when those of a subtree and of its context are |
| `RbShape.PlugRefs` | src/moc-2.5.0/rbtree.c:287-301 | in-order, a tree is what lies before the focus, the subtree, and what lies after |
| `RbShape.PlugRedBlack` | src/moc-2.5.0/rbtree.c:76-195 | a tree is red-black exactly when the subtree and the context are, with no red-red edge between them |
| `RbShape.HeightBound` | src/moc-2.5.0/rbtree.c:239-261 | the height is at most twice the black height, which is at most log2(n+1) |
| `RbShape.HeightIsLogarithmic` | src/moc-2.5.0/rbtree.c:239-261 | a red-black tree of n nodes is at most 2*log2(n+1) high |
| `RbMoves.RotateLeftRep` | src/moc-2.5.0/rbtree.c:28-50 | the pointer writes of a left rotation turn the picture of a tree into the picture of the rotated tree in the same context, root included |
| `RbMoves.RotateLeftRefs` | src/moc-2.5.0/rbtree.c:28-50 | a left rotation keeps the in-order sequence |
| `RbMoves.RotateRightRep` | src/moc-2.5.0/rbtree.c:52-74 | the same for a right rotation |
| `RbMoves.RotateRightRefs` | src/moc-2.5.0/rbtree.c:52-74 | a right rotation keeps the in-order sequence |
| `RbMoves.InsertRecolorInv` | src/moc-2.5.0/rbtree.c:82-87 | with a red parent there is a black grandparent; with a red uncle, recoloring moves the red node two levels up and keeps the invariant |
| `RbMoves.InsertLeftInner` | src/moc-2.5.0/rbtree.c:89-92 | the inner rotation on the left keeps the insertion invariant |
| `RbMoves.InsertLeftOuter` | src/moc-2.5.0/rbtree.c:94-96 | the outer rotation on the left keeps the invariant and gives a black parent |
| `RbMoves.InsertRightInner` | src/moc-2.5.0/rbtree.c:109-112 | the mirror image of the inner rotation keeps the invariant |
| `RbMoves.InsertRightOuter` | src/moc-2.5.0/rbtree.c:114-116 | the mirror image of the outer rotation keeps the invariant |
| `RbMoves.InsertDone` | src/moc-2.5.0/rbtree.c:120-121 | at a black parent, blackening the root gives a red-black tree |
| `RbMoves.DeleteSibling` | src/moc-2.5.0/rbtree.c:128-137 | a black node short of one black has a sibling that is not the sentinel, and a red sibling has two children and a black parent |
| `RbMoves.DeleteUp` | src/moc-2.5.0/rbtree.c:139-144 | two black nephews: the deficit moves one level up |
| `RbMoves.DeleteLeftRed` | src/moc-2.5.0/rbtree.c:132-137 | a red sibling: after the rotation the deficit sits below a red parent |
| `RbMoves.DeleteLeftInner` | src/moc-2.5.0/rbtree.c:146-151 | a red inner nephew: the rotation makes the outer nephew red |
| `RbMoves.DeleteLeftOuter` | src/moc-2.5.0/rbtree.c:153-157 | a red outer nephew: the rotation ends the deficit |
| `RbMoves.DeleteRightRed` | src/moc-2.5.0/rbtree.c:163-168 | mirror image of the red sibling |
| `RbMoves.DeleteRightInner` | src/moc-2.5.0/rbtree.c:177-182 | mirror image of the inner nephew |
| `RbMoves.DeleteRightOuter` | src/moc-2.5.0/rbtree.c:184-188 | mirror image of the outer nephew |
| `RbMoves.DeleteBlackened` | src/moc-2.5.0/rbtree.c:194-195 | at the root or at a red node, blackening it gives a red-black tree |
| `RbMoves.SpliceInv` | src/moc-2.5.0/rbtree.c:321-345 | taking a node with at most one child out of a red-black tree leaves one, or a tree that is one black short exactly at the child |
| `RbMoves.InsertedElements` | src/moc-2.5.0/rbtree.c:197-237 | the specification of insertion adds one datum and loses none |
| `RbMoves.InsertedKeepsOrder` | src/moc-2.5.0/rbtree.c:197-237 | inserting an absent key into an ascending list leaves it ascending |
| `RbMoves.RemovedElements` | src/moc-2.5.0/rbtree.c:303-347 | the specification of deletion drops exactly the data of the key |
| `RbMoves.RemovedKeepsOrder` | src/moc-2.5.0/rbtree.c:303-347 | deleting from an ascending list leaves it ascending |
| `RbMoves.SearchOutcome` | src/moc-2.5.0/rbtree.c:239-261 | when the descent ends at the sentinel no datum has the key |
| `RbTrees.RbTree.constructor` | src/moc-2.5.0/rbtree.c:349-363 | a new tree is empty and valid |
| `RbTrees.RbTree.LowerLeft` | src/moc-2.5.0/rbtree.c:30-37 | the first writes of a left rotation and nothing else |
| `RbTrees.RbTree.RaiseRight` | src/moc-2.5.0/rbtree.c:39-49 | the last writes of a left rotation and nothing else |
| `RbTrees.RbTree.LowerRight` | src/moc-2.5.0/rbtree.c:54-61 | the first writes of a right rotation and nothing else |
| `RbTrees.RbTree.RaiseLeft` | src/moc-2.5.0/rbtree.c:63-73 | the last writes of a right rotation and nothing else |
| `RbTrees.RbTree.LeftRotate` | src/moc-2.5.0/rbtree.c:28-50 | exactly the links of a left rotation change |
| `RbTrees.RbTree.RightRotate` | src/moc-2.5.0/rbtree.c:52-74 | exactly the links of a right rotation change |
| `RbTrees.RbTree.InsertStep` | src/moc-2.5.0/rbtree.c:78-118 | one turn keeps the insertion invariant and the in-order nodes, and either climbs two levels or goes to a black parent, which ends the loop |
| `RbTrees.RbTree.InsertFixup` | src/moc-2.5.0/rbtree.c:76-121 | ends with a valid red-black tree of the same nodes in the same order with the same data |
| `RbTrees.RbTree.DeleteLeftStep` | src/moc-2.5.0/rbtree.c:129-159 | one turn for a left child keeps the deletion invariant and the order, and climbs, ends, or stops at a red node |
| `RbTrees.RbTree.DeleteRightStep` | src/moc-2.5.0/rbtree.c:160-190 | the mirror image |
| `RbTrees.RbTree.DeleteFixup` | src/moc-2.5.0/rbtree.c:123-195 | ends with a valid red-black tree of the same nodes in the same order with the same data, the sentinel black |
| `RbTrees.RbTree.Search` | src/moc-2.5.0/rbtree.c:239-261 | returns a node exactly when the key is present, with that key, after at most 2*log2(n+1) nodes |
| `RbTrees.RbTree.Descent` | src/moc-2.5.0/rbtree.c:210-220 | finds an equal key exactly when there is one, else the place where the datum belongs |
| `RbTrees.RbTree.Attach` | src/moc-2.5.0/rbtree.c:222-234 | the new red leaf sits between what is before and after its place |
| `RbTrees.RbTree.HangLeaf` | src/moc-2.5.0/rbtree.c:206-234 | exactly the new leaf and the link to it are written |
| `RbTrees.RbTree.Insert` | src/moc-2.5.0/rbtree.c:197-237 | aborts exactly when the key is present; otherwise a valid tree with the datum in sorted position |
| `RbTrees.RbTree.MinBelow` | src/moc-2.5.0/rbtree.c:268-277 | the leftmost node of a subtree |
| `RbTrees.RbTree.Min` | src/moc-2.5.0/rbtree.c:279-285 | the first node in order, or the sentinel for an empty tree |
| `RbTrees.RbTree.Next` | src/moc-2.5.0/rbtree.c:287-301 | the node after the i-th is the (i+1)-th, or the sentinel after the last |
| `RbTrees.RbTree.SpliceOut` | src/moc-2.5.0/rbtree.c:321-337 | the node leaves the tree and its child takes its place; nothing else moves |
| `RbTrees.RbTree.Unhang` | src/moc-2.5.0/rbtree.c:321-337 | exactly the links of the parent and of the child are written |
| `RbTrees.RbTree.Delete` | src/moc-2.5.0/rbtree.c:303-347 | ends with a valid red-black tree that holds the old data in order without the key; an absent key changes nothing; of the sentinel only the color is written, and it is black |
| `RbTrees.RbTree.Rewrite` | src/moc-2.5.0/playlist.c:354-363 | writing a node's data in mid-walk changes that datum alone and no link |
| `RbTrees.RbTree.Clear` | src/moc-2.5.0/rbtree.c:374-385 | an empty valid tree |
| `PlaylistSpec.Scan` | src/moc-2.5.0/playlist.c:373-385 | the reference: the first live item of a name, or -1 exactly if there is none |
| `PlaylistSpec.TotalPermutation` | src/moc-2.5.0/playlist.c:772-784 | totals do not depend on the order of the items |
| `PlaylistSpec.SelectPermutes` | src/moc-2.5.0/playlist.c:336-370 | slots that cover the array without repetition list a permutation of it |
| `PlaylistSpec.ShuffledPermutes` | src/moc-2.5.0/playlist.c:772-784 | any sequence of exchanges is a permutation |
| `PlaylistSpec.TwoTraded` | src/moc-2.5.0/playlist.c:757-769 | an exchange trades two items and moves no other |
| `PlaylistSpec.AnyOrder` | src/moc-2.5.0/playlist.c:772-784 | for every order of the items there are random slots with which the shuffle gives it |
| `PlaylistSpec.CountsFor` | src/moc-2.5.0/playlist.c:703-753 | a deleted item counts for nothing; a live one counts once, and for its time if that is known, be it 0 |
| `PlaylistSpec.NewAndErased` | src/moc-2.5.0/playlist.c:162-211 | a new item is live without tags and titles; a deleted one keeps its name and type and loses tags and titles |
| `PlaylistSpec.RetimedIs` | src/moc-2.5.0/playlist.c:703-731 | only the tags change: the time is the given one, `filled` gains TAGS_TIME and keeps its other bits, and missing tags become new ones |
| `PlaylistSpec.ConcatenatedAdds` | src/moc-2.5.0/playlist.c:686-700 | into any list, the first live item of each name that is not live there is added, in order, and nothing else |
| `PlaylistIndex.LookupAgrees` | src/moc-2.5.0/playlist.c:373-385 | what the tree finds is what the scan finds, and no other live item has the name |
| `PlaylistIndex.AppendIndex` | src/moc-2.5.0/playlist.c:180-211 | after an addition the index is right if and only if the name was not live |
| `PlaylistIndex.SwapIndex` | src/moc-2.5.0/playlist.c:907-928 | exchanging two items and the two data that point at them keeps the index |
| `PlaylistIndex.RebuildStep` | src/moc-2.5.0/playlist.c:772-784 | with distinct names the rebuild after a shuffle never meets an equal key |
| `PlaylistIndex.SwapFirstIndex` | src/moc-2.5.0/playlist.c:787-803 | removing two names, exchanging the items and inserting both slots meets an equal key exactly when both items have one name; otherwise the index is right if and only if the first name is not live elsewhere |
| `PlaylistSort.SortOrder` | src/moc-2.5.0/playlist.c:336-370 | the items after a sort are live, named and strictly ascending by name |
| `PlaylistSort.SortIndexExact` | src/moc-2.5.0/playlist.c:350-363 | the index is right after a sort if and only if no node pointed at a deleted item |
| `PlaylistSort.StaleNode` | src/moc-2.5.0/playlist.c:358-363 | the node of a deleted item keeps a slot that is out of range or that another node was given |
| `PlaylistSort.SortTotals` | src/moc-2.5.0/playlist.c:365-366 | the count is right after a sort, and the times if and only if no unnamed item, which the sort loses, has one |
| `PlaylistSort.SortCovers` | src/moc-2.5.0/playlist.c:336-370 | without deleted or unnamed items the sort is a permutation and numbers the nodes 0, 1, 2, ... |
| `Playlists.PList.constructor` | src/moc-2.5.0/playlist.c:147-159 | a new list is empty and valid |
| `Playlists.PList.FindFname` | src/moc-2.5.0/playlist.c:373-385 | the linear scan's answer, and the only live item of that name |
| `Playlists.PList.Add` | src/moc-2.5.0/playlist.c:180-211 | appends the item at the returned slot; the list stays valid if and only if the name was not live |
| `Playlists.PList.AddFromItem` | src/moc-2.5.0/playlist.c:585-597 | appends a copy and keeps index, counts and times |
| `Playlists.PList.Delete` | src/moc-2.5.0/playlist.c:599-626 | marks the item, drops its tags and titles, keeps its name and node; index, counts and times stay right |
| `Playlists.PList.SetItemTime` | src/moc-2.5.0/playlist.c:703-731 | the item has the new time and the totals follow, also from and to "no time" |
| `Playlists.PList.SetTags` | src/moc-2.5.0/playlist.c:866-893 | the item has the new tags and the totals follow |
| `Playlists.PList.DiscardTags` | src/moc-2.5.0/playlist.c:850-864 | every live item loses its tags and the totals are zero, as they should be |
| `Playlists.PList.Clear` | src/moc-2.5.0/playlist.c:305-322 | empty and valid |
| `Playlists.PList.Next` | src/moc-2.5.0/playlist.c:254-265 | the first live slot after the given one |
| `Playlists.PList.Prev` | src/moc-2.5.0/playlist.c:271-282 | the last live slot before the given one; -1 for -1 |
| `Playlists.PList.Last` | src/moc-2.5.0/playlist.c:817-827 | nothing live after the result, which is live unless it is slot 0 |
| `Playlists.PList.GetTotalTime` | src/moc-2.5.0/playlist.c:748-753 | the sum of the known times; the flag says exactly that every live item has tags with a time |
| `Playlists.PList.Cat` | src/moc-2.5.0/playlist.c:686-700 | appends, in order, the live items of the other list whose name is not live by then |
| `Playlists.PList.SwapFiles` | src/moc-2.5.0/playlist.c:907-928 | the items that the index has under the two names, live or deleted, change places with their nodes; without both names nothing changes; the list stays valid |
| `Playlists.PList.FirstLive` | src/moc-2.5.0/playlist.c:348-352 | the first node, in order, of a live item |
| `Playlists.PList.CopyRest` | src/moc-2.5.0/playlist.c:354-363 | the walk with rewriting visits each node once: the copy is the live items in tree order, counted through in their nodes |
| `Playlists.PList.SortFname` | src/moc-2.5.0/playlist.c:336-370 | on any list: the live named items, strictly ascending, their nodes repointed; valid afterwards if and only if no node pointed at a deleted item and no unnamed item has a time; a permutation when all items are live and named |
| `Playlists.PList.ShuffleItems` | src/moc-2.5.0/playlist.c:776-778 | the exchanges in order, for any random slots |
| `Playlists.PList.Shuffle` | src/moc-2.5.0/playlist.c:772-784 | a permutation with an index built anew that is right |
| `Playlists.PList.SwapFirstFname` | src/moc-2.5.0/playlist.c:787-803 | the named item and the first one change places, if it is live and not first; aborts exactly when the first item has the same name; valid afterwards if and only if the first item's name is not live elsewhere |
| `Playlists.PList.NamePlaceholder` | src/moc-2.5.0/playlist.c:668-683 | names a placeholder; aborts exactly when the index already has the name, deleted items included |
| `PlaylistRuns.Perform` | src/moc-2.5.0/playlist.c:180-928 | each operation, naming a placeholder included, called as its callers do, keeps the list valid and has its effect on the items |
| `PlaylistRuns.Turn` | src/moc-2.5.0/playlist.c:686-700 | an operation on one list, or appending another list, leaves both valid although they share the sentinel |
| `PlaylistRuns.Run` | src/moc-2.5.0/playlist.c:180-928 | after any sequence of operations on two lists, each with its effect on the items as the trace shows: lookup is the scan, live names are unique, the counts and times are the totals, the sentinel is black |
| `PlaylistRuns.TurnIfAllowed` | src/moc-2.5.0/playlist.c:180-928 | a call has its effect, or none if its callers would not make it |
| `PlaylistRuns.AddedTwice` | src/moc-2.5.0/playlist.c:202-205 | a file added twice: the list is not valid |
| `PlaylistRuns.SortedStale` | src/moc-2.5.0/playlist.c:350-363 | a sort with a deleted file in the index: the list is not valid |
| `PlaylistRuns.AddDeleteAdd` | src/moc-2.5.0/playlist.c:180-211 | a run followed in full: a file is not added twice, after its deletion it is added at the end, and appending leaves the deleted entry out |
| `Fifo.FifoBuf.constructor` | src/moc-2.5.0/fifo_buf.c:23-32 | an empty buffer of the given size |
| `Fifo.FifoBuf.Put` | src/moc-2.5.0/fifo_buf.c:44-73 | appends the longest prefix that fits, across the wrap-around |
| `Fifo.FifoBuf.Peek` | src/moc-2.5.0/fifo_buf.c:77-105 | the longest available prefix, nothing removed |
| `Fifo.FifoBuf.Get` | src/moc-2.5.0/fifo_buf.c:107-133 | the longest available prefix, removed |
| `Fifo.FifoBuf.GetSpace` | src/moc-2.5.0/fifo_buf.c:136-143 | the size less what is held |
| `Fifo.FifoBuf.Clear` | src/moc-2.5.0/fifo_buf.c:157-161 | empty, from any position |
| `Fifo.WholeFrames` | src/moc-2.5.0/out_buf.c:150-158 | whole-frame puts and takes on a whole-frame buffer move whole frames |
| `IoStream.NextInv` | src/moc-2.5.0/io.c:166-621 | every step of either thread keeps: fifo, then pending block, continue the file from the user's position, or a seek is pending and both are void |
| `IoStream.RunInv` | src/moc-2.5.0/io.c:347-439 | the invariant holds in every state of every interleaving |
| `IoStream.ReadsReturnTheFile` | src/moc-2.5.0/io.c:594-621 | in every run a finished read returned the file's bytes at the user's position, at most as many as asked, and moved the position by as many |
| `IoStream.DeliveredIsContiguous` | src/moc-2.5.0/io.c:594-621 | between two seeks all reads together deliver one contiguous stretch of the file |
| `IoStream.PeeksShowTheFile` | src/moc-2.5.0/io.c:552-575 | a peek shows the file's bytes at the user's position and changes nothing; fewer than asked for only if the fifo is full, at end of file or on an abort |
| `IoStream.OnlyReadsAndSeeksMove` | src/moc-2.5.0/io.c:206-249 | only a finished read or a finished seek moves the position |
| `IoStream.SeeksGoWhereAsked` | src/moc-2.5.0/io.c:206-249 | in every interleaving a seek ends at the position plus the offset, at the offset or at the size plus the offset, as `whence` says, if that is in the file; at the end for SEEK_END with 0; and at 0 otherwise |
| `IoStream.EofRun` | src/moc-2.5.0/io.c:354-395 | in every state of every interleaving: an end-of-file flag that no seek has overtaken means that the file is read to its end and nothing is pending; after an overtaken one nothing was put or taken; blocks are at most 8096 bytes |
| `IoStream.ShortReads` | src/moc-2.5.0/io.c:594-621 | a read that returns fewer bytes than asked for, without an abort, has reached the end of the file if and only if no seek overtook the empty block behind the flag, or that seek went to the end |
| `IoStream.OvertakenExactly` | src/moc-2.5.0/io.c:385-392 | the flag is set for an overtaken block if and only if `after_seek` is set at that moment |
| `IoStream.OvertakenRead` | src/moc-2.5.0/io.c:365-392 | a run over a one-byte file in which a read at position 0 returns nothing |
| `IoStream.FlagsChange` | src/moc-2.5.0/io.c:182-187 | which steps set and clear `eof`, `after_seek` and `stop_read_thread` |
| `IoStream.AsMuchAsPossible` | src/moc-2.5.0/io.c:397-428 | the reader puts what fits and a read takes what is there and wanted; no byte is lost between them |
| `IoStream.StaleBlocksStayOut` | src/moc-2.5.0/io.c:397-428 | a byte entering the fifo comes from a block read since the last seek |
| `IoStream.FlagClearedBeforeFreshRead` | src/moc-2.5.0/io.c:358-366 | `after_seek` is cleared only by the reader, under `io_mutex`, with nothing pending and an empty fifo |
| `OutBuf.NextInv` | src/moc-2.5.0/out_buf.c:68-348 | every step of the thread and of the callers keeps the accounting of accepted, cleared and sent bytes |
| `OutBuf.RunInv` | src/moc-2.5.0/out_buf.c:68-191 | the accounting holds in every state of every interleaving |
| `OutBuf.StreamIsConserved` | src/moc-2.5.0/out_buf.c:68-300 | sent, in flight and held bytes, in this order, are the accepted ones without the cleared ones: nothing lost, doubled or reordered |
| `OutBuf.OnlyClearsDrop` | src/moc-2.5.0/out_buf.c:90-91 | only a clear drops bytes, and only bytes still in the fifo |
| `OutBuf.StoppedIsSilent` | src/moc-2.5.0/out_buf.c:318-348 | from a stop to the next reset nothing enters the fifo and nothing leaves it for the device |
| `OutBuf.StopSilences` | src/moc-2.5.0/out_buf.c:318-348 | after a stop and until the next reset, in every interleaving, nothing is accepted and nothing more is taken for the device, and the fifo is empty once the thread has come round |
| `OutBuf.PausedIsSilent` | src/moc-2.5.0/out_buf.c:302-308 | after a pause and until an unpause, a stop or a reset, in every interleaving, the buffer stays paused and nothing more is taken for the device |
| `OutBuf.FlagsChange` | src/moc-2.5.0/out_buf.c:302-348 | which calls set and clear the stop, pause and exit flags |
| `OutBuf.ResetsChange` | src/moc-2.5.0/out_buf.c:85-88 | the device is to be reset after a stop or a pause until the thread has done it or the buffer is reset, which also empties it |
| `OutBuf.ThreadPlays` | src/moc-2.5.0/out_buf.c:104-158 | the thread waits exactly when there is nothing to play, takes as much as there is and may be played at once exactly when neither paused nor stopped with the device open, and closes and reopens the device around a pause |
| `OutBuf.ExitsDrained` | src/moc-2.5.0/out_buf.c:130-138 | the thread ends only on request and then has sent every accepted byte that was not cleared |
| `OutBuf.PutsArrive` | src/moc-2.5.0/out_buf.c:265-300 | a put that is not cut short by a stop puts all its bytes in order, and nothing else is put meanwhile |
| `OutBuf.TryMoves` | src/moc-2.5.0/out_buf.c:276-294 | a try puts what fits, and gives up exactly when stopped |
| `OutBuf.BlocksAreWholeFrames` | src/moc-2.5.0/out_buf.c:150-158 | with whole-frame puts into a whole-frame buffer, every block taken for the device is whole frames |
| `Md5Spec.BlocksConcat` | src/moc-2.5.0/md5.c:311-467 | processing two stretches of whole blocks is processing their concatenation |
| `Md5Vectors.EmptyDigest` | src/moc-2.5.0/md5.c:77-135 | the digest of the empty message is d41d8cd98f00b204e9800998ecf8427e |
| `Md5Vectors.AbcDigest` | src/moc-2.5.0/md5.c:77-135 | the digest of "abc" is 900150983cd24fb0d6963f7d28e17f72 |
| `Md5Vectors.EmptyState` | src/moc-2.5.0/md5.c:311-467 | the 64 steps on the one padded block of the empty message, with every word between |
| `Md5Vectors.AbcState` | src/moc-2.5.0/md5.c:311-467 | the 64 steps on the one padded block of "abc", with every word between |
| `Md5Rounds.FFIsF` | src/moc-2.5.0/md5.c:301-302 | the optimised FF is the function F of section 3.4 of RFC 1321, for all words |
| `Md5Rounds.FGIsG` | src/moc-2.5.0/md5.c:303-303 | FG is the function G |
| `Md5Rounds.MacroIsRfc` | src/moc-2.5.0/md5.c:301-305 | in each round the macro is the function of section 3.4 |
| `Md5Rounds.OpIsStep` | src/moc-2.5.0/md5.c:346-399 | one OP is one step of the schedule, with the registers in their changed roles |
| `Md5Rounds.Block` | src/moc-2.5.0/md5.c:331-460 | the 64 written-out OPs are the block function of section 3.4 |
| `Md5.LengthWords` | src/moc-2.5.0/md5.c:126-127 | the bytes of `total[0] << 3` and `(total[1] << 3) | (total[0] >> 29)`, on 32-bit words, are the length in bits of section 3.2 |
| `Md5.OrIsPlus` | src/moc-2.5.0/md5.c:127-127 | the two operands of the `|` have no bit in common |
| `Md5.NothingLost` | src/moc-2.5.0/md5.c:325-327 | the double word increment is right if and only if it adds less than 2^32 bytes, or less than 2^33 without an overflow of the low word |
| `Md5.LengthIsRight` | src/moc-2.5.0/md5.c:126-127 | a count short by some bytes gives the right length if and only if they are a multiple of 2^61 |
| `Md5.FinalBlocks` | src/moc-2.5.0/md5.c:114-135 | closing the pending bytes gives the state of the whole padded message |
| `Md5.Context.constructor` | src/moc-2.5.0/md5.c:77-86 | a new context holds the empty message, whose digest `Md5Vectors.EmptyDigest` gives |
| `Md5.Context.AddTotal` | src/moc-2.5.0/md5.c:325-327 | for any number of bytes, the two-word count modulo 2^64, less exactly what a carry of at most one loses |
| `Md5.Context.ProcessBlock` | src/moc-2.5.0/md5.c:311-467 | absorbs any number of whole blocks; counts their bytes but for that loss |
| `Md5.Context.TopUp` | src/moc-2.5.0/md5.c:235-256 | a non-empty buffer is filled up, drained of whole blocks and still at most 64 long |
| `Md5.Context.WholeBlocks` | src/moc-2.5.0/md5.c:259-278 | either alignment path absorbs the same bytes and leaves at most 64 |
| `Md5.Context.Remainder` | src/moc-2.5.0/md5.c:281-294 | what is left goes to the buffer, at most 64 bytes |
| `Md5.Context.ProcessBytes` | src/moc-2.5.0/md5.c:231-295 | for any number of bytes and either alignment the context holds the message so far, `buflen` at most 64; the count loses only on the aligned path and exactly so much |
| `Md5.Context.CloseBuffer` | src/moc-2.5.0/md5.c:118-129 | the buffer ends in the padding and the length of sections 3.1 and 3.2, in one block or two |
| `Md5.Context.Finish` | src/moc-2.5.0/md5.c:114-135 | the digest of everything fed in, with the length that was counted |
| `Md5.SmallChunks` | src/moc-2.5.0/md5.c:258-278 | nothing is lost if every aligned chunk is less than 2^32 bytes |
| `Md5.JoinedInOrder` | src/moc-2.5.0/md5.c:231-295 | the whole message is its chunks one after the other |
| `Md5.Stream` | src/moc-2.5.0/md5.c:77-295 | for every cutting into chunks and every alignment, the digest of the whole message with the counted length; the right one if every aligned chunk is less than 2^32 bytes |
| `Md5.Buffer` | src/moc-2.5.0/md5.c:215-227 | the one-shot digest; the counted length is right if and only if the data is unaligned or less than 2^33 bytes |
| `Md5.LongBuffer` | src/moc-2.5.0/md5.c:325-327 | 2^33 aligned bytes in one call: the length at the end is wrong |
| `Getopt.ParsePermutes` | src/moc-2.5.0/getopt.c:331-409 | the reference parse loses and doubles nothing |
| `Getopt.StablePartition` | src/moc-2.5.0/getopt.c:331-409 | options with their arguments, and the rest, are the elements of argv at two complementary increasing lists of places |
| `Getopt.RestIsNonOptions` | src/moc-2.5.0/getopt.c:381-409 | the rest is non-options, followed by everything after the `--` that the scan met; the options end in that `--` |
| `Getopt.Declared` | src/moc-2.5.0/getopt.c:568-595 | a letter of the option string without a colon takes no argument, with one it needs one, with two it may have one |
| `Getopt.SeparateArgument` | src/moc-2.5.0/getopt.c:617-640 | `-c arg` with `c:` yields c with the argument; both elements go to the options |
| `Getopt.AttachedArgument` | src/moc-2.5.0/getopt.c:598-616 | `-carg` with `c:` or `c::` yields c with the argument |
| `Getopt.OptionalAlone` | src/moc-2.5.0/getopt.c:595-606 | `-c` with `c::` yields c without argument and leaves the next element alone |
| `Getopt.MissingArgument` | src/moc-2.5.0/getopt.c:617-635 | `-c` at the end with `c:` yields `:` if the option string starts with one, else `?` |
| `Getopt.PlainOption` | src/moc-2.5.0/getopt.c:566-593 | an option without argument yields itself and the rest of its element follows |
| `Getopt.UnknownOption` | src/moc-2.5.0/getopt.c:575-592 | a character that is no option, or a colon, yields `?` and the rest of its element follows |
| `Getopt.PassedOver` | src/moc-2.5.0/getopt.c:370-409 | exactly elements of a dash and more are looked into; the empty one, `-` and words are passed over to the rest; `--` ends the scan |
| `Getopt.Scanner.Exchange` | src/moc-2.5.0/getopt.c:235-255 | two adjacent blocks trade places, each in its own order |
| `Getopt.Scanner.Settle` | src/moc-2.5.0/getopt.c:362-365 | the options just passed stand in front of the skipped non-options |
| `Getopt.Scanner.SkipNonOptions` | src/moc-2.5.0/getopt.c:367-378 | the scan stands at the next option, `--` or the end |
| `Getopt.Scanner.EndOfOptions` | src/moc-2.5.0/getopt.c:386-397 | `--` goes with the options and all after it is rest |
| `Getopt.Scanner.Advance` | src/moc-2.5.0/getopt.c:355-409 | finds the next cluster, or ends with argv partitioned and `optind` at the rest |
| `Getopt.Scanner.Decode` | src/moc-2.5.0/getopt.c:568-643 | one option character, with its attached, separate, optional or missing argument, as the reference parse has it; `optopt` on `?` and `:` |
| `Getopt.Scanner.Call` | src/moc-2.5.0/getopt.c:314-643 | a resumed call yields the next outcome of the reference parse and keeps the place |
| `Getopt.Scan` | src/moc-2.5.0/getopt.c:314-643 | calls until the end: argv is the program, the options of the reference parse, and its rest; `optind` is the boundary and the outcomes are those of the parse |
| `PlayOrder.CountIsLive` | src/moc-2.5.0/playlist.c:629-634 | the cached count is the number of live entries |
| `PlayOrder.ListedOnce` | src/moc-2.5.0/audio.c:1047-1055 | a valid list names each live file once, the queue among them |
| `PlayOrder.ProgrammeFrom` | src/moc-2.5.0/audio.c:319-412 | after the queue the programme goes on at the next live slot and plays all live entries from there |
| `PlayOrder.PlaysTheRest` | src/moc-2.5.0/audio.c:319-412 | with an empty queue, playing from a live entry plays exactly the live entries from there on if and only if no left-over flag or return file says otherwise |
| `PlayOrder.ReturnsBehind` | src/moc-2.5.0/audio.c:319-402 | after the queue the list goes on behind the file from which the queue was entered, if QueueNextSongReturn is set or the last queued file is not in the list |
| `PlayOrder.ReturnsLater` | src/moc-2.5.0/audio.c:319-402 | the same from the middle of the queue |
| `PlayOrder.GoesOnBehindLast` | src/moc-2.5.0/audio.c:345-402 | without QueueNextSongReturn it goes on behind the file played last, if that is in the list |
| `PlayOrder.StartsOver` | src/moc-2.5.0/audio.c:348-386 | if neither file is in the list, the whole list is played |
| `PlayOrder.StepsBack` | src/moc-2.5.0/audio.c:356-375 | the step back goes to the last live entry before; from the first, when repeating, to the last of all |
| `PlayOrder.NextRank` | src/moc-2.5.0/audio.c:376-402 | the next live entry is one place further among the live ones, and the first follows the last |
| `PlayOrder.StartedInQueue` | src/moc-2.5.0/audio.c:548-557 | a run begun in the queue plays the queue and then the whole list |
| `PlayOrder.ConcatenatedLive` | src/moc-2.5.0/playlist.c:686-700 | appending a list to an empty one copies its live entries |
| `PlayOrder.LiveNamesPermuted` | src/moc-2.5.0/audio.c:559-562 | the names of a list do not depend on its order |
| `PlayOrder.SwappedMixed` | src/moc-2.5.0/audio.c:337-339 | moving a name of a freshly shuffled list to the front never aborts, keeps the list a permutation and puts the name first |
| `PlayOrder.ShufflePlaysAll` | src/moc-2.5.0/audio.c:558-571 | with Shuffle, playing from a file plays each live entry exactly once, that file first |
| `PlayLoop.Player.constructor` | src/moc-2.5.0/audio.c:963-965 | a player with empty shuffled list and no flag set |
| `PlayLoop.Player.PlistAdd` | src/moc-2.5.0/audio.c:1036-1045 | adds a file that is not live; the shuffled list is emptied, the player stays valid |
| `PlayLoop.Player.PlistDelete` | src/moc-2.5.0/audio.c:1105-1118 | deletes from both lists, which stay in step |
| `PlayLoop.Player.PlistClear` | src/moc-2.5.0/audio.c:1057-1063 | both lists are empty |
| `PlayLoop.Player.QueueAdd` | src/moc-2.5.0/audio.c:1047-1055 | adds a file that is not queued |
| `PlayLoop.Player.Fill` | src/moc-2.5.0/audio.c:334-335 | the shuffled list becomes a permutation of the live entries of the playlist, for all random numbers |
| `PlayLoop.Player.Reshuffle` | src/moc-2.5.0/audio.c:390-392 | the same after emptying it, while the other lists stay valid |
| `PlayLoop.Player.ChooseList` | src/moc-2.5.0/audio.c:329-343 | the playlist, or the shuffled list, filled with the current file first if it was empty and is needed |
| `PlayLoop.Player.PopQueue` | src/moc-2.5.0/audio.c:313-317 | takes the first queued file and leaves the others |
| `PlayLoop.Player.FindPosition` | src/moc-2.5.0/audio.c:323-354 | the position, in the list chosen, of the current file or, failing that, of the file played before the queue |
| `PlayLoop.Player.StepForward` | src/moc-2.5.0/audio.c:376-402 | the next live slot; when repeating, the first follows the last and a shuffled list is mixed again |
| `PlayLoop.Player.StepBack` | src/moc-2.5.0/audio.c:356-375 | the previous live slot, with the last preceding the first when repeating |
| `PlayLoop.Player.RepeatGoesOn` | src/moc-2.5.0/audio.c:388-396 | with Repeat on a run over a list that is not empty does not end by itself |
| `PlayLoop.Player.QueueThenShuffle` | src/moc-2.5.0/audio.c:329-341 | with Shuffle a run begun in the queue plays the queue and then each live entry once |
| `PlayLoop.Player.WentFrom` | src/moc-2.5.0/audio.c:356-407 | from the entry that is played, with the queue used up: back on request, forward on request or with AutoNext, round when repeating, else the same file again or the end |
| `PlayLoop.Player.PlayRound` | src/moc-2.5.0/audio.c:388-396 | with Repeat the i-th file played is i places after the first, counted around the live entries, for runs of any length |
| `PlayLoop.Player.GoToAnotherFile` | src/moc-2.5.0/audio.c:295-416 | the next file for every combination of requests, AutoNext, Repeat, Shuffle and QueueNextSongReturn |
| `PlayLoop.Player.PlayOne` | src/moc-2.5.0/audio.c:422-478 | a turn plays the current file; a stop ends the run and leaves lists and flags as they are, any other request or none goes on accordingly |
| `PlayLoop.Player.Turn` | src/moc-2.5.0/audio.c:422-478 | with AutoNext on or the next file asked for: the run stays in its programme, and the measure (queued files, list not reached, slots left) falls |
| `PlayLoop.Player.StopTurn` | src/moc-2.5.0/audio.c:469-475 | a stop ends the run at this file and leaves the queue and the flags as they are |
| `PlayLoop.Player.LastTurn` | src/moc-2.5.0/audio.c:403-411 | with AutoNext off and nothing asked for the run ends at this file; the queue stays, the return file is forgotten |
| `PlayLoop.HaltIs` | src/moc-2.5.0/audio.c:298-298 | the file at which requests and AutoNext end a run is the first at which it does not go on |
| `PlayLoop.Player.PlayThread` | src/moc-2.5.0/audio.c:418-493 | every run with Repeat off ends, for any sequence of requests but the previous file; it plays the file, the queue in order, and the live entries from where the list goes on, all of it or up to the file at which it is stopped or not made to go on, and leaves the queue and the flags as stated |
| `PlayLoop.Player.AudioPlay` | src/moc-2.5.0/audio.c:536-583 | what a start from a name, or from nothing, begins with and plays, with or without Shuffle and whatever an earlier run left; an unknown name plays nothing and leaves the queue |
| `PlayLoop.StopThenPlay` | src/moc-2.5.0/audio.c:469-475 | queue [q], playlist [a, b]: a run begun in the queue and stopped there makes the next one, from b, play [b, a, b] |
| `PlayLoop.LeftoverRun` | src/moc-2.5.0/audio.c:469-475 | such a run, from newly built lists |
| `PlayLoop.StopThenReturn` | src/moc-2.5.0/audio.c:469-475 | playlist [a, b, c], queue [q], QueueNextSongReturn: a run from a stopped in q makes the next one, from c, play [c, b, c] |
| `OptionTable.Hash` | src/moc-2.5.0/options.c:65-72 | djb2 of the lower-case characters on 32 bits |
| `OptionTable.HashIsDjb2` | src/moc-2.5.0/options.c:65-72 | the hash is djb2 over unlimited numbers, taken modulo 2^32 at the end |
| `OptionTable.HashValues` | src/moc-2.5.0/options.c:65-72 | the hashes of the empty name, of "a" and "A", and of a character from 128 on |
| `OptionTable.MaskIs` | src/moc-2.5.0/options.h:10-16 | the five kinds are told apart and the mask for any kind accepts them all |
| `OptionTable.HashIgnoresCase` | src/moc-2.5.0/options.c:65-72 | names equal up to case have the same hash |
| `OptionTable.NotFound` | src/moc-2.5.0/options.c:76-95 | a probe that met no match up to a free slot, or all around, proves the name absent |
| `OptionTable.AddKeeps` | src/moc-2.5.0/options.c:272-292 | filling the first free slot in probe order keeps every stored name reachable |
| `OptionTable.Table.FindOption` | src/moc-2.5.0/options.c:76-95 | the slot that the map gives if the mask matches, else -1; with wrap-around, early stop and a full table |
| `OptionTable.Table.FindFree` | src/moc-2.5.0/options.c:99-115 | the first free slot in probe order, -1 only for a full table |
| `OptionTable.Table.InitOption` | src/moc-2.5.0/options.c:272-292 | within capacity a slot is found; the map gains the folded name and keeps the others |
| `OptionTable.Build` | src/moc-2.5.0/options.c:76-292 | after entering any names distinct up to case, up to 181, a lookup finds a slot with that name and an accepted kind if and only if one was entered, and agrees with the map from folded names to slots |
| `WireFormat.IntRoundTrip` | src/moc-2.5.0/protocol.c:57-66 | an int survives its four bytes |
| `WireFormat.TimeRoundTrip` | src/moc-2.5.0/protocol.c:186-195 | a time survives its eight bytes |
| `WireFormat.ReadsText` | src/moc-2.5.0/protocol.c:136-169 | a string is read back if and only if it is within MAX_SEND_STRING and no delivery ends inside its length; otherwise refused |
| `WireFormat.ReadsTags` | src/moc-2.5.0/protocol.c:354-409 | tags are read back in canonical form if and only if their strings are within the limit and no delivery ends inside a number |
| `WireFormat.ReadsItem` | src/moc-2.5.0/protocol.c:430-477 | an item is read back in canonical form if and only if it has a name, its strings are within the limit and no delivery ends inside a number |
| `WireFormat.EventRoundTrip` | src/moc-2.5.0/protocol.c:655-698 | an event arrives in canonical form, with nothing read beyond it, if and only if its strings are within the limit, its item has a name and no delivery ends inside a field of fixed width |
| `WireFormat.StreamRoundTrip` | src/moc-2.5.0/interface.c:207-251 | concatenated packets, in any deliveries, read back as the same sequence in canonical form if and only if each can be sent and no delivery ends inside a field of fixed width |
| `WireFormat.IntactFieldwise` | src/moc-2.5.0/protocol.c:57-66 | that condition, field by field |
| `WireFormat.WholePacketsArrive` | src/moc-2.5.0/protocol.c:655-698 | deliveries of whole packets always meet it |
| `WireFormat.CutInsideALength` | src/moc-2.5.0/protocol.c:142-143 | a delivery that ends inside the length of a string: the event is lost |
| `WireFormat.CanonReencodes` | src/moc-2.5.0/protocol.c:277-308 | re-encoding what arrived gives the same bytes; a second transfer changes nothing more |
| `WirePackets.IntBytes` | src/moc-2.5.0/protocol.c:241-248 | an int is four bytes, low-order byte first, in two's complement |
| `WirePackets.TimeBytes` | src/moc-2.5.0/protocol.c:267-274 | a time is eight bytes, the low-order half first |
| `WirePackets.TimeBit` | src/moc-2.5.0/protocol.c:286-286 | a time counts as filled in exactly when bit 2 of `filled` is set |
| `WirePackets.TagsArrive` | src/moc-2.5.0/protocol.c:354-409 | which tags arrive unchanged: text unless empty, a time that is filled in, track and flags |
| `WirePackets.DataArrives` | src/moc-2.5.0/protocol.c:430-477 | what arrives of an item and of the other data |
| `WirePackets.LongestText` | src/moc-2.5.0/protocol.c:136-169 | text of up to 4096 bytes is received, longer text is not |
| `WirePackets.OddText` | src/moc-2.5.0/protocol.c:136-169 | a negative or too large length is refused, and text ends at a zero byte |
| `WirePackets.KindsCarry` | src/moc-2.5.0/protocol.c:655-698 | which numbers of events carry text, an item, tags, two names or nothing |
| `WirePackets.TextPacket` | src/moc-2.5.0/protocol.c:663-671 | the nine bytes of the deletion of "a" |
| `WirePackets.MovePacket` | src/moc-2.5.0/protocol.c:685-693 | the bytes of a move from "a" to "b" |
| `WirePackets.TagsPacket` | src/moc-2.5.0/protocol.c:676-684 | the bytes of tags for a file |
| `WirePackets.ItemPacket` | src/moc-2.5.0/protocol.c:302-308 | the bytes of an item with title, tags and a time of change above 2^32 |
| `WirePackets.BarePacket` | src/moc-2.5.0/protocol.c:661-663 | the bytes of an event without data |
| `Protocol.PacketBuf.AddSpace` | src/moc-2.5.0/protocol.c:230-238 | room for the new bytes, contents kept |
| `Protocol.PacketBuf.AddStr` | src/moc-2.5.0/protocol.c:251-264 | appends length and characters |
| `Protocol.PacketBuf.AddTags` | src/moc-2.5.0/protocol.c:277-299 | appends the tags, or empty ones |
| `Protocol.PacketBuf.AddItem` | src/moc-2.5.0/protocol.c:302-308 | appends the fields of an item that are sent |
| `Protocol.MakeEventPacket` | src/moc-2.5.0/protocol.c:655-698 | the packet of an event is its encoding |
| `Protocol.Socket.Recv` | src/moc-2.5.0/protocol.c:61-61 | some bytes if there are any, never from beyond the end of a delivery |
| `Protocol.Socket.GetInt` | src/moc-2.5.0/protocol.c:57-66 | one `recv`; fails unless it returns all four bytes |
| `Protocol.Socket.GetTime` | src/moc-2.5.0/protocol.c:186-195 | one `recv`; fails unless it returns all eight bytes |
| `Protocol.Socket.GetStr` | src/moc-2.5.0/protocol.c:136-169 | the length in one piece, the characters in any pieces: reads and refuses what the decoder does |
| `Protocol.Socket.RecvTags` | src/moc-2.5.0/protocol.c:354-409 | reads or fails as the decoder does |
| `Protocol.Socket.RecvItem` | src/moc-2.5.0/protocol.c:430-477 | reads or fails as the decoder does; an empty name ends the item |
| `Protocol.Socket.GetEventData` | src/moc-2.5.0/interface.c:232-251 | the receiver that belongs to each event type |
| `Protocol.Receive` | src/moc-2.5.0/interface.c:207-251 | receives what the decoder reads, or gives up where it fails |
| `Protocol.Transfer` | src/moc-2.5.0/protocol.c:655-698 | packing events and receiving them in any deliveries gives their canonical forms if and only if each can be sent and no delivery ends inside a field of fixed width |
| `Basics.AbsentIs` | src/moc-2.5.0/decoder.c:588-592 | the unlisted plugins, each once, in increasing index |
| `Basics.FoldsTogether` | src/moc-2.5.0/decoder.c:358-358 | names are equal for `strcasecmp` exactly when they differ at most in the case of ASCII letters |
| `Decoder.LookupFrom` | src/moc-2.5.0/decoder.c:350-364 | the first plugin whose name is equal up to case, or their number if there is none |
| `Decoder.NamedInOrder` | src/moc-2.5.0/decoder.c:571-581 | the list holds exactly the plugins that are named, in the order in which they are first named |
| `Decoder.AsteriskIs` | src/moc-2.5.0/decoder.c:571-581 | the unnamed plugins go behind those named before the first asterisk |
| `Decoder.RotatedAt` | src/moc-2.5.0/decoder.c:594-599 | where each decoder named after the asterisk ends up |
| `Decoder.AllPluginsOnce` | src/moc-2.5.0/decoder.c:562-602 | with an asterisk the list holds every plugin exactly once |
| `Decoder.TailKeepsOrder` | src/moc-2.5.0/decoder.c:594-599 | in the list that is loaded, the decoders named after the asterisk keep their order if and only if there is at most one or the number of unnamed plugins is a multiple of their number |
| `Decoder.TailReordered` | src/moc-2.5.0/decoder.c:594-599 | an input whose tail is reordered |
| `Decoder.Preference.IsListed` | src/moc-2.5.0/decoder.c:519-536 | says whether the plugin is in the list |
| `Decoder.Preference.LoadEach` | src/moc-2.5.0/decoder.c:539-559 | appends a known decoder that is not listed yet |
| `Decoder.Preference.LoadNamed` | src/moc-2.5.0/decoder.c:571-581 | the named decoders in order, and the place of the first asterisk |
| `Decoder.Preference.FindUnlisted` | src/moc-2.5.0/decoder.c:586-592 | the plugins not listed, in increasing index |
| `Decoder.Preference.Splice` | src/moc-2.5.0/decoder.c:594-599 | head, unnamed plugins, and the tail rotated left by their number |
| `Decoder.Preference.Load` | src/moc-2.5.0/decoder.c:562-602 | the list is the specified one, with and without an asterisk |
| `Bitrate.PrunedAnswers` | src/moc-2.5.0/player.c:195-221 | dropping changes before one already reached changes no later answer |
| `Bitrate.AnswersTheLast` | src/moc-2.5.0/player.c:159-221 | the full history gives, for additions at increasing times, the bitrate added last at or before the time asked for since the seek |
| `Bitrate.AnswersTheFirst` | src/moc-2.5.0/player.c:195-221 | before the first addition since the seek it gives the first bitrate |
| `Bitrate.BitrateList.constructor` | src/moc-2.5.0/player.c:116-123 | an empty list |
| `Bitrate.BitrateList.Empty` | src/moc-2.5.0/player.c:125-144 | an empty list again |
| `Bitrate.BitrateList.Add` | src/moc-2.5.0/player.c:159-193 | the list stays what is left of the history with the change added, times increasing and neighbours differing |
| `Bitrate.BitrateList.Get` | src/moc-2.5.0/player.c:195-221 | the answer of the full history: the last change by then, or the first one |
| `Bitrate.Replay` | src/moc-2.5.0/player.c:159-221 | over every sequence of additions, lookups and seeks, the times nondecreasing between seeks, all answers are those of the unpruned history, which is strictly increasing with differing neighbours |

## Left out

- `IoStream`: the two threads are a state machine over values, not objects under locks; mmap and curl sources, read errors and failing seeks are not modelled.
- `OutBuf`: a state machine over values in the same way; the hardware time (a `float`), the free callback and the wait of `out_buf_wait` are not modelled.
- `Md5.Stream`: that a wrong length gives a wrong digest is not claimed, since digests can collide; `md5_stream` and big-endian byte swapping are not modelled.
- `Getopt.Scan`: long options, the `W;` extension, the orderings REQUIRE_ORDER and RETURN_IN_ORDER, POSIXLY_CORRECT and error messages are not modelled.
- `PlayLoop.Player.GoToAnotherFile`: the file given to the player for pre-caching, and the messages to clients, are not modelled.
- `PlayLoop.Player.PlayThread`: whole runs are described for Repeat off and without requests for the previous file, with which a run need not end (for Repeat without Shuffle and queue see `PlayLoop.Player.PlayRound`); every entry has a name, as entries of the server's lists do (on an unnamed live entry the loop would come back to it for ever).
- `Playlists.PList.SortFname`: a list whose live items all lack a name is excluded, on which the C code runs off the end of the tree.
- `Playlists.PList.Shuffle`: all items are named and the names distinct, since the C code aborts otherwise.
- `Playlists.PList.NamePlaceholder`: the rest of `plist_set_file`, renaming a named item, is not modelled.
- `Playlists.PList.SwapFirstFname`: needs a name on the first item if it is to move, which the C code asserts.
- `Protocol.MakeEventPacket`: events whose data do not belong to their type, on which the C code aborts, and strings of 2^31 bytes or more are excluded.
- `protocol.c`: the event queue, which is a plain linked queue, and the non-blocking variants.
- `playlist.c`: title expansion, serial numbers, `plist_get_position`, `plist_remove_common_items` and the searches for dead entries; `playlist_file.c`.
- Overflow of the `int` totals, counts and positions; memory allocation, `free`, logging, locale and the error codes of pthreads.
- The daemon, socket, cron and JACK code outside `src/moc-2.5.0`, the terminal interface, the output drivers, sample conversion and the equalizer.
