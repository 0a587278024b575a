/** `io.c`: the buffered read-ahead of a seekable file.  A reader thread copies blocks of
    the file into the fifo; one user thread reads, peeks and seeks.

    A state is what the two threads share plus where each of them stands; a step is what
    one thread does between two points at which it takes or gives up a mutex or waits.
    The sections under `buf_mutex` alone are single steps; `io_mutex` is held across
    steps and has an owner. */
module IoStream {
  import opened Basics
  import opened Fifo

  datatype Owner = Nobody | ByReader | ByUser

  /** Where `io_read_thread` stands. */
  datatype ReaderAt =
    | LoopTop                          // before taking io_mutex
    | HasIo                            // has io_mutex
    | FlagCleared                      // has io_mutex, after_seek is 0
    | BlockRead(block: seq<Byte>)      // has io_mutex, the block is read
    | BlockHeld(block: seq<Byte>)      // gave up io_mutex
    | Putting(rest: seq<Byte>)         // in the inner loop, or waiting there for space
    | WaitAtEof
    | Gone

  /** Where the user thread stands. */
  datatype UserAt =
    | Idle
    | SeekHasIo(target: nat)           // in io_seek, has io_mutex
    | SeekMoved(target: nat)           // the file offset is set, the fifo is not cleared yet
    | SeekCleared(target: nat)         // the fifo is cleared, the position is not set yet
    | Reading(count: nat, got: seq<Byte>)

  datatype Whence = Set | Cur | End

  datatype Config = Config(file: seq<Byte>, size: nat)

  /** `epoch` counts the seeks that cleared the fifo, `blockEpoch` is the value it had
      when the reader's block was read, `eofEpoch` the `blockEpoch` of the empty block for
      which `eof` was set last; the program has no such counters. */
  datatype State = State(fd: nat, fifo: seq<Byte>, afterSeek: bool, eof: bool, stop: bool, pos: nat,
                         io: Owner, reader: ReaderAt, user: UserAt, epoch: nat, blockEpoch: nat, eofEpoch: nat)

  datatype Step =
    | ReaderLock | ReaderClearFlag | ReaderRead(n: nat) | ReaderUnlock
    | ReaderEof | ReaderWake | ReaderStart | ReaderPut | ReaderEnd | ReaderQuit
    | SeekLock(offset: int, whence: Whence) | SeekMove | SeekClear | SeekDone
    | ReadStart(count: nat) | ReadTake | ReadEnd | PeekAt(count: nat)
    | Abort

  const READ_BUF := 8096

  predicate Init(s: State) {
    s == State(0, [], false, false, false, 0, Nobody, LoopTop, Idle, 0, 0, 0)
  }

  /** The position `io_seek` goes to: out-of-range requests go to the start. */
  function SeekTarget(size: nat, pos: nat, offset: int, whence: Whence): nat {
    match whence
    case Set => if 0 <= offset < size then offset else 0
    case Cur => if 0 <= pos + offset < size then pos + offset else 0
    case End => if offset == 0 || 0 <= size + offset < size then size + offset else 0
  }

  /** `s'` is what `step` makes of `s`. */
  predicate Next(c: Config, s: State, step: Step, s': State) {
    match step
    case ReaderLock =>
      s.reader.LoopTop? && !s.stop && s.io.Nobody? &&
      s' == s.(io := ByReader, reader := HasIo)
    case ReaderClearFlag =>
      s.reader.HasIo? &&
      s' == s.(afterSeek := false, reader := FlagCleared)
    case ReaderRead(n) =>  // a short read is any n; 0 only at the end of the file
      s.reader.FlagCleared? && n <= READ_BUF && s.fd + n <= |c.file| && (n == 0 ==> s.fd == |c.file|) &&
      s' == s.(fd := s.fd + n, reader := BlockRead(c.file[s.fd..s.fd + n]), blockEpoch := s.epoch)
    case ReaderUnlock =>
      s.reader.BlockRead? &&
      s' == s.(io := Nobody, reader := BlockHeld(s.reader.block))
    case ReaderEof =>
      s.reader.BlockHeld? && !s.stop && s.reader.block == [] &&
      s' == s.(eof := true, reader := WaitAtEof, eofEpoch := s.blockEpoch)
    case ReaderWake =>
      s.reader.WaitAtEof? &&
      s' == s.(reader := LoopTop)
    case ReaderStart =>
      s.reader.BlockHeld? && !s.stop && s.reader.block != [] &&
      s' == s.(eof := false, reader := Putting(s.reader.block))
    case ReaderPut =>  // one turn of the inner loop; nothing fits when the fifo is full
      s.reader.Putting? && !s.afterSeek && s.reader.rest != [] && |s.fifo| <= c.size &&
      var n := Fits(c.size, s.fifo, s.reader.rest);
      s' == s.(fifo := s.fifo + s.reader.rest[..n], reader := Putting(s.reader.rest[n..]))
    case ReaderEnd =>
      s.reader.Putting? && (s.afterSeek || s.reader.rest == []) &&
      s' == s.(reader := LoopTop)
    case ReaderQuit =>
      s.stop && (s.reader.LoopTop? || s.reader.BlockHeld? || s.reader.Putting?) &&
      s' == s.(reader := Gone)
    case SeekLock(offset, whence) =>
      s.user.Idle? && s.io.Nobody? &&
      s' == s.(io := ByUser, user := SeekHasIo(SeekTarget(|c.file|, s.pos, offset, whence)))
    case SeekMove =>
      s.user.SeekHasIo? &&
      s' == s.(fd := s.user.target, user := SeekMoved(s.user.target))
    case SeekClear =>
      s.user.SeekMoved? &&
      s' == s.(fifo := [], afterSeek := true, eof := false, epoch := s.epoch + 1, user := SeekCleared(s.user.target))
    case SeekDone =>
      s.user.SeekCleared? &&
      s' == s.(pos := s.user.target, io := Nobody, user := Idle)
    case ReadStart(count) =>
      s.user.Idle? &&
      s' == s.(user := Reading(count, []))
    case ReadTake =>
      s.user.Reading? && |s.user.got| < s.user.count && !s.stop && s.fifo != [] &&
      var n := Min(s.user.count - |s.user.got|, |s.fifo|);
      s' == s.(fifo := s.fifo[n..], user := Reading(s.user.count, s.user.got + s.fifo[..n]))
    case ReadEnd =>
      s.user.Reading? && (|s.user.got| >= s.user.count || s.stop || (s.eof && s.fifo == [])) &&
      s' == s.(pos := s.pos + |s.user.got|, user := Idle)
    case PeekAt(count) =>  // waits until there is enough, the fifo is full or nothing more comes
      s.user.Idle? && (count <= |s.fifo| || |s.fifo| >= c.size || s.eof || s.stop) && s' == s
    case Abort =>
      s' == s.(stop := true)
  }

  /** What `io_peek_internal` returns in state `s`. */
  function Peeked(s: State, count: nat): seq<Byte> {
    s.fifo[..Min(count, |s.fifo|)]
  }

  // ----- what every step keeps

  /** What the reader holds that is not in the fifo yet. */
  function Pending(s: State): seq<Byte> {
    match s.reader
    case BlockRead(b) => b
    case BlockHeld(b) => b
    case Putting(r) => r
    case _ => []
  }

  /** The file position of the next byte the user will get. */
  function UserPos(s: State): nat {
    match s.user
    case SeekCleared(target) => target
    case Reading(_, got) => s.pos + |got|
    case _ => s.pos
  }

  predicate Piece(file: seq<Byte>, at: nat, data: seq<Byte>) {
    at + |data| <= |file| && data == file[at..at + |data|]
  }

  predicate Owners(s: State) {
    && (s.io.ByReader? <==> s.reader.HasIo? || s.reader.FlagCleared? || s.reader.BlockRead?)
    && (s.io.ByUser? <==> s.user.SeekHasIo? || s.user.SeekMoved? || s.user.SeekCleared?)
  }

  /** The fifo and then the pending block continue the file from the user's position,
      and the file offset is behind them; after a seek there is nothing in the fifo
      and the pending block is stale. */
  predicate Aligned(c: Config, s: State) {
    if s.afterSeek then
      s.fifo == [] && s.fd == UserPos(s)
    else
      && Piece(c.file, UserPos(s), s.fifo + Pending(s))
      && (!s.reader.Gone? ==> s.fd == UserPos(s) + |s.fifo| + |Pending(s)|)
  }

  predicate Inv(c: Config, s: State) {
    && Owners(s)
    && |s.fifo| <= c.size
    && UserPos(s) <= |c.file| && s.fd <= |c.file| && s.pos <= |c.file|
    && (s.user.Reading? ==> Piece(c.file, s.pos, s.user.got))
    && (s.user.SeekHasIo? || s.user.SeekMoved? ==> s.user.target <= |c.file|)
    && (if s.user.SeekMoved? then s.fd == s.user.target else Aligned(c, s))
    && (s.reader.FlagCleared? || s.reader.BlockRead? ==> !s.afterSeek)
    && (!s.afterSeek && (s.reader.BlockRead? || s.reader.BlockHeld? || s.reader.Putting?) ==> s.blockEpoch == s.epoch)
  }

  lemma InitInv(c: Config, s: State)
    requires Init(s)
    ensures Inv(c, s)
  {}

  lemma PieceJoin(file: seq<Byte>, at: nat, a: seq<Byte>, b: seq<Byte>)
    ensures Piece(file, at, a + b) <==> Piece(file, at, a) && Piece(file, at + |a|, b)
    ensures Piece(file, at, a) ==> at + |a| <= |file|
  {
    if Piece(file, at, a + b) {
      assert a == (a + b)[..|a|] && b == (a + b)[|a|..];
    }
  }

  lemma ReaderKeeps(c: Config, s: State, step: Step, s': State)
    requires Inv(c, s) && Next(c, s, step, s')
    requires
      || step.ReaderLock? || step.ReaderClearFlag? || step.ReaderUnlock?
      || step.ReaderEof? || step.ReaderWake? || step.ReaderStart?
    ensures Inv(c, s')
  {
    hide Piece, SeekTarget;
    NothingIsAPiece(c, UserPos(s));
    assert s'.fifo == s.fifo && Pending(s') == Pending(s) && UserPos(s') == UserPos(s);
    if step.ReaderClearFlag? && s.afterSeek { assert s.fifo + Pending(s) == []; }
  }

  lemma ReadKeeps(c: Config, s: State, n: nat, s': State)
    requires Inv(c, s) && Next(c, s, ReaderRead(n), s')
    ensures Inv(c, s')
  {
    hide Piece, SeekTarget;
    assert s.fifo + Pending(s) == s.fifo;
    PieceJoin(c.file, UserPos(s), s.fifo, Pending(s'));
    BlockIsPiece(c, s.fd, n);
    assert UserPos(s') == UserPos(s) && Pending(s') == c.file[s.fd..s.fd + n];
    assert Piece(c.file, UserPos(s'), s'.fifo + Pending(s'));
  }

  lemma BlockIsPiece(c: Config, at: nat, n: nat)
    requires at + n <= |c.file|
    ensures Piece(c.file, at, c.file[at..at + n])
  {}

  lemma PutKeeps(c: Config, s: State, s': State)
    requires Inv(c, s) && Next(c, s, ReaderPut, s')
    ensures Inv(c, s')
  {
    assert s'.fifo + Pending(s') == s.fifo + Pending(s);
  }

  lemma LeaveKeeps(c: Config, s: State, step: Step, s': State)
    requires Inv(c, s) && Next(c, s, step, s') && (step.ReaderEnd? || step.ReaderQuit?)
    ensures Inv(c, s')
  {
    PieceJoin(c.file, UserPos(s), s.fifo, Pending(s));
    assert s'.fifo + Pending(s') == s.fifo;
    if step.ReaderEnd? && !s.afterSeek { assert Pending(s) == []; }
  }

  lemma SeekKeeps(c: Config, s: State, step: Step, s': State)
    requires Inv(c, s) && Next(c, s, step, s') && (step.SeekLock? || step.SeekMove?)
    ensures Inv(c, s')
  {
    hide Piece;
  }

  lemma SeekEndKeeps(c: Config, s: State, step: Step, s': State)
    requires Inv(c, s) && Next(c, s, step, s') && (step.SeekClear? || step.SeekDone?)
    ensures Inv(c, s')
  {
    hide Piece;
  }

  lemma TakeKeeps(c: Config, s: State, s': State)
    requires Inv(c, s) && Next(c, s, ReadTake, s')
    ensures Inv(c, s')
  {
    hide Piece;
    var n := Min(s.user.count - |s.user.got|, |s.fifo|);
    PieceJoin(c.file, UserPos(s), s.fifo[..n], s.fifo[n..] + Pending(s));
    assert s.fifo[..n] + (s.fifo[n..] + Pending(s)) == s.fifo + Pending(s);
    PieceJoin(c.file, s.pos, s.user.got, s.fifo[..n]);
  }

  lemma UserKeeps(c: Config, s: State, step: Step, s': State)
    requires Inv(c, s) && Next(c, s, step, s') && (step.ReadStart? || step.ReadEnd? || step.PeekAt? || step.Abort?)
    ensures Inv(c, s')
  {
    hide Piece, SeekTarget;
    NothingIsAPiece(c, s.pos);
    assert s'.fifo == s.fifo && Pending(s') == Pending(s) && UserPos(s') == UserPos(s);
  }

  lemma NothingIsAPiece(c: Config, at: nat)
    ensures at <= |c.file| ==> Piece(c.file, at, [])
  {}

  lemma NextInv(c: Config, s: State, step: Step, s': State)
    requires Inv(c, s) && Next(c, s, step, s')
    ensures Inv(c, s')
  {
    hide Inv, Next;
    match step
    case ReaderLock => ReaderKeeps(c, s, step, s');
    case ReaderClearFlag => ReaderKeeps(c, s, step, s');
    case ReaderRead(n) => ReadKeeps(c, s, n, s');
    case ReaderUnlock => ReaderKeeps(c, s, step, s');
    case ReaderEof => ReaderKeeps(c, s, step, s');
    case ReaderWake => ReaderKeeps(c, s, step, s');
    case ReaderStart => ReaderKeeps(c, s, step, s');
    case ReaderPut => PutKeeps(c, s, s');
    case ReaderEnd => LeaveKeeps(c, s, step, s');
    case ReaderQuit => LeaveKeeps(c, s, step, s');
    case SeekLock(_, _) => SeekKeeps(c, s, step, s');
    case SeekMove => SeekKeeps(c, s, step, s');
    case SeekClear => SeekEndKeeps(c, s, step, s');
    case SeekDone => SeekEndKeeps(c, s, step, s');
    case ReadTake => TakeKeeps(c, s, s');
    case ReadStart(_) => UserKeeps(c, s, step, s');
    case ReadEnd => UserKeeps(c, s, step, s');
    case PeekAt(_) => UserKeeps(c, s, step, s');
    case Abort => UserKeeps(c, s, step, s');
  }

  // ----- whole runs

  ghost predicate Run(c: Config, states: seq<State>, steps: seq<Step>) {
    && |states| == |steps| + 1
    && Init(states[0])
    && forall i :: 0 <= i < |steps| ==> Next(c, states[i], steps[i], states[i + 1])
  }

  lemma {:induction false} RunInv(c: Config, states: seq<State>, steps: seq<Step>, i: nat)
    requires Run(c, states, steps) && i < |states|
    ensures Inv(c, states[i])
  {
    hide Inv, Next;
    if i == 0 {
      InitInv(c, states[0]);
    } else {
      RunInv(c, states, steps, i - 1);
      NextInv(c, states[i - 1], steps[i - 1], states[i]);
    }
  }

  /** In every interleaving, the bytes a finished read returns are the file's bytes at
      the user's position, and the position moves on by as many. */
  lemma ReadsReturnTheFile(c: Config, states: seq<State>, steps: seq<Step>, i: nat)
    requires Run(c, states, steps) && i < |steps| && steps[i].ReadEnd?
    ensures var s, s' := states[i], states[i + 1];
      && s.user.Reading? && Piece(c.file, s.pos, s.user.got) && |s.user.got| <= s.user.count
      && s'.pos == s.pos + |s.user.got|
  {
    RunInv(c, states, steps, i);
    assert Next(c, states[i], steps[i], states[i + 1]);
    CountKept(c, states, steps, i);
  }

  lemma {:induction false} CountKept(c: Config, states: seq<State>, steps: seq<Step>, i: nat)
    requires Run(c, states, steps) && i < |states|
    ensures states[i].user.Reading? ==> |states[i].user.got| <= states[i].user.count
  {
    if i > 0 {
      CountKept(c, states, steps, i - 1);
      assert Next(c, states[i - 1], steps[i - 1], states[i]);
    }
  }

  /** What a step hands over to the user. */
  ghost function Handed(s: State, step: Step): seq<Byte> {
    if step.ReadEnd? && s.user.Reading? then s.user.got else []
  }

  lemma HandedIsPiece(c: Config, s: State, step: Step, s': State)
    requires Inv(c, s) && Next(c, s, step, s') && !step.SeekDone?
    ensures Piece(c.file, s.pos, Handed(s, step)) && s'.pos == s.pos + |Handed(s, step)|
  {}

  lemma PosInFile(c: Config, s: State)
    requires Inv(c, s)
    ensures Piece(c.file, s.pos, [])
  {}

  /** All the bytes handed over between the i-th and the j-th state. */
  ghost function Delivered(states: seq<State>, steps: seq<Step>, i: nat, j: nat): seq<Byte>
    requires i <= j <= |steps| < |states|
    decreases j
  {
    if i == j then [] else Delivered(states, steps, i, j - 1) + Handed(states[j - 1], steps[j - 1])
  }

  /** Between two seeks the user receives one contiguous stretch of the file, whatever
      the scheduling and however the reads and blocks were cut. */
  lemma {:induction false} DeliveredIsContiguous(c: Config, states: seq<State>, steps: seq<Step>, i: nat, j: nat)
    requires Run(c, states, steps) && i <= j <= |steps|
    requires forall k :: i <= k < j ==> !steps[k].SeekDone?
    ensures Piece(c.file, states[i].pos, Delivered(states, steps, i, j))
    ensures states[j].pos == states[i].pos + |Delivered(states, steps, i, j)|
    decreases j
  {
    hide Inv, Next, Piece, Handed, Init;
    if i == j {
      RunInv(c, states, steps, i);
      PosInFile(c, states[i]);
    } else {
      DeliveredIsContiguous(c, states, steps, i, j - 1);
      RunInv(c, states, steps, j - 1);
      HandedIsPiece(c, states[j - 1], steps[j - 1], states[j]);
      PieceJoin(c.file, states[i].pos, Delivered(states, steps, i, j - 1), Handed(states[j - 1], steps[j - 1]));
    }
  }

  /** A peek shows the file's bytes at the user's position, as many as asked for unless
      the fifo is full or nothing more comes. */
  lemma PeeksShowTheFile(c: Config, states: seq<State>, steps: seq<Step>, i: nat)
    requires Run(c, states, steps) && i < |steps| && steps[i].PeekAt?
    ensures var shown := Peeked(states[i], steps[i].count);
      && Piece(c.file, states[i].pos, shown) && |shown| <= steps[i].count
      && (|shown| < steps[i].count ==> |shown| == c.size || states[i].eof || states[i].stop)
    ensures states[i + 1] == states[i]
  {
    RunInv(c, states, steps, i);
    assert Next(c, states[i], steps[i], states[i + 1]);
    var s := states[i];
    var n := Min(steps[i].count, |s.fifo|);
    assert s.fifo + Pending(s) == s.fifo[..n] + (s.fifo[n..] + Pending(s));
    PieceJoin(c.file, s.pos, s.fifo[..n], s.fifo[n..] + Pending(s));
  }

  /** Only a finished read and a finished seek move the user's position; a seek moves it
      to its target. */
  lemma OnlyReadsAndSeeksMove(c: Config, s: State, step: Step, s': State)
    requires Next(c, s, step, s') && s'.pos != s.pos
    ensures (step.ReadEnd? && s.user.Reading?) || (step.SeekDone? && s.user.SeekCleared? && s'.pos == s.user.target)
  {}

  /** The place that a request names, before the range is looked at. */
  function Asked(size: nat, pos: nat, offset: int, whence: Whence): int {
    offset + match whence case Set => 0 case Cur => pos case End => size
  }

  /** A seek ends at the place it names if that is in the file, at the end of the file if
      it asks for just that, and at the start otherwise, whatever the reader does
      meanwhile. */
  lemma SeeksGoWhereAsked(c: Config, states: seq<State>, steps: seq<Step>, i: nat, j: nat)
    requires Run(c, states, steps) && i < j < |steps| && steps[i].SeekLock? && steps[j].SeekDone?
    requires forall k :: i < k < j ==> !steps[k].SeekDone?
    ensures var offset, whence := steps[i].offset, steps[i].whence;
      var place := Asked(|c.file|, states[i].pos, offset, whence);
      if 0 <= place < |c.file| then states[j + 1].pos == place
      else if whence.End? && offset == 0 then states[j + 1].pos == |c.file|
      else states[j + 1].pos == 0
    ensures states[j + 1].user.Idle?
  {
    assert Next(c, states[i], steps[i], states[i + 1]);
    SeekUnderWay(c, states, steps, i, j);
    assert Next(c, states[j], steps[j], states[j + 1]);
  }

  lemma {:induction false} SeekUnderWay(c: Config, states: seq<State>, steps: seq<Step>, i: nat, j: nat)
    requires Run(c, states, steps) && i < j < |states| && steps[i].SeekLock?
    requires forall k :: i < k < j ==> !steps[k].SeekDone?
    ensures var s := states[j];
      && (s.user.SeekHasIo? || s.user.SeekMoved? || s.user.SeekCleared?)
      && s.user.target == SeekTarget(|c.file|, states[i].pos, steps[i].offset, steps[i].whence)
    decreases j
  {
    hide SeekTarget, Init;
    assert Next(c, states[j - 1], steps[j - 1], states[j]);
    if i + 1 < j { SeekUnderWay(c, states, steps, i, j - 1); }
  }

  // ----- the end of the file

  predicate EmptyBlock(s: State) {
    (s.reader.BlockRead? || s.reader.BlockHeld?) && s.reader.block == []
  }

  /** Nothing was put or taken since the seek that overtook the reader. */
  predicate Overtaken(s: State) {
    && s.fifo == [] && (s.user.Reading? ==> s.user.got == [])
    && (s.afterSeek || s.reader.FlagCleared? || s.reader.BlockRead? || s.reader.BlockHeld?)
  }

  /** A flag set for a block that no seek has overtaken says that the file is read to its
      end; one set for a block that a seek has overtaken stays until the reader puts the
      next block. */
  predicate EofInv(c: Config, s: State) {
    && |Pending(s)| <= 8096
    && (s.afterSeek && s.user.Reading? ==> s.user.got == [])
    && s.eofEpoch <= s.blockEpoch <= s.epoch
    && (s.afterSeek && (s.reader.BlockHeld? || s.reader.Putting?) ==> s.blockEpoch < s.epoch)
    && (s.user.SeekMoved? || (
          && (EmptyBlock(s) && s.blockEpoch == s.epoch ==> s.fd == |c.file|)
          && (s.eof && s.eofEpoch == s.epoch ==> s.fd == |c.file| && Pending(s) == [])
          && (s.eof && s.eofEpoch != s.epoch && !s.stop ==> Overtaken(s))))
  }

  lemma EofReader(c: Config, s: State, step: Step, s': State)
    requires Inv(c, s) && EofInv(c, s) && Next(c, s, step, s')
    requires step.ReaderClearFlag? || step.ReaderRead? || step.ReaderEof? || step.ReaderStart? || step.ReaderPut?
    ensures EofInv(c, s')
  {
    hide Piece, SeekTarget;
  }

  lemma EofOthers(c: Config, s: State, step: Step, s': State)
    requires Inv(c, s) && EofInv(c, s) && Next(c, s, step, s')
    requires
      !(step.ReaderClearFlag? || step.ReaderRead? || step.ReaderEof? || step.ReaderStart? || step.ReaderPut?)
    ensures EofInv(c, s')
  {
    hide Piece, SeekTarget;
  }

  lemma {:induction false} EofRun(c: Config, states: seq<State>, steps: seq<Step>, i: nat)
    requires Run(c, states, steps) && i < |states|
    ensures EofInv(c, states[i])
  {
    if i > 0 {
      EofRun(c, states, steps, i - 1);
      RunInv(c, states, steps, i - 1);
      EofStep(c, states[i - 1], steps[i - 1], states[i]);
    }
  }

  lemma EofStep(c: Config, s: State, step: Step, s': State)
    requires Inv(c, s) && EofInv(c, s) && Next(c, s, step, s')
    ensures EofInv(c, s')
  {
    hide Inv, EofInv, Next;
    if step.ReaderClearFlag? || step.ReaderRead? || step.ReaderEof? || step.ReaderStart? || step.ReaderPut? {
      EofReader(c, s, step, s');
    } else {
      EofOthers(c, s, step, s');
    }
  }

  /** A read that was not aborted and returns fewer bytes than asked for has reached the
      end of the file, exactly unless a seek that did not go there overtook the empty
      block for which the flag was set; then it returns nothing. */
  lemma ShortReads(c: Config, states: seq<State>, steps: seq<Step>, i: nat)
    requires Run(c, states, steps) && i < |steps| && steps[i].ReadEnd? && !states[i].stop
    requires states[i].user.Reading? && |states[i].user.got| < states[i].user.count
    ensures var s, s' := states[i], states[i + 1];
      && (s'.pos == |c.file| <==> s.eofEpoch == s.epoch || s.pos == |c.file|)
      && (s.eofEpoch != s.epoch ==> s.user.got == [] && s'.pos == s.pos)
  {
    RunInv(c, states, steps, i);
    EofRun(c, states, steps, i);
    assert Next(c, states[i], steps[i], states[i + 1]);
    assert states[i].fifo + Pending(states[i]) == Pending(states[i]);
    NotGone(c, states, steps, i);
  }

  /** The empty block was overtaken exactly when `after_seek` is set as the reader sets
      `eof`, which it does not look at. */
  lemma OvertakenExactly(c: Config, states: seq<State>, steps: seq<Step>, i: nat)
    requires Run(c, states, steps) && i < |steps| && steps[i].ReaderEof?
    ensures states[i + 1].eof
    ensures states[i + 1].eofEpoch != states[i + 1].epoch <==> states[i].afterSeek
  {
    RunInv(c, states, steps, i);
    EofRun(c, states, steps, i);
    assert Next(c, states[i], steps[i], states[i + 1]);
  }

  /** The end-of-file flag is set by the reader's empty block and cleared by every seek
      and every other block; a stop is never taken back. */
  lemma FlagsChange(c: Config, s: State, step: Step, s': State)
    requires Next(c, s, step, s')
    ensures s'.eof <==> step.ReaderEof? || (s.eof && !step.SeekClear? && !step.ReaderStart?)
    ensures s'.afterSeek <==> step.SeekClear? || (s.afterSeek && !step.ReaderClearFlag?)
    ensures s'.stop <==> step.Abort? || s.stop
  {
    hide SeekTarget;
  }

  lemma {:induction false} NotGone(c: Config, states: seq<State>, steps: seq<Step>, i: nat)
    requires Run(c, states, steps) && i < |states|
    ensures states[i].reader.Gone? ==> states[i].stop
  {
    if i > 0 {
      NotGone(c, states, steps, i - 1);
      assert Next(c, states[i - 1], steps[i - 1], states[i]);
    }
  }

  lemma Extended(c: Config, states: seq<State>, steps: seq<Step>, step: Step, s': State)
    returns (states': seq<State>, steps': seq<Step>)
    requires Run(c, states, steps) && Next(c, states[|steps|], step, s')
    ensures Run(c, states', steps') && |states'| == |steps'| + 1 == |steps| + 2
    ensures states'[|steps|] == states[|steps|] && steps'[|steps|] == step && states'[|steps'|] == s'
  {
    hide Init, Next;
    states', steps' := states + [s'], steps + [step];
  }

  lemma NotMoved(c: Config, s: State)
    requires Init(s)
    ensures Run(c, [s], [])
  {}

  /** A seek to the end of a one-byte file. */
  lemma SoughtTheEnd(c: Config) returns (states: seq<State>, steps: seq<Step>)
    requires |c.file| == 1
    ensures Run(c, states, steps) && |states| == |steps| + 1
    ensures states[|steps|] == State(1, [], true, false, false, 1, Nobody, LoopTop, Idle, 1, 0, 0)
  {
    hide Run;
    var s := State(0, [], false, false, false, 0, Nobody, LoopTop, Idle, 0, 0, 0);
    states, steps := [s], [];
    NotMoved(c, s);
    states, steps := Extended(c, states, steps, SeekLock(0, End), s.(io := ByUser, user := SeekHasIo(1)));
    s := s.(fd := 1);
    states, steps := Extended(c, states, steps, SeekMove, s.(io := ByUser, user := SeekMoved(1)));
    s := s.(afterSeek := true, epoch := 1);
    states, steps := Extended(c, states, steps, SeekClear, s.(io := ByUser, user := SeekCleared(1)));
    s := s.(pos := 1);
    states, steps := Extended(c, states, steps, SeekDone, s);
  }

  /** The reader has then read an empty block. */
  lemma ReadAtTheEnd(c: Config) returns (states: seq<State>, steps: seq<Step>)
    requires |c.file| == 1
    ensures Run(c, states, steps) && |states| == |steps| + 1
    ensures states[|steps|] == State(1, [], false, false, false, 1, Nobody, BlockHeld([]), Idle, 1, 1, 0)
  {
    hide Run, SeekTarget;
    states, steps := SoughtTheEnd(c);
    var s := State(1, [], true, false, false, 1, Nobody, LoopTop, Idle, 1, 0, 0);
    states, steps := Extended(c, states, steps, ReaderLock, s.(io := ByReader, reader := HasIo));
    s := s.(afterSeek := false);
    states, steps := Extended(c, states, steps, ReaderClearFlag, s.(io := ByReader, reader := FlagCleared));
    assert c.file[1..1] == [];
    s := s.(blockEpoch := 1);
    states, steps := Extended(c, states, steps, ReaderRead(0), s.(io := ByReader, reader := BlockRead([])));
    states, steps := Extended(c, states, steps, ReaderUnlock, s.(reader := BlockHeld([])));
  }

  /** A run in which a seek back to the start of that file overtakes the reader: the read
      after it returns nothing, as at the end of the file. */
  lemma OvertakenRead(c: Config) returns (states: seq<State>, steps: seq<Step>)
    requires |c.file| == 1
    ensures Run(c, states, steps) && |states| == |steps| + 1 > 1 && steps[|steps| - 1] == ReadEnd
    ensures var s, s' := states[|steps| - 1], states[|steps|];
      !s.stop && s.user == Reading(1, []) && s.pos == 0 && s'.pos == 0
  {
    hide Run;
    states, steps := ReadAtTheEnd(c);
    var s := State(1, [], false, false, false, 1, Nobody, BlockHeld([]), Idle, 1, 1, 0);
    states, steps := Extended(c, states, steps, SeekLock(0, Set), s.(io := ByUser, user := SeekHasIo(0)));
    s := s.(fd := 0);
    states, steps := Extended(c, states, steps, SeekMove, s.(io := ByUser, user := SeekMoved(0)));
    s := s.(afterSeek := true, epoch := 2);
    states, steps := Extended(c, states, steps, SeekClear, s.(io := ByUser, user := SeekCleared(0)));
    s := s.(pos := 0);
    states, steps := Extended(c, states, steps, SeekDone, s);
    s := s.(eof := true, reader := WaitAtEof, eofEpoch := 1);
    states, steps := Extended(c, states, steps, ReaderEof, s);
    states, steps := Extended(c, states, steps, ReadStart(1), s.(user := Reading(1, [])));
    states, steps := Extended(c, states, steps, ReadEnd, s);
  }

  // ----- how much is moved

  /** The reader puts what fits, and a read takes what is there and wanted. */
  lemma AsMuchAsPossible(c: Config, s: State, step: Step, s': State)
    requires Next(c, s, step, s')
    ensures step.ReaderPut? ==>
      s.fifo + s.reader.rest == s'.fifo + s'.reader.rest && (s'.reader.rest == [] || |s'.fifo| == c.size)
    ensures step.ReadTake? ==>
      s.user.got + s.fifo == s'.user.got + s'.fifo && (|s'.user.got| == s.user.count || s'.fifo == [])
  {
    hide SeekTarget;
  }

  /** A block read before a seek never enters the fifo after it. */
  lemma StaleBlocksStayOut(c: Config, states: seq<State>, steps: seq<Step>, i: nat)
    requires Run(c, states, steps) && i < |steps| && steps[i].ReaderPut?
    ensures states[i].blockEpoch == states[i].epoch
  {
    RunInv(c, states, steps, i);
    assert Next(c, states[i], steps[i], states[i + 1]);
  }

  /** The flag is cleared only by the reader, under `io_mutex`, with nothing pending. */
  lemma FlagClearedBeforeFreshRead(c: Config, states: seq<State>, steps: seq<Step>, i: nat)
    requires Run(c, states, steps) && i < |steps| && states[i].afterSeek && !states[i + 1].afterSeek
    ensures steps[i].ReaderClearFlag? && states[i].io.ByReader? && Pending(states[i]) == [] && states[i].fifo == []
  {
    RunInv(c, states, steps, i);
    assert Next(c, states[i], steps[i], states[i + 1]);
  }
}
