/** `out_buf.c`: the output buffer between one producer and the thread that feeds the
    audio device, under one mutex.

    A step is what one thread does between two points at which it takes or gives up the
    mutex or waits.  A few of the program's atomic sections are cut into two steps, which
    only adds interleavings. */
module OutBuf {
  import opened Basics
  import opened Fifo

  /** Where `read_thread` stands. */
  datatype ThreadAt =
    | Top                           // at the head of the loop
    | Check                         // after the free callback
    | Waiting                       // waiting on play_cond
    | Go                            // past the wait
    | Sending(block: seq<Byte>)     // feeding the device without the mutex
    | Exited

  /** Where the producer stands: idle, or in `out_buf_put` with `rest` left to put. */
  datatype ProducerAt = Idle | Putting(rest: seq<Byte>)

  datatype Config = Config(size: nat, bpf: nat)

  /** `accepted` are all bytes ever put, `cleared` says which of them a clear dropped,
      `low` is the index of the oldest byte still in the fifo, `sent` is what the device
      received; these four are bookkeeping that the program does not have. */
  datatype State = State(fifo: seq<Byte>, stop: bool, pause: bool, exit: bool, resetDev: bool, closed: bool,
                         thread: ThreadAt, producer: ProducerAt,
                         accepted: seq<Byte>, cleared: seq<bool>, low: nat, sent: seq<Byte>)

  datatype Step =
    | ThreadTop | ThreadCheck | ThreadWake | ThreadGo(reopened: bool, want: nat)
    | ThreadSend(n: nat) | ThreadDone
    | PutStart(data: seq<Byte>) | PutTry | PutEnd
    | Stop | Reset | Pause | Unpause | Exit

  predicate Init(s: State) {
    s == State([], false, false, false, false, false, Top, Idle, [], [], 0, [])
  }

  function Marks(n: nat, b: bool): (r: seq<bool>)
    ensures |r| == n && forall i :: 0 <= i < n ==> r[i] == b
  {
    seq(n, i => b)
  }

  /** `fifo_buf_clear`: what was held is marked as dropped. */
  function Clear(s: State): State
    requires s.low <= |s.cleared|
  {
    s.(fifo := [], low := |s.cleared|, cleared := s.cleared[..s.low] + Marks(|s.cleared| - s.low, true))
  }

  /** A whole number of frames. */
  predicate Whole(n: nat, bpf: nat) {
    bpf > 0 && n % bpf == 0
  }

  predicate Next(c: Config, s: State, step: Step, s': State) {
    s.low <= |s.cleared| && |s.fifo| <= c.size &&
    match step
    case ThreadTop =>
      s.thread.Top? &&
      var t := if s.resetDev && !s.closed then s.(resetDev := false) else s;
      s' == (if s.stop then Clear(t) else t).(thread := Check)
    case ThreadCheck =>
      s.thread.Check? &&
      s' == if (s.fifo == [] || s.pause || s.stop) && !s.exit
            then s.(closed := s.closed || s.pause, thread := Waiting)
            else s.(thread := Go)
    case ThreadWake =>
      s.thread.Waiting? &&
      s' == s.(thread := Go)
    case ThreadGo(reopened, want) =>  // `want` is what may be played at once, in whole frames
      s.thread.Go? && Whole(want, c.bpf) &&
      var t := s.(closed := if s.closed && !s.pause then !reopened else s.closed);
      if s.fifo == [] then s' == t.(thread := if s.exit then Exited else Top)
      else if s.pause || s.stop || t.closed then s' == t.(thread := Top)
      else
        var n := Min(want, |s.fifo|);
        s' == t.(fifo := s.fifo[n..], low := s.low + n, thread := Sending(s.fifo[..n]))
    case ThreadSend(n) =>
      s.thread.Sending? && n <= |s.thread.block| &&
      s' == s.(sent := s.sent + s.thread.block[..n], thread := Sending(s.thread.block[n..]))
    case ThreadDone =>
      s.thread.Sending? && s.thread.block == [] &&
      s' == s.(thread := Top)
    case PutStart(data) =>
      s.producer.Idle? &&
      s' == s.(producer := Putting(data))
    case PutTry =>  // nothing fits when the fifo is full; the producer waits and tries again
      s.producer.Putting? && s.producer.rest != [] &&
      if s.stop then s' == s.(producer := Idle)
      else
        var n := Fits(c.size, s.fifo, s.producer.rest);
        s' == s.(fifo := s.fifo + s.producer.rest[..n], accepted := s.accepted + s.producer.rest[..n],
                 cleared := s.cleared + Marks(n, false), producer := Putting(s.producer.rest[n..]))
    case PutEnd =>
      s.producer.Putting? && s.producer.rest == [] &&
      s' == s.(producer := Idle)
    case Stop => s' == s.(stop := true, pause := false, resetDev := true)
    case Reset =>  // called by the producer, also when the buffer is not stopped
      s.producer.Idle? &&
      s' == Clear(s).(stop := false, pause := false, resetDev := false)
    case Pause => s' == s.(pause := true, resetDev := true)
    case Unpause => s' == s.(pause := false)
    case Exit => s' == s.(exit := true)
  }

  // ----- conservation

  function InFlight(s: State): seq<Byte> {
    if s.thread.Sending? then s.thread.block else []
  }

  /** The accepted bytes that no clear dropped, in order. */
  function Surviving(accepted: seq<Byte>, cleared: seq<bool>): seq<Byte>
    requires |accepted| == |cleared|
  {
    if accepted == [] then []
    else
      var n := |accepted| - 1;
      Surviving(accepted[..n], cleared[..n]) + if cleared[n] then [] else [accepted[n]]
  }

  lemma {:induction false} SurvivingTail(a: seq<Byte>, k: seq<bool>, b: seq<Byte>, dropped: bool)
    requires |a| == |k|
    ensures Surviving(a + b, k + Marks(|b|, dropped)) == Surviving(a, k) + if dropped then [] else b
  {
    if b == [] {
      assert a + b == a && k + Marks(0, dropped) == k;
    } else {
      var n := |b| - 1;
      SurvivingTail(a, k, b[..n], dropped);
      assert (a + b)[..|a| + n] == a + b[..n];
      assert (k + Marks(|b|, dropped))[..|a| + n] == k + Marks(n, dropped);
    }
  }

  predicate Inv(c: Config, s: State) {
    && |s.cleared| == |s.accepted| && s.low <= |s.accepted| && |s.fifo| <= c.size
    && s.fifo == s.accepted[s.low..]
    && s.cleared[s.low..] == Marks(|s.fifo|, false)
    && s.sent + InFlight(s) == Surviving(s.accepted[..s.low], s.cleared[..s.low])
  }

  lemma InitInv(c: Config, s: State)
    requires Init(s)
    ensures Inv(c, s)
  {}

  lemma ClearKeeps(c: Config, s: State)
    requires Inv(c, s)
    ensures Inv(c, Clear(s))
  {
    var t := Clear(s);
    assert s.accepted == s.accepted[..s.low] + s.fifo;
    SurvivingTail(s.accepted[..s.low], s.cleared[..s.low], s.fifo, true);
    assert t.accepted[..t.low] == s.accepted && t.cleared[..t.low] == t.cleared;
  }

  lemma TakeStream(accepted: seq<Byte>, cleared: seq<bool>, low: nat, n: nat)
    requires |accepted| == |cleared| && low + n <= |accepted| && cleared[low..] == Marks(|accepted| - low, false)
    ensures Surviving(accepted[..low + n], cleared[..low + n])
         == Surviving(accepted[..low], cleared[..low]) + accepted[low..][..n]
    ensures accepted[low..][n..] == accepted[low + n..]
    ensures cleared[low + n..] == Marks(|accepted| - low - n, false)
  {
    SurvivingTail(accepted[..low], cleared[..low], accepted[low..][..n], false);
    assert accepted[..low + n] == accepted[..low] + accepted[low..][..n];
    assert forall i :: low <= i < |cleared| ==> cleared[i] == cleared[low..][i - low];
    assert cleared[..low + n] == cleared[..low] + Marks(n, false);
  }

  lemma TakeKeeps(c: Config, s: State, step: Step, s': State)
    requires Inv(c, s) && step.ThreadGo? && Next(c, s, step, s')
    ensures Inv(c, s')
  {
    hide Surviving, Marks, Whole;
    if s'.thread.Sending? {
      TakeStream(s.accepted, s.cleared, s.low, Min(step.want, |s.fifo|));
      assert s.sent + [] == s.sent;
    } else {
      assert s'.fifo == s.fifo && s'.low == s.low && InFlight(s') == InFlight(s);
    }
  }

  lemma PutKeeps(c: Config, s: State, s': State)
    requires Inv(c, s) && Next(c, s, PutTry, s')
    ensures Inv(c, s')
  {
    if !s.stop {
      assert s'.accepted[..s.low] == s.accepted[..s.low];
      assert s'.cleared[..s.low] == s.cleared[..s.low];
      assert s'.cleared[s.low..] == s.cleared[s.low..] + Marks(|s'.fifo| - |s.fifo|, false);
    }
  }

  lemma OthersKeep(c: Config, s: State, step: Step, s': State)
    requires Inv(c, s) && Next(c, s, step, s')
    requires !step.ThreadGo? && !step.PutTry? && !step.ThreadTop? && !step.Reset?
    ensures Inv(c, s')
  {
    if step.ThreadSend? {
      assert s.thread.block == s.thread.block[..step.n] + s.thread.block[step.n..];
      assert s'.sent + InFlight(s') == s.sent + InFlight(s);
    }
  }

  lemma NextInv(c: Config, s: State, step: Step, s': State)
    requires Inv(c, s) && Next(c, s, step, s')
    ensures Inv(c, s')
  {
    match step
    case ThreadGo(_, _) => TakeKeeps(c, s, step, s');
    case PutTry => PutKeeps(c, s, s');
    case ThreadTop => ClearKeeps(c, if s.resetDev && !s.closed then s.(resetDev := false) else s);
    case Reset => ClearKeeps(c, s);
    case _ => OthersKeep(c, s, step, s');
  }

  // ----- whole runs

  ghost predicate Run(c: Config, states: seq<State>, steps: seq<Step>) {
    && |states| == |steps| + 1
    && Init(states[0])
    && forall i :: 0 <= i < |steps| ==> Next(c, states[i], steps[i], states[i + 1])
  }

  lemma {:induction false} RunInv(c: Config, states: seq<State>, steps: seq<Step>, i: nat)
    requires Run(c, states, steps) && i < |states|
    ensures Inv(c, states[i])
  {
    hide Inv, Next;
    if i == 0 {
      InitInv(c, states[0]);
    } else {
      RunInv(c, states, steps, i - 1);
      NextInv(c, states[i - 1], steps[i - 1], states[i]);
    }
  }

  /** In every interleaving, what the device received, then the block in flight, then the
      fifo are the accepted bytes without the cleared ones, in order. */
  lemma StreamIsConserved(c: Config, states: seq<State>, steps: seq<Step>, i: nat)
    requires Run(c, states, steps) && i < |states|
    ensures |states[i].accepted| == |states[i].cleared|
    ensures states[i].sent + InFlight(states[i]) + states[i].fifo == Surviving(states[i].accepted, states[i].cleared)
  {
    RunInv(c, states, steps, i);
    var s := states[i];
    TakeStream(s.accepted, s.cleared, s.low, |s.fifo|);
    assert s.accepted[..s.low + |s.fifo|] == s.accepted && s.cleared[..s.low + |s.fifo|] == s.cleared;
    assert s.accepted[s.low..][..|s.fifo|] == s.fifo;
  }

  /** Only a clear drops bytes, and only bytes that are in the fifo: the marks of bytes
      that left it never change. */
  lemma OnlyClearsDrop(c: Config, s: State, step: Step, s': State)
    requires Inv(c, s) && Next(c, s, step, s')
    ensures s.accepted <= s'.accepted && s.low <= s'.low
    ensures |s.cleared| <= |s'.cleared| && s'.cleared[..s.low] == s.cleared[..s.low]
    ensures !step.Reset? && !(step.ThreadTop? && s.stop) ==> s.cleared <= s'.cleared
  {
    hide Surviving, Whole, Marks;
    if step.PutTry? && !s.stop {
      assert s'.cleared[..|s.cleared|] == s.cleared;
    }
  }

  lemma StopStep(c: Config, s: State, step: Step, s': State)
    requires Inv(c, s) && Next(c, s, step, s') && s.stop && !step.Reset?
    ensures s'.stop && s'.accepted == s.accepted && s'.sent + InFlight(s') == s.sent + InFlight(s)
    ensures s'.fifo == s.fifo || s'.fifo == []
  {
    hide Surviving, Whole, Marks;
    if step.ThreadSend? {
      assert s.thread.block == s.thread.block[..step.n] + s.thread.block[step.n..];
    }
  }

  /** From the moment `stop` is set until the next reset no byte enters the fifo and none
      leaves it for the device; only the block that was already in flight is played out. */
  lemma {:induction false} StoppedIsSilent(c: Config, states: seq<State>, steps: seq<Step>, i: nat, j: nat)
    requires Run(c, states, steps) && i <= j < |states| && states[i].stop
    requires forall k :: i <= k < j ==> !steps[k].Reset?
    ensures states[j].stop && states[j].accepted == states[i].accepted
    ensures states[j].sent + InFlight(states[j]) == states[i].sent + InFlight(states[i])
    ensures states[j].fifo == states[i].fifo || states[j].fifo == []
    decreases j
  {
    hide Inv, Next, Init, InFlight;
    if i < j {
      StoppedIsSilent(c, states, steps, i, j - 1);
      RunInv(c, states, steps, j - 1);
      StopStep(c, states[j - 1], steps[j - 1], states[j]);
    }
  }

  /** After a stop nothing is accepted and nothing more is taken for the device until the
      next reset, and the thread empties the buffer when it comes to the head of its loop. */
  lemma {:induction false} StopSilences(c: Config, states: seq<State>, steps: seq<Step>, i: nat, j: nat)
    requires Run(c, states, steps) && i < j < |states| && steps[i].Stop?
    requires forall k :: i < k < j ==> !steps[k].Reset?
    ensures states[j].stop && states[j].accepted == states[i].accepted
    ensures states[j].sent + InFlight(states[j]) == states[i].sent + InFlight(states[i])
    ensures (exists k :: i < k < j && steps[k].ThreadTop?) ==> states[j].fifo == []
    decreases j
  {
    hide Inv, Surviving, Whole, Marks;
    if i + 1 == j {
      assert Next(c, states[i], steps[i], states[j]);
    } else {
      StopSilences(c, states, steps, i, j - 1);
      RunInv(c, states, steps, j - 1);
      StopStep(c, states[j - 1], steps[j - 1], states[j]);
      assert Next(c, states[j - 1], steps[j - 1], states[j]);
    }
  }

  /** After a pause, and until it is lifted by an unpause, a stop or a reset, nothing more
      is taken for the device; only the block that was already in flight is played out. */
  lemma {:induction false} PausedIsSilent(c: Config, states: seq<State>, steps: seq<Step>, i: nat, j: nat)
    requires Run(c, states, steps) && i < j < |states| && steps[i].Pause?
    requires forall k :: i < k < j ==> !steps[k].Unpause? && !steps[k].Stop? && !steps[k].Reset?
    ensures states[j].pause
    ensures states[j].sent + InFlight(states[j]) == states[i].sent + InFlight(states[i])
    decreases j
  {
    hide Inv, Surviving, Whole, Marks;
    if i + 1 == j {
      assert Next(c, states[i], steps[i], states[j]);
    } else {
      PausedIsSilent(c, states, steps, i, j - 1);
      PauseStep(c, states[j - 1], steps[j - 1], states[j]);
    }
  }

  lemma PauseStep(c: Config, s: State, step: Step, s': State)
    requires Next(c, s, step, s') && s.pause && !step.Unpause? && !step.Stop? && !step.Reset?
    ensures s'.pause && s'.sent + InFlight(s') == s.sent + InFlight(s)
  {
    hide Whole, Marks;
    if step.ThreadSend? {
      assert s.thread.block == s.thread.block[..step.n] + s.thread.block[step.n..];
    }
  }

  /** Which calls change the flags; a stop and a reset lift a pause. */
  lemma FlagsChange(c: Config, s: State, step: Step, s': State)
    requires Next(c, s, step, s')
    ensures s'.stop <==> step.Stop? || (s.stop && !step.Reset?)
    ensures s'.pause <==> step.Pause? || (s.pause && !step.Unpause? && !step.Stop? && !step.Reset?)
    ensures s'.exit <==> step.Exit? || s.exit
  {
    hide Whole, Marks, Fits;
  }

  /** The device is to be reset after a stop or a pause, until the thread has done it, which
      needs an open device, or until a reset of the buffer, which also empties it. */
  lemma ResetsChange(c: Config, s: State, step: Step, s': State)
    requires Next(c, s, step, s')
    ensures s'.resetDev <==>
      step.Stop? || step.Pause? || (s.resetDev && !step.Reset? && (step.ThreadTop? ==> s.closed))
    ensures step.Reset? ==> s'.fifo == []
  {
    hide Whole, Marks, Fits;
  }

  /** What the thread does when it may go on: it waits exactly when there is nothing to
      play, it takes as much as there is and may be played at once exactly when neither
      paused nor stopped and the device is open, and it reopens the device after a pause. */
  lemma ThreadPlays(c: Config, s: State, step: Step, s': State)
    requires Next(c, s, step, s')
    ensures step.ThreadCheck? ==>
      && (s'.thread.Waiting? <==> !s.exit && (s.fifo == [] || s.pause || s.stop))
      && (s'.closed <==> s.closed || (s.pause && !s.exit))
    ensures step.ThreadGo? ==>
      && (s'.closed <==> s.closed && (s.pause || !step.reopened))
      && (s'.thread.Sending? <==> s.fifo != [] && !s.pause && !s.stop && !s'.closed)
      && (s'.thread.Exited? <==> s.fifo == [] && s.exit)
    ensures step.ThreadGo? && s'.thread.Sending? ==>
      && s.fifo == s'.thread.block + s'.fifo && |s'.thread.block| <= step.want
      && (|s'.thread.block| == step.want || s'.fifo == [])
  {
    hide Whole, Marks;
  }

  /** The thread ends only when asked to, and then it has played every accepted byte that
      no stop or reset dropped. */
  lemma ExitsDrained(c: Config, states: seq<State>, steps: seq<Step>, i: nat)
    requires Run(c, states, steps) && i < |steps| && !states[i].thread.Exited? && states[i + 1].thread.Exited?
    ensures var s := states[i + 1];
      s.exit && |s.accepted| == |s.cleared| && s.sent == Surviving(s.accepted, s.cleared)
  {
    hide Surviving, Inv, Next, Init;
    ExitStep(c, states[i], steps[i], states[i + 1]);
    StreamIsConserved(c, states, steps, i + 1);
  }

  lemma ExitStep(c: Config, s: State, step: Step, s': State)
    requires Next(c, s, step, s') && !s.thread.Exited? && s'.thread.Exited?
    ensures s'.exit && s'.fifo == []
  {
    hide Whole, Marks, Fits;
    match step
    case ThreadTop =>
    case Reset =>
    case _ =>
  }

  // ----- whole puts

  /** A put that is not cut short by a stop puts all its bytes, and nothing else is put
      meanwhile. */
  lemma PutsArrive(c: Config, states: seq<State>, steps: seq<Step>, i: nat, j: nat)
    requires Run(c, states, steps) && i < j < |steps| && steps[i].PutStart? && steps[j].PutEnd?
    requires forall k :: i < k < j ==> !steps[k].PutStart?
    ensures states[j + 1].accepted == states[i].accepted + steps[i].data
  {
    hide Next, Init;
    PutUnderWay(c, states, steps, i, j);
    PutEnds(c, states[j], states[j + 1]);
  }

  lemma {:induction false} PutUnderWay(c: Config, states: seq<State>, steps: seq<Step>, i: nat, j: nat)
    requires Run(c, states, steps) && i < j < |states| && steps[i].PutStart?
    requires forall k :: i < k < j ==> !steps[k].PutStart?
    ensures states[j].producer.Putting? ==>
      states[j].accepted + states[j].producer.rest == states[i].accepted + steps[i].data
    decreases j
  {
    hide Next, Init;
    if i + 1 == j {
      PutStarts(c, states[i], steps[i], states[j]);
    } else if states[j].producer.Putting? {
      PutUnderWay(c, states, steps, i, j - 1);
      PutMoves(c, states[j - 1], steps[j - 1], states[j]);
    }
  }

  lemma PutStarts(c: Config, s: State, step: Step, s': State)
    requires Next(c, s, step, s') && step.PutStart?
    ensures s'.producer == Putting(step.data) && s'.accepted == s.accepted
  {}

  lemma PutEnds(c: Config, s: State, s': State)
    requires Next(c, s, PutEnd, s')
    ensures s.producer == Putting([]) && s'.accepted == s.accepted + s.producer.rest
  {}

  lemma PutMoves(c: Config, s: State, step: Step, s': State)
    requires Next(c, s, step, s') && !step.PutStart? && s'.producer.Putting?
    ensures s.producer.Putting? && s'.accepted + s'.producer.rest == s.accepted + s.producer.rest
    ensures step.PutTry? ==> s'.producer.rest == [] || |s'.fifo| == c.size
  {
    hide Whole, Marks;
    if step.PutTry? { TryMoves(c, s, s'); }
  }

  /** A try puts what fits, or gives up when stopped. */
  lemma TryMoves(c: Config, s: State, s': State)
    requires Next(c, s, PutTry, s')
    ensures s'.producer.Idle? <==> s.stop
    ensures s.producer.Putting?
    ensures !s.stop ==>
      && s'.accepted + s'.producer.rest == s.accepted + s.producer.rest
      && (s'.producer.rest == [] || |s'.fifo| == c.size)
  {
    hide Marks;
    if !s.stop {
      var r, n := s.producer.rest, Fits(c.size, s.fifo, s.producer.rest);
      assert r == r[..n] + r[n..];
      assert s.accepted + r[..n] + r[n..] == s.accepted + r;
    }
  }

  // ----- whole frames

  predicate WholePuts(c: Config, steps: seq<Step>) {
    Whole(c.size, c.bpf) && forall i :: 0 <= i < |steps| && steps[i].PutStart? ==> Whole(|steps[i].data|, c.bpf)
  }

  predicate FramesInv(c: Config, s: State) {
    && Whole(|s.fifo|, c.bpf)
    && (s.producer.Putting? ==> Whole(|s.producer.rest|, c.bpf))
  }

  lemma FramesStep(c: Config, s: State, step: Step, s': State)
    requires Inv(c, s) && Next(c, s, step, s') && FramesInv(c, s) && Whole(c.size, c.bpf)
    requires step.PutStart? ==> Whole(|step.data|, c.bpf)
    ensures FramesInv(c, s')
    ensures step.ThreadGo? && s'.thread.Sending? ==> Whole(|s'.thread.block|, c.bpf)
  {
    hide Surviving, Marks, Inv;
    assert Whole(0, c.bpf);
    if step.ThreadGo? && s'.thread.Sending? {
      WholeFrames(c.bpf, c.size, s.fifo, [], step.want);
      DifferenceOfMultiples(|s.fifo|, Min(step.want, |s.fifo|), c.bpf);
    } else if step.PutTry? && !s.stop {
      PutFrames(c, s, s');
    }
  }

  lemma PutFrames(c: Config, s: State, s': State)
    requires |s.fifo| <= c.size && Next(c, s, PutTry, s') && !s.stop && FramesInv(c, s) && Whole(c.size, c.bpf)
    ensures FramesInv(c, s')
  {
    hide Marks;
    var n := Fits(c.size, s.fifo, s.producer.rest);
    WholeFrames(c.bpf, c.size, s.fifo, s.producer.rest, 0);
    DifferenceOfMultiples(|s.producer.rest|, n, c.bpf);
    DifferenceOfMultiples(c.size, |s.fifo|, c.bpf);
    if n == |s.producer.rest| {
      SumOfMultiples(c.size, |s.fifo|, n, c.bpf);
    }
  }

  lemma SumOfMultiples(size: nat, a: nat, b: nat, m: nat)
    requires m > 0 && size % m == 0 && a % m == 0 && b % m == 0 && a + b <= size
    ensures (a + b) % m == 0
  {
    DifferenceOfMultiples(size, a, m);
    DifferenceOfMultiples(size - a, b, m);
    DifferenceOfMultiples(size, size - a - b, m);
  }

  lemma {:induction false} FramesRun(c: Config, states: seq<State>, steps: seq<Step>, i: nat)
    requires Run(c, states, steps) && WholePuts(c, steps) && i < |states|
    ensures FramesInv(c, states[i])
  {
    if i == 0 {
    } else {
      hide Inv, Next, FramesInv;
      FramesRun(c, states, steps, i - 1);
      RunInv(c, states, steps, i - 1);
      FramesStep(c, states[i - 1], steps[i - 1], states[i]);
    }
  }

  /** Whole-frame puts into a buffer of whole frames: every block taken for the device is
      a whole number of frames, at every point of every run. */
  lemma BlocksAreWholeFrames(c: Config, states: seq<State>, steps: seq<Step>, i: nat)
    requires Run(c, states, steps) && WholePuts(c, steps) && i < |steps|
    requires steps[i].ThreadGo? && states[i + 1].thread.Sending?
    ensures Whole(|states[i + 1].thread.block|, c.bpf)
  {
    hide Inv, Next, FramesInv;
    FramesRun(c, states, steps, i);
    RunInv(c, states, steps, i);
    FramesStep(c, states[i], steps[i], states[i + 1]);
  }
}
