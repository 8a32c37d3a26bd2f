/**
Progress of the commit pipeline: a second invariant says that nobody waits for
something that nobody will do.
*/
module CommitProgress {
  import opened Options
  import opened CommitPipeline

  /** The position is pending, or being filled, or being emptied. */
  ghost predicate InUse(c: Config, s: State, j: nat)
    requires c.Valid()
  {
    || (exists i: nat :: s.tail <= i < s.head && Slot(c, i) == j)
    || (exists t :: 0 <= t < |s.threads| && UsesSlot(c, s.threads[t].pc, j))
  }

  predicate UsesSlot(c: Config, pc: Pc, j: nat)
    requires c.Valid()
  {
    (pc.BumpHead? || pc.ClearSlot?) && Slot(c, pc.at) == j
  }

  /** No slot stays taken for nothing. */
  ghost predicate Occupied(c: Config, s: State)
    requires Sized(c, s)
  {
    forall j | 0 <= j < c.slots && s.slots[j].Some? :: InUse(c, s, j)
  }

  /** The number that follows the first n batches of the queue. */
  ghost function NextSn(c: Config, s: State, n: nat): nat
    requires Sized(c, s) && n <= s.head
  {
    if n == 0 then c.firstSn else End(c, s, s.order[n - 1])
  }

  /** Numbers leave no gap, and an ingestion waits for the batch before it. */
  ghost predicate Gapless(c: Config, s: State)
    requires Sized(c, s)
  {
    && (var n := if 0 < s.head && s.threads[s.order[s.head - 1]].pc.Assign? then s.head - 1 else s.head;
        s.logSeqNum == NextSn(c, s, n))
    && (forall t | 0 <= t < |s.threads| && s.threads[t].pc.AwaitVisible? ::
          0 < s.head && s.order[s.head - 1] == t && s.threads[t].pc.start == NextSn(c, s, s.head - 1))
  }

  ghost predicate Progress(c: Config, s: State)
    requires Sized(c, s)
  {
    && Occupied(c, s) && Gapless(c, s)
    && (forall t | t in s.holders :: t < |s.threads|)
    && (s.mu.Some? ==> s.mu.value < |s.threads|)
  }

  // ---------------------------------------------------------------------
  // Every step keeps it
  // ---------------------------------------------------------------------

  lemma FrameInUse(c: Config, s: State, s': State, t: nat, j: nat)
    requires Sized(c, s) && Sized(c, s') && OnlyMoves(s, s', t) && s'.tail == s.tail && s'.head >= s.head
    requires InUse(c, s, j) && !UsesSlot(c, s.threads[t].pc, j)
    ensures InUse(c, s', j)
  {
    hide Slot;
    if i: nat :| s.tail <= i < s.head && Slot(c, i) == j {
      assert Slot(c, i) == j;
    } else {
      var u :| 0 <= u < |s.threads| && UsesSlot(c, s.threads[u].pc, j);
      assert UsesSlot(c, s'.threads[u].pc, j);
    }
  }

  lemma FrameOccupied(c: Config, s: State, s': State, t: nat)
    requires Sized(c, s) && Sized(c, s') && Occupied(c, s) && OnlyMoves(s, s', t) && SameRing(s, s')
    requires !s.threads[t].pc.BumpHead? && !s.threads[t].pc.ClearSlot?
    ensures Occupied(c, s')
  {
    hide Slot, InUse;
    forall j | 0 <= j < c.slots && s'.slots[j].Some? ensures InUse(c, s', j) {
      FrameInUse(c, s, s', t, j);
    }
  }

  lemma MoveOccupied(c: Config, s: State, s': State, t: nat)
    requires Inv(c, s) && Inv(c, s') && t < |s.threads| && s' == StepThread(c, s, t) && Occupied(c, s)
    requires var pc := s.threads[t].pc; pc.StoreSlot? || pc.BumpHead? || pc.ClearSlot?
    ensures Occupied(c, s')
  {
    hide Locks, Queued, AppliedInv, Dones, Numbers, Visible, NoLostPublish, Slot, InUse, PcShape, Ring;
    var pc := s.threads[t].pc;
    RingAt(c, s, t);
    var j0 := Slot(c, pc.at);
    forall j | 0 <= j < c.slots && s'.slots[j].Some? ensures InUse(c, s', j) {
      if j != j0 {
        FrameInUse(c, s, s', t, j);
      } else {
        NowInUse(c, s, s', t, j0);
      }
    }
  }

  lemma NowInUse(c: Config, s: State, s': State, t: nat, j0: nat)
    requires Shape(c, s) && Sized(c, s') && t < |s.threads| && j0 < c.slots && s'.slots[j0].Some?
    requires var pc := s.threads[t].pc;
             (pc.StoreSlot? || pc.BumpHead? || pc.ClearSlot?) && RingPc(c, s, t, pc) && j0 == Slot(c, pc.at)
    requires Inv(c, s) && s' == StepThread(c, s, t)
    ensures InUse(c, s', j0)
  {
    hide Locks, Queued, AppliedInv, Dones, Numbers, Visible, NoLostPublish, Slot, PcShape, Ring;
    var pc := s.threads[t].pc;
    if pc.StoreSlot? {
      assert UsesSlot(c, s'.threads[t].pc, Slot(c, pc.at));
    } else if pc.BumpHead? {
      assert s'.tail <= s.head < s'.head;
    }
  }

  lemma TakeOccupied(c: Config, s: State, s': State, t: nat)
    requires Takes(c, s, s', t) && Occupied(c, s)
    ensures Occupied(c, s')
  {
    hide Locks, Queued, AppliedInv, Dones, Numbers, Visible, NoLostPublish, Slot, PcShape, Ring;
    forall j | 0 <= j < c.slots && s'.slots[j].Some? ensures InUse(c, s', j) {
      if i: nat :| s.tail <= i < s.head && Slot(c, i) == j {
        if i == s.tail { assert UsesSlot(c, s'.threads[t].pc, j); }
        assert Slot(c, i) == j;
      } else {
        var u :| 0 <= u < |s.threads| && UsesSlot(c, s.threads[u].pc, j);
        assert UsesSlot(c, s'.threads[u].pc, j);
      }
    }
  }

  lemma FrameGapless(c: Config, s: State, s': State, t: nat)
    requires Sized(c, s) && Sized(c, s') && Gapless(c, s) && OnlyMoves(s, s', t)
    requires s'.head == s.head && s'.order == s.order && s'.logSeqNum == s.logSeqNum && s'.threads[t].sn == s.threads[t].sn
    requires !s.threads[t].pc.Assign? && !s'.threads[t].pc.Assign?
    requires s'.threads[t].pc == s.threads[t].pc || !s'.threads[t].pc.AwaitVisible?
    ensures Gapless(c, s')
  {
  }

  lemma BumpGapless(c: Config, s: State, s': State, t: nat)
    requires Bumps(c, s, s', t) && Gapless(c, s)
    ensures Gapless(c, s')
  {
    hide Queued, Ring, AppliedInv, Dones, Visible, NoLostPublish, Slot, PcShape, Numbers;
    assert forall u | 0 <= u < |s.threads| :: s.threads[u].pc.HoldsLock() ==> u == t;
    assert 0 < s.head ==> s'.order[s.head - 1] == s.order[s.head - 1];
    BumpQueued(c, s, s', t);
  }

  lemma AssignIs(c: Config, s: State, t: nat)
    requires Shape(c, s) && t < |s.threads| && s.threads[t].pc.Assign?
    ensures var s', th, start := StepThread(c, s, t), s.threads[t], s.logSeqNum;
            var sn := if c.allocates[t] && start == 0 then 1 else start;
            var pc := if c.allocates[t] then AwaitVisible(start) else Unlock;
            s' == s.(threads := s.threads[t := th.(pc := pc, sn := sn)], logSeqNum := sn + c.counts[t])
  {
  }

  lemma AssignGapless(c: Config, s: State, s': State, t: nat)
    requires Inv(c, s) && Inv(c, s') && t < |s.threads| && s.threads[t].pc.Assign? && Gapless(c, s)
    requires s' == StepThread(c, s, t)
    ensures Gapless(c, s')
  {
    hide Ring, AppliedInv, Dones, Visible, NoLostPublish, Slot, PcShape;
    AssignIs(c, s, t);
    hide StepThread;
    assert forall u | 0 <= u < |s.threads| :: s.threads[u].pc.HoldsLock() ==> u == t;
    assert s.order[s.head - 1] == t;
    if s.head > 1 { assert s.order[s.head - 2] != s.order[s.head - 1]; }
  }

  lemma StepThreadProgress(c: Config, s: State, s': State, t: nat)
    requires Inv(c, s) && Inv(c, s') && Progress(c, s) && t < |s.threads| && s' == StepThread(c, s, t)
    ensures Progress(c, s')
  {
    hide Locks, Queued, Ring, AppliedInv, Dones, Numbers, Visible, NoLostPublish, Slot, PcShape, Occupied, Gapless, RingPc;
    var pc := s.threads[t].pc;
    if pc.BumpHead? {
      MoveOccupied(c, s, s', t);
      BumpGapless(c, s, s', t);
    } else if pc.StoreSlot? || pc.ClearSlot? {
      MoveOccupied(c, s, s', t);
      FrameGapless(c, s, s', t);
    } else if pc.Assign? {
      FrameOccupied(c, s, s', t);
      AssignGapless(c, s, s', t);
    } else if pc.CasTail? && s.head == pc.head && s.tail == pc.tail {
      CasTakes(c, s, s', t);
      TakeOccupied(c, s, s', t);
      FrameGapless(c, s, s', t);
    } else {
      QuietFrame(c, s, s', t);
      FrameOccupied(c, s, s', t);
      FrameGapless(c, s, s', t);
    }
  }

  lemma CasTakes(c: Config, s: State, s': State, t: nat)
    requires Inv(c, s) && Inv(c, s') && t < |s.threads| && s' == StepThread(c, s, t)
    requires var pc := s.threads[t].pc; pc.CasTail? && s.head == pc.head && s.tail == pc.tail
    ensures Takes(c, s, s', t)
  {
    hide Locks, Queued, AppliedInv, Dones, Numbers, Visible, NoLostPublish, Slot, PcShape, Ring;
    RingAt(c, s, t);
  }

  /** A step that leaves the ring and the numbers alone. */
  predicate LeavesRing(s: State, pc: Pc) {
    && !pc.BumpHead? && !pc.StoreSlot? && !pc.ClearSlot? && !pc.Assign?
    && (pc.CasTail? ==> s.head != pc.head || s.tail != pc.tail)
  }

  lemma OthersStay(c: Config, s: State, s': State, t: nat)
    requires Shape(c, s) && t < |s.threads| && s' == StepThread(c, s, t)
    ensures OnlyMoves(s, s', t)
  {
    hide Slot, End, Shape;
    if s.threads[t].pc.SignalDone? { SignalIs(c, s, t); } else { ThreadsOf(c, s, t); }
    hide StepThread;
  }

  /** A step writes to its own thread only, except that it signals another. */
  lemma ThreadsOf(c: Config, s: State, t: nat)
    requires Shape(c, s) && t < |s.threads| && !s.threads[t].pc.SignalDone?
    ensures |StepThread(c, s, t).threads| == |s.threads|
    ensures StepThread(c, s, t).threads == s.threads[t := StepThread(c, s, t).threads[t]]
  {
    hide Slot, End, PcShape, Sized;
    var s' := StepThread(c, s, t);
    if s' == s { assert s.threads == s.threads[t := s.threads[t]]; }
  }

  lemma SignalIs(c: Config, s: State, t: nat)
    requires Shape(c, s) && t < |s.threads| && s.threads[t].pc.SignalDone?
    ensures var b := s.threads[t].pc.b;
            b < |s.threads| && StepThread(c, s, t) == Goto(s.(threads := s.threads[b := s.threads[b].(done := s.threads[b].done + 1)]), t, Dequeue)
  {
  }

  lemma QuietFrame(c: Config, s: State, s': State, t: nat)
    requires Shape(c, s) && t < |s.threads| && s' == StepThread(c, s, t) && LeavesRing(s, s.threads[t].pc)
    ensures OnlyMoves(s, s', t) && SameRing(s, s') && s'.logSeqNum == s.logSeqNum
    ensures s'.threads[t].sn == s.threads[t].sn && !s'.threads[t].pc.Assign?
    ensures s'.threads[t].pc == s.threads[t].pc || !s'.threads[t].pc.AwaitVisible?
  {
    hide Slot, End, OnlyMoves;
    OthersStay(c, s, s', t);
  }

  lemma StepProgress(c: Config, s: State, e: Event)
    requires Inv(c, s) && Inv(c, Step(c, s, e)) && Progress(c, s)
    ensures Progress(c, Step(c, s, e))
  {
    hide Locks, Queued, Ring, AppliedInv, Dones, Numbers, Visible, NoLostPublish, Slot, PcShape, Occupied, Gapless, StepThread;
    var s' := Step(c, s, e);
    match e
    case Run(t) => if t < |s.threads| { StepThreadProgress(c, s, s', t); }
    case Synced(t) =>
      if t < |s.threads| {
        SyncedOccupied(c, s, s', t);
        SyncedGapless(c, s, s', t);
      }
  }

  lemma SyncedOccupied(c: Config, s: State, s': State, t: nat)
    requires Shape(c, s) && Sized(c, s') && t < |s.threads| && Occupied(c, s) && s' == Step(c, s, Synced(t))
    ensures Occupied(c, s')
  {
    hide Slot, PcShape;
    forall j | 0 <= j < c.slots && s'.slots[j].Some? ensures InUse(c, s', j) {
      if i: nat :| s.tail <= i < s.head && Slot(c, i) == j {
        assert Slot(c, i) == j;
      } else {
        var u :| 0 <= u < |s.threads| && UsesSlot(c, s.threads[u].pc, j);
        assert UsesSlot(c, s'.threads[u].pc, j);
      }
    }
  }

  lemma SyncedGapless(c: Config, s: State, s': State, t: nat)
    requires Shape(c, s) && Sized(c, s') && t < |s.threads| && Gapless(c, s) && s' == Step(c, s, Synced(t))
    ensures Gapless(c, s')
  {
    hide Slot, PcShape;
  }

  lemma InitProgress(c: Config)
    requires c.Valid()
    ensures Sized(c, Init(c)) && Progress(c, Init(c))
  {
  }

  lemma {:induction false} ReachedProgress(c: Config, es: seq<Event>)
    requires c.Valid()
    ensures Progress(c, Reached(c, es))
  {
    hide Locks, Queued, Ring, AppliedInv, Dones, Numbers, Visible, NoLostPublish, Slot, PcShape, Progress, Step, Init;
    if es == [] {
      InitProgress(c);
    } else {
      var s := Reached(c, es[..|es| - 1]);
      ReachedProgress(c, es[..|es| - 1]);
      StepInv(c, s, es[|es| - 1]);
      StepProgress(c, s, es[|es| - 1]);
    }
  }

  // ---------------------------------------------------------------------
  // No deadlock
  // ---------------------------------------------------------------------

  /** No committer can take a step, and no sync is outstanding. */
  predicate Stuck(c: Config, s: State)
    requires Shape(c, s)
  {
    forall t | 0 <= t < |s.threads| :: StepThread(c, s, t) == s && (s.threads[t].syncPending ==> s.threads[t].pc.BeforeAssign())
  }

  /** Where a committer can be stopped. */
  lemma StuckAt(c: Config, s: State, t: nat)
    requires Shape(c, s) && t < |s.threads| && StepThread(c, s, t) == s && (s.threads[t].syncPending ==> s.threads[t].pc.BeforeAssign())
    ensures var pc := s.threads[t].pc;
            || pc.Finished? || pc.Panicked?
            || (pc.Idle? && c.slots - 1 <= |s.holders|)
            || (pc.WantLock? && s.mu.Some?)
            || (pc.Spin? && s.slots[Slot(c, pc.at)].Some?)
            || (pc.AwaitVisible? && s.visibleSeqNum != pc.start)
            || (pc.Waiting? && s.threads[t].done == 0)
  {
    hide Slot;
    assert s.threads[t].pc == StepThread(c, s, t).threads[t].pc;
  }

  predicate CanRest(pc: Pc) {
    pc.Finished? || pc.Idle? || pc.WantLock? || pc.Spin? || pc.AwaitVisible? || pc.Waiting?
  }

  lemma AllRest(c: Config, s: State)
    requires Inv(c, s) && Stuck(c, s)
    ensures forall t | 0 <= t < |s.threads| :: CanRest(s.threads[t].pc)
  {
    hide Queued, Ring, AppliedInv, Dones, Numbers, Visible, NoLostPublish, Slot, PcShape, StepThread;
    forall t | 0 <= t < |s.threads| ensures CanRest(s.threads[t].pc) {
      StuckAt(c, s, t);
    }
  }

  /** When all rest, every pending batch but one waiting ingestion has been published. */
  lemma RestPublished(c: Config, s: State)
    requires Inv(c, s) && forall t | 0 <= t < |s.threads| :: CanRest(s.threads[t].pc)
    ensures s.tail < s.head ==> s.threads[s.order[s.tail]].pc.AwaitVisible?
    ensures forall i | 0 <= i < s.tail :: s.threads[s.order[i]].done == 1
  {
    hide Locks, Ring, Numbers, Visible, Slot, PcShape;
    forall i | 0 <= i < s.tail ensures s.threads[s.order[i]].done == 1 {
      assert s.order[..s.tail][i] == s.order[i];
      assert Taken(s, s.order[i]);
    }
  }

  lemma SpinSlotFree(c: Config, s: State, t: nat)
    requires Inv(c, s) && Occupied(c, s) && t < |s.threads| && s.threads[t].pc.Spin?
    requires forall t | 0 <= t < |s.threads| :: CanRest(s.threads[t].pc)
    ensures s.slots[Slot(c, s.threads[t].pc.at)].None?
  {
    hide Locks, Queued, AppliedInv, Dones, Numbers, Visible, NoLostPublish, Slot, PcShape;
    RingAt(c, s, t);
    var j := Slot(c, s.head);
    if s.slots[j].Some? {
      assert InUse(c, s, j);
      var i: nat :| s.tail <= i < s.head && Slot(c, i) == j;
      SlotsDiffer(c, i, s.head);
    }
  }

  /** An ingestion that waits alone sees the number that it waits for. */
  lemma AwaitSatisfied(c: Config, s: State, t: nat)
    requires Inv(c, s) && Gapless(c, s) && t < |s.threads| && s.threads[t].pc.AwaitVisible?
    requires forall t | 0 <= t < |s.threads| :: CanRest(s.threads[t].pc)
    ensures s.visibleSeqNum == s.threads[t].pc.start
  {
    hide Ring, NoLostPublish, Slot, PcShape, Numbers, Dones, Queued;
    RestPublished(c, s);
    assert forall u | 0 <= u < |s.threads| && s.threads[u].pc.AwaitVisible? :: u == t;
    AwaitIsLast(c, s, t);
    if s.tail > 0 { assert 0 < s.threads[s.order[s.tail - 1]].done; }
  }

  lemma AwaitIsLast(c: Config, s: State, t: nat)
    requires Inv(c, s) && t < |s.threads| && s.threads[t].pc.AwaitVisible? && 0 < s.head && s.order[s.head - 1] == t
    requires s.tail < s.head ==> s.order[s.tail] == t
    ensures s.tail == s.head - 1
  {
    hide Locks, Ring, Dones, Numbers, Visible, NoLostPublish, Slot, PcShape;
  }

  /** Without the mutex taken and with nobody publishing, every commit is done. */
  lemma NobodyWaits(c: Config, s: State, t: nat)
    requires Inv(c, s) && t < |s.threads| && s.threads[t].pc.Waiting? && s.mu.None?
    requires forall t | 0 <= t < |s.threads| :: CanRest(s.threads[t].pc)
    ensures s.threads[t].done == 1
  {
    hide Ring, AppliedInv, Dones, Numbers, Visible, NoLostPublish, Slot, PcShape;
    RestPublished(c, s);
    assert t in s.order;
  }

  lemma SemaphoreFree(c: Config, s: State)
    requires Inv(c, s) && (forall t | t in s.holders :: t < |s.threads|)
    requires forall t | 0 <= t < |s.threads| :: s.threads[t].pc.Idle? || s.threads[t].pc.Finished?
    ensures |s.holders| == 0
  {
    hide Queued, Ring, AppliedInv, Dones, Numbers, Visible, NoLostPublish, Slot, PcShape;
    assert s.holders == {};
  }

  /** The pipeline cannot deadlock: when nothing can move, every commit has returned. */
  lemma NoDeadlock(c: Config, es: seq<Event>)
    requires c.Valid() && Stuck(c, Reached(c, es))
    ensures forall t | 0 <= t < |c.counts| :: Reached(c, es).threads[t].pc.Finished?
  {
    ReachedProgress(c, es);
    StuckIsOver(c, Reached(c, es));
  }

  lemma StuckIsOver(c: Config, s: State)
    requires Inv(c, s) && Progress(c, s) && Stuck(c, s)
    ensures forall t | 0 <= t < |s.threads| :: s.threads[t].pc.Finished?
  {
    hide Locks, Queued, Ring, AppliedInv, Dones, Numbers, Visible, NoLostPublish, Slot, PcShape, Occupied, Gapless, StepThread, CanRest;
    AllRest(c, s);
    forall t | 0 <= t < |s.threads| ensures !s.threads[t].pc.Spin? && !s.threads[t].pc.AwaitVisible? {
      StuckAt(c, s, t);
      if s.threads[t].pc.Spin? { SpinSlotFree(c, s, t); }
      if s.threads[t].pc.AwaitVisible? { AwaitSatisfied(c, s, t); }
    }
    MutexFree(c, s);
    forall t | 0 <= t < |s.threads| ensures s.threads[t].pc.Idle? || s.threads[t].pc.Finished? {
      StuckAt(c, s, t);
      RestOf(c, s, t);
      if s.threads[t].pc.Waiting? { NobodyWaits(c, s, t); }
    }
    SemaphoreFree(c, s);
    forall t | 0 <= t < |s.threads| ensures s.threads[t].pc.Finished? {
      StuckAt(c, s, t);
      RestOf(c, s, t);
    }
  }

  lemma RestOf(c: Config, s: State, t: nat)
    requires t < |s.threads| && CanRest(s.threads[t].pc)
    ensures !s.threads[t].pc.Panicked?
  {
  }

  lemma MutexFree(c: Config, s: State)
    requires Inv(c, s) && forall t | 0 <= t < |s.threads| :: CanRest(s.threads[t].pc)
    requires forall t | 0 <= t < |s.threads| :: !s.threads[t].pc.Spin? && !s.threads[t].pc.AwaitVisible?
    ensures s.mu.Some? ==> |s.threads| <= s.mu.value
  {
    hide Queued, Ring, AppliedInv, Dones, Numbers, Visible, NoLostPublish, Slot, PcShape;
  }
}
