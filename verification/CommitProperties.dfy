/**
What the commit pipeline promises, for every run: reads see whole batches in
order, a commit that returned is visible, the ring is a queue, no publish is
lost, nothing panics, and nobody waits for ever for want of someone to move.
*/
module CommitProperties {
  import opened Options
  import opened CommitPipeline

  // ---------------------------------------------------------------------
  // The visible sequence number
  // ---------------------------------------------------------------------

  lemma VisibleStep(c: Config, s: State, e: Event)
    requires Inv(c, s)
    ensures s.visibleSeqNum <= Step(c, s, e).visibleSeqNum
  {
    hide Locks, Queued, Ring, AppliedInv, Dones, Numbers, NoLostPublish, Slot;
  }

  /** visibleSeqNum never falls. */
  lemma {:induction false} VisibleNeverFalls(c: Config, es: seq<Event>, more: seq<Event>)
    requires c.Valid()
    ensures Reached(c, es).visibleSeqNum <= Reached(c, es + more).visibleSeqNum
    decreases |more|
  {
    hide Inv, Step;
    if more == [] {
      assert es + more == es;
    } else {
      var n := |more| - 1;
      VisibleNeverFalls(c, es, more[..n]);
      assert (es + more)[..|es + more| - 1] == es + more[..n];
      VisibleStep(c, Reached(c, es + more[..n]), more[n]);
    }
  }

  /** Whether the batch at position i of the queue's history has its number. */
  predicate Numbered(c: Config, s: State, i: nat)
    requires Sized(c, s) && i < s.head
  {
    !s.threads[s.order[i]].pc.BeforeAssign()
  }

  /** What a reader sees of the batches: a prefix of the queue's history, every
      batch of it whole and applied, and nothing of any later batch. */
  lemma ReadersSeeAPrefix(c: Config, es: seq<Event>) returns (m: nat)
    requires c.Valid()
    ensures var s := Reached(c, es);
            && m <= s.tail
            && (forall i | 0 <= i < m :: End(c, s, s.order[i]) <= s.visibleSeqNum && s.threads[s.order[i]].applied)
            && (forall i | m <= i < s.head && Numbered(c, s, i) :: s.visibleSeqNum <= s.threads[s.order[i]].sn)
  {
    m := PrefixSeen(c, Reached(c, es));
  }

  lemma PrefixSeen(c: Config, s: State) returns (m: nat)
    requires Inv(c, s)
    ensures m <= s.tail
    ensures forall i | 0 <= i < m :: End(c, s, s.order[i]) <= s.visibleSeqNum && s.threads[s.order[i]].applied
    ensures forall i | m <= i < s.head && Numbered(c, s, i) :: s.visibleSeqNum <= s.threads[s.order[i]].sn
  {
    hide Locks, Queued, Ring, Dones, NoLostPublish, Slot, PcShape;
    if s.visibleSeqNum == c.firstSn {
      m := 0;
    } else {
      var j :| 0 <= j < s.tail && s.visibleSeqNum == End(c, s, s.order[j]);
      m := j + 1;
      forall i | 0 <= i < m ensures End(c, s, s.order[i]) <= s.visibleSeqNum && s.threads[s.order[i]].applied {
        if i < j {
          assert s.threads[s.order[j]].applied;
          assert End(c, s, s.order[i]) <= s.threads[s.order[j]].sn;
        }
      }
    }
  }

  /** A batch that has records is never half visible, and when it is visible it
      is applied. */
  lemma BatchesAreAtomic(c: Config, es: seq<Event>, b: nat)
    requires c.Valid() && b < |c.counts| && 0 < c.counts[b]
    requires !Reached(c, es).threads[b].pc.BeforeAssign()
    ensures var s := Reached(c, es);
            || s.visibleSeqNum <= s.threads[b].sn
            || (End(c, s, b) <= s.visibleSeqNum && s.threads[b].applied)
  {
    var s := Reached(c, es);
    var m := PrefixSeen(c, s);
    var i := PositionOf(c, s, b);
    assert Numbered(c, s, i);
  }

  lemma PositionOf(c: Config, s: State, b: nat) returns (i: nat)
    requires Inv(c, s) && b < |s.threads| && !s.threads[b].pc.BeforeBump()
    ensures i < s.head && s.order[i] == b
  {
    hide Locks, Ring, AppliedInv, Dones, Numbers, Visible, NoLostPublish, Slot, PcShape;
    assert b in s.order;
    i :| 0 <= i < |s.order| && s.order[i] == b;
  }

  /** Upon return of Commit the batch is applied, visible, and was signalled exactly
      once; and if a sync was asked for, the schedule has the sync of the batch, after
      the batch was in the WAL. */
  lemma CommitReturnsVisible(c: Config, es: seq<Event>, b: nat)
    requires c.Valid() && b < |c.counts| && Reached(c, es).threads[b].pc.Finished?
    ensures var s := Reached(c, es);
            s.threads[b].applied && End(c, s, b) <= s.visibleSeqNum && s.threads[b].done == 1
    ensures c.AsksSync(b) ==> WasSynced(c, es, b)
  {
    SyncHistory(c, es, b);
    hide Locks, Queued, Ring, Numbers, NoLostPublish, Slot, PcShape, WasSynced, Reached;
  }

  // ---------------------------------------------------------------------
  // Syncs
  // ---------------------------------------------------------------------

  /** Committer b after a run. */
  ghost function ThreadAt(c: Config, es: seq<Event>, b: nat): Thread
    requires c.Valid() && b < |c.counts|
  {
    InvShape(c, Reached(c, es));
    Reached(c, es).threads[b]
  }

  /** The schedule has a sync of the batch, at a time when the batch was in the WAL. */
  ghost predicate WasSynced(c: Config, es: seq<Event>, b: nat)
    requires c.Valid() && b < |c.counts|
  {
    exists i :: 0 <= i < |es| && SyncedAt(c, es, b, i)
  }

  ghost predicate SyncedAt(c: Config, es: seq<Event>, b: nat, i: nat)
    requires c.Valid() && b < |c.counts| && i < |es|
  {
    es[i] == Synced(b) && !ThreadAt(c, es[..i], b).pc.BeforeAssign()
  }

  lemma WasSyncedNext(c: Config, es: seq<Event>, b: nat)
    requires c.Valid() && b < |c.counts| && es != []
    ensures var n := |es| - 1;
            WasSynced(c, es, b) <==> WasSynced(c, es[..n], b) || SyncedAt(c, es, b, n)
  {
    hide ThreadAt;
    var n := |es| - 1;
    forall i | 0 <= i < n ensures SyncedAt(c, es, b, i) <==> SyncedAt(c, es[..n], b, i) {
      assert es[..n][..i] == es[..i];
    }
    if WasSynced(c, es[..n], b) {
      var i :| 0 <= i < n && SyncedAt(c, es[..n], b, i);
      assert SyncedAt(c, es, b, i);
    }
    if WasSynced(c, es, b) {
      var i :| 0 <= i < |es| && SyncedAt(c, es, b, i);
      if i < n { assert SyncedAt(c, es[..n], b, i); }
    }
  }

  predicate Returning(pc: Pc) { pc.Release? || pc.Finished? }

  /** A step of a committer leaves everyone's outstanding sync as it is, and passes the
      wait only without one. */
  ghost predicate KeepsSync(s: State, s': State, b: nat) {
    && b < |s.threads| == |s'.threads| && s'.threads[b].syncPending == s.threads[b].syncPending
    && (Returning(s'.threads[b].pc) ==> Returning(s.threads[b].pc) || !s.threads[b].syncPending)
  }

  lemma EnqueueKeepsSync(c: Config, s: State, t: nat, b: nat)
    requires Shape(c, s) && t < |s.threads| && b < |s.threads| && s.threads[t].pc.BeforeBump()
    ensures KeepsSync(s, StepThread(c, s, t), b)
  {
    hide Slot, End, PcShape;
  }

  lemma PrepareKeepsSync(c: Config, s: State, t: nat, b: nat)
    requires Shape(c, s) && t < |s.threads| && b < |s.threads| && s.threads[t].pc.BeforeApplied() && !s.threads[t].pc.BeforeBump()
    ensures KeepsSync(s, StepThread(c, s, t), b)
  {
    hide Slot, End, PcShape;
  }

  lemma LateKeepsSync(c: Config, s: State, t: nat, b: nat)
    requires Shape(c, s) && t < |s.threads| && b < |s.threads| && !s.threads[t].pc.BeforeApplied()
    ensures KeepsSync(s, StepThread(c, s, t), b)
  {
    hide Slot, End;
  }

  lemma SyncStep(c: Config, s: State, e: Event, b: nat)
    requires Shape(c, s) && b < |s.threads|
    ensures var s' := Step(c, s, e);
            && |s'.threads| == |s.threads|
            && (s'.threads[b].syncPending <==> s.threads[b].syncPending && !(e == Synced(b) && !s.threads[b].pc.BeforeAssign()))
            && (Returning(s'.threads[b].pc) ==> Returning(s.threads[b].pc) || !s.threads[b].syncPending)
  {
    hide StepThread, Shape;
    if e.Run? && e.t < |s.threads| {
      if s.threads[e.t].pc.BeforeBump() { EnqueueKeepsSync(c, s, e.t, b); }
      else if s.threads[e.t].pc.BeforeApplied() { PrepareKeepsSync(c, s, e.t, b); }
      else { LateKeepsSync(c, s, e.t, b); }
    }
  }

  lemma LastStep(c: Config, es: seq<Event>, b: nat)
    requires c.Valid() && b < |c.counts| && es != []
    ensures var n := |es| - 1;
            var th, th' := ThreadAt(c, es[..n], b), ThreadAt(c, es, b);
            && (th'.syncPending <==> th.syncPending && !SyncedAt(c, es, b, n))
            && (Returning(th'.pc) ==> Returning(th.pc) || !th.syncPending)
  {
    hide Inv, Step, Shape, Init;
    var n := |es| - 1;
    var s := Reached(c, es[..n]);
    InvShape(c, s);
    assert b < |s.threads| by { ShapeSize(c, s); }
    SyncStep(c, s, es[n], b);
    InvShape(c, Reached(c, es));
  }

  lemma ShapeSize(c: Config, s: State)
    requires Shape(c, s)
    ensures |s.threads| == |c.counts|
  {
  }

  /** In every run a committer has a sync outstanding exactly when it asked for one and the
      schedule has not brought it since the batch was in the WAL. It returns only without
      one outstanding. */
  lemma {:induction false} SyncHistory(c: Config, es: seq<Event>, b: nat)
    requires c.Valid() && b < |c.counts|
    ensures var th := ThreadAt(c, es, b);
            && (th.syncPending <==> c.AsksSync(b) && !WasSynced(c, es, b))
            && (Returning(th.pc) ==> !th.syncPending)
  {
    if es == [] {
      InitThread(c, b);
    } else {
      hide ThreadAt, WasSynced, SyncedAt;
      var n := |es| - 1;
      SyncHistory(c, es[..n], b);
      WasSyncedNext(c, es, b);
      LastStep(c, es, b);
    }
  }

  lemma InitThread(c: Config, b: nat)
    requires c.Valid() && b < |c.counts|
    ensures ThreadAt(c, [], b) == Thread(Idle, 0, false, 0, c.AsksSync(b))
  {
    hide Inv;
  }

  // ---------------------------------------------------------------------
  // AllocateSeqNum
  // ---------------------------------------------------------------------

  /** Its number is taken, and the wait for earlier writes is over. */
  predicate Prepared(pc: Pc) { !pc.BeforeAssign() && !pc.AwaitVisible? }

  /** How a step may change committer b's number and get it past the wait. */
  ghost predicate Numbering(c: Config, s: State, s': State, b: nat)
    requires b < |c.counts|
  {
    && b < |s.threads| == |s'.threads| && b < |c.allocates|
    && var th, th' := s.threads[b], s'.threads[b];
       if th.pc.BeforeAssign() && !th'.pc.BeforeAssign() then
         s.logSeqNum <= th'.sn && (c.allocates[b] ==> 0 < th'.sn && th'.pc.AwaitVisible?)
       else
         && th'.pc.BeforeAssign() == th.pc.BeforeAssign() && th'.sn == th.sn
         && (Prepared(th'.pc) ==> Prepared(th.pc) || (th.pc.AwaitVisible? && s.visibleSeqNum == th.pc.start))
  }

  lemma EnqueueNumbers(c: Config, s: State, t: nat, b: nat)
    requires Shape(c, s) && t < |s.threads| && b < |s.threads| && s.threads[t].pc.BeforeBump()
    ensures var s' := StepThread(c, s, t);
            |s'.threads| == |s.threads| && (Numbering(c, s, s', b) || s'.threads[t].pc.Panicked?)
  {
    hide Slot, End, PcShape;
  }

  lemma PrepareNumbers(c: Config, s: State, t: nat, b: nat)
    requires Shape(c, s) && t < |s.threads| && b < |s.threads| && s.threads[t].pc.BeforeApplied() && !s.threads[t].pc.BeforeBump()
    ensures var s' := StepThread(c, s, t);
            |s'.threads| == |s.threads| && (Numbering(c, s, s', b) || s'.threads[t].pc.Panicked?)
  {
    hide Slot, End, PcShape;
  }

  lemma LateNumbers(c: Config, s: State, t: nat, b: nat)
    requires Shape(c, s) && t < |s.threads| && b < |s.threads| && !s.threads[t].pc.BeforeApplied()
    ensures Numbering(c, s, StepThread(c, s, t), b)
  {
    hide Slot, End;
  }

  lemma NoPanic(c: Config, s: State, t: nat)
    requires Inv(c, s) && t < |c.counts|
    ensures t < |s.threads| && !s.threads[t].pc.Panicked?
  {
    hide Queued, Ring, AppliedInv, Dones, Numbers, Visible, NoLostPublish, Slot, PcShape;
  }

  lemma StepNumbers(c: Config, s: State, e: Event, b: nat)
    requires Inv(c, s) && b < |c.counts|
    ensures Numbering(c, s, Step(c, s, e), b)
  {
    hide StepThread, Inv, PcShape;
    InvShape(c, s);
    StepInv(c, s, e);
    if e.Run? && e.t < |s.threads| { NoPanic(c, Step(c, s, e), e.t); }
    if e.Run? && e.t < |s.threads| {
      if s.threads[e.t].pc.BeforeBump() { EnqueueNumbers(c, s, e.t, b); }
      else if s.threads[e.t].pc.BeforeApplied() { PrepareNumbers(c, s, e.t, b); }
      else { LateNumbers(c, s, e.t, b); }
    }
  }

  /** Every batch numbered before t's is visible. */
  ghost predicate Overtaken(c: Config, s: State, t: nat, b: nat)
    requires t < |s.threads| == |c.counts| && b < |s.threads|
  {
    b != t && Prepared(s.threads[t].pc) && !s.threads[b].pc.BeforeAssign() && s.threads[b].sn < s.threads[t].sn ==>
      End(c, s, b) <= s.visibleSeqNum
  }

  lemma OvertakenStep(c: Config, s: State, e: Event, t: nat, b: nat)
    requires Inv(c, s) && t < |c.counts| && b < |c.counts| && c.allocates[t] && Overtaken(c, s, t, b)
    ensures |Step(c, s, e).threads| == |c.counts| && Overtaken(c, Step(c, s, e), t, b)
  {
    hide StepThread, Step, PcShape, Locks, Queued, Ring, AppliedInv, Dones, Visible, NoLostPublish, Slot;
    StepNumbers(c, s, e, t);
    StepNumbers(c, s, e, b);
    VisibleStep(c, s, e);
  }

  /** When the prepare callback of AllocateSeqNum has begun, and ever after, every batch with an
      earlier number is visible, and applied if it has records. */
  lemma PrepareSeesEarlierWrites(c: Config, es: seq<Event>, t: nat, b: nat)
    requires c.Valid() && t < |c.counts| && b < |c.counts| && c.allocates[t]
    requires var s := Reached(c, es); !s.threads[b].pc.BeforeAssign() && s.threads[b].sn < s.threads[t].sn
    requires Prepared(Reached(c, es).threads[t].pc)
    ensures var s := Reached(c, es);
            End(c, s, b) <= s.visibleSeqNum && (0 < c.counts[b] ==> s.threads[b].applied)
  {
    OvertakenAlways(c, es, t, b);
    if 0 < c.counts[b] { BatchesAreAtomic(c, es, b); }
  }

  lemma {:induction false} OvertakenAlways(c: Config, es: seq<Event>, t: nat, b: nat)
    requires c.Valid() && t < |c.counts| && b < |c.counts| && c.allocates[t]
    ensures Overtaken(c, Reached(c, es), t, b)
  {
    hide Inv, Step;
    if es == [] {
      InvShape(c, Reached(c, es));
    } else {
      var s := Reached(c, es[..|es| - 1]);
      InvShape(c, s);
      OvertakenAlways(c, es[..|es| - 1], t, b);
      OvertakenStep(c, s, es[|es| - 1], t, b);
    }
  }

  /** No ingestion gets the number 0, which stands for no number. */
  lemma {:induction false} AllocatedIsNotZero(c: Config, es: seq<Event>, t: nat)
    requires c.Valid() && t < |c.counts| && c.allocates[t]
    ensures !ThreadAt(c, es, t).pc.BeforeAssign() ==> 0 < ThreadAt(c, es, t).sn
  {
    hide Inv, Step, StepThread, PcShape, Init;
    if es == [] {
      InitThread(c, t);
    } else {
      var s := Reached(c, es[..|es| - 1]);
      InvShape(c, s);
      InvShape(c, Reached(c, es));
      AllocatedIsNotZero(c, es[..|es| - 1], t);
      StepNumbers(c, s, es[|es| - 1], t);
    }
  }

  // ---------------------------------------------------------------------
  // The ring is a queue
  // ---------------------------------------------------------------------

  /** The batches waiting to be published, oldest first. */
  function Pending(s: State): seq<nat>
    requires s.tail <= |s.order|
  {
    s.order[s.tail..]
  }

  /** A step of a queue: batch t joins at the end, the oldest batch leaves, applied,
      into the hands of t, or nothing changes. */
  predicate QueueStep(c: Config, s: State, s': State, t: nat)
    requires Sized(c, s) && Sized(c, s') && |s'.threads| == |s.threads|
  {
    || Pending(s') == Pending(s)
    || (t !in s.order && Pending(s') == Pending(s) + [t])
    || (&& t < |s.threads| && s.tail < s.head && Pending(s) == [s.order[s.tail]] + Pending(s')
        && s.threads[s.order[s.tail]].applied && s'.threads[t].pc.Held() == Some(s.order[s.tail]))
  }

  /** The ring, with its stale reads and failed swaps, is a queue. */
  lemma RingRefinesQueue(c: Config, es: seq<Event>, e: Event)
    requires c.Valid()
    ensures QueueStep(c, Reached(c, es), Reached(c, es + [e]), e.t)
  {
    hide Inv, StepThread;
    var s := Reached(c, es);
    assert (es + [e])[..|es|] == es;
    InvShape(c, s);
    if e.Run? && e.t < |s.threads| {
      StepInv(c, s, e);
      QueueStepThread(c, s, StepThread(c, s, e.t), e.t);
    }
  }

  lemma QueueStepThread(c: Config, s: State, s': State, t: nat)
    requires Inv(c, s) && Inv(c, s') && t < |s.threads| && s' == StepThread(c, s, t)
    ensures QueueStep(c, s, s', t)
  {
    hide Locks, Queued, Ring, AppliedInv, Dones, Numbers, Visible, NoLostPublish, Slot, PcShape;
    var pc := s.threads[t].pc;
    if pc.BumpHead? {
      BumpQueued(c, s, s', t);
      assert Pending(s') == Pending(s) + [t];
    } else if pc.CasTail? {
      RingAt(c, s, t);
      CasIsApplied(c, s, t);
    }
  }

  lemma CasIsApplied(c: Config, s: State, t: nat)
    requires Shape(c, s) && AppliedInv(c, s) && t < |s.threads| && s.threads[t].pc.CasTail?
    ensures s.threads[s.threads[t].pc.b].applied
  {
  }

  /** No batch is enqueued or dequeued twice, and each dequeued batch is either
      held by exactly one thread or was signalled exactly once. */
  lemma DeliveredExactlyOnce(c: Config, es: seq<Event>)
    requires c.Valid()
    ensures var s := Reached(c, es);
            && (forall i, j | 0 <= i < j < |s.order| :: s.order[i] != s.order[j])
            && (forall i | 0 <= i < s.tail :: s.threads[s.order[i]].done + (if HeldBySome(s, s.order[i]) then 1 else 0) == 1)
            && (forall i | s.tail <= i < s.head :: s.threads[s.order[i]].done == 0 && !HeldBySome(s, s.order[i]))
  {
    hide Locks, Ring, AppliedInv, Numbers, Visible, NoLostPublish, Slot, PcShape;
    var s := Reached(c, es);
    forall i | 0 <= i < s.tail ensures Taken(s, s.order[i]) {
      assert s.order[..s.tail][i] == s.order[i];
    }
    forall i | s.tail <= i < s.head ensures !Taken(s, s.order[i]) {
    }
  }

  /** The source's panics are out of reach; in particular the queue is never full. */
  lemma NeverPanics(c: Config, es: seq<Event>, t: nat)
    requires c.Valid() && t < |c.counts|
    ensures var s := Reached(c, es);
            !s.threads[t].pc.Panicked? && s.head < s.tail + c.slots
  {
    PendingBelowSlots(c, Reached(c, es));
  }

  // ---------------------------------------------------------------------
  // No lost publish
  // ---------------------------------------------------------------------

  /** Outside the publish loop. */
  predicate Resting(pc: Pc) {
    pc.BeforeApplied() || pc.Waiting? || pc.Release? || pc.Finished?
  }

  /** When nobody is in the publish loop, the queue is empty or its oldest batch
      is still being applied, by a committer that has yet to enter the loop. */
  lemma PublishIsNotLost(c: Config, es: seq<Event>)
    requires c.Valid() && forall t | 0 <= t < |Reached(c, es).threads| :: Resting(Reached(c, es).threads[t].pc)
    ensures var s := Reached(c, es);
            s.tail == s.head || s.threads[s.order[s.tail]].pc.BeforeApplied()
  {
    hide Locks, Queued, Ring, Dones, Numbers, Visible, Slot, PcShape;
  }
}
