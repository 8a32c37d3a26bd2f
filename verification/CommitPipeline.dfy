/**
The commit pipeline (commit.go): a single-producer, multi-consumer ring of
pending batches, the allocation of sequence numbers under a mutex, and the
ratchet of the visible sequence number.

Every committer is a thread that commits one batch, in steps as fine as the
atomic operations of the source. A schedule names the thread that takes the
next step. All results hold for every number of committers, every ring size
from two on, and every schedule. Runs are free of WAL and memtable errors, and
ring indices are not bounded to 32 bits: a stale read is taken not to survive
2^32 enqueues.
*/
module CommitPipeline {
  import opened Options

  /** Where a committer is. Parameters are the values it has read so far. */
  datatype Pc =
    | Idle                                        // before commitQueueSem
    | WantLock                                    // before commitPipeline.mu
    | Enqueue                                     // enqueue: load headTail
    | Spin(at: nat)                               // enqueue: wait for the slot to be free
    | StoreSlot(at: nat)                          // enqueue: store the batch
    | BumpHead(at: nat)                           // enqueue: increment head
    | Assign                                      // take a sequence number
    | AwaitVisible(start: nat)                    // AllocateSeqNum: wait for earlier writes
    | Unlock                                      // release the mutex
    | Applying                                    // apply, then mark the batch applied
    | Dequeue                                     // dequeueApplied: load headTail
    | LoadSlot(head: nat, tail: nat)              // dequeueApplied: load the slot
    | LoadApplied(head: nat, tail: nat, b: nat)   // dequeueApplied: is the batch applied
    | CasTail(head: nat, tail: nat, b: nat)       // dequeueApplied: compare and swap
    | ClearSlot(at: nat, b: nat)                  // dequeueApplied: release the slot
    | LoadVisible(b: nat)                         // publish: load visibleSeqNum
    | CasVisible(b: nat, cur: nat)                // publish: compare and swap
    | SignalDone(b: nat)                          // publish: t.commit.Done()
    | Waiting                                     // publish: b.commit.Wait()
    | Release                                     // give commitQueueSem back
    | Finished
    | Panicked                                    // one of the source's panics
  {
    predicate HoldsSem() { !Idle? && !Finished? }
    predicate HoldsLock() { Enqueue? || Spin? || StoreSlot? || BumpHead? || Assign? || AwaitVisible? || Unlock? }
    predicate BeforeBump() { Idle? || WantLock? || Enqueue? || Spin? || StoreSlot? || BumpHead? }
    predicate BeforeAssign() { BeforeBump() || Assign? }
    predicate BeforeApplied() { BeforeAssign() || AwaitVisible? || Unlock? || Applying? }
    /** The batch dequeued by this thread and not yet signalled. */
    function Held(): Option<nat> {
      match this
      case ClearSlot(_, b) => Some(b)
      case LoadVisible(b) => Some(b)
      case CasVisible(b, _) => Some(b)
      case SignalDone(b) => Some(b)
      case _ => None
    }
  }

  /** A committer and its batch. */
  datatype Thread = Thread(pc: Pc, sn: nat, applied: bool, done: nat, syncPending: bool)

  /** The ring size, and for each committer the number of records of its batch,
      whether it allocates a sequence number for an ingestion, and whether it
      waits for a WAL sync, which it does not if it writes nothing to the WAL. */
  datatype Config = Config(slots: nat, counts: seq<nat>, allocates: seq<bool>, syncs: seq<bool>, firstSn: nat) {
    predicate Valid() { 2 <= slots && |counts| == |allocates| == |syncs| }

    predicate AsksSync(t: nat)
      requires Valid() && t < |counts|
    {
      syncs[t] && !allocates[t]
    }
  }

  datatype State = State(
    threads: seq<Thread>,
    head: nat, tail: nat, slots: seq<Option<nat>>,
    mu: Option<nat>, holders: set<nat>,
    logSeqNum: nat, visibleSeqNum: nat,
    order: seq<nat>)            // the batches in the order in which they were enqueued

  /** A scheduling decision, or the WAL writer finishing the sync of a batch. A batch is
      in the WAL when it has its sequence number; before that there is nothing to sync. */
  datatype Event = Run(t: nat) | Synced(t: nat)

  function Init(c: Config): State
    requires c.Valid()
  {
    State(seq(|c.counts|, i requires 0 <= i < |c.counts| => Thread(Idle, 0, false, 0, c.AsksSync(i))),
          0, 0, seq(c.slots, _ => None), None, {}, c.firstSn, c.firstSn, [])
  }

  function Goto(s: State, t: nat, pc: Pc): State
    requires t < |s.threads|
  {
    s.(threads := s.threads[t := s.threads[t].(pc := pc)])
  }

  function Slot(c: Config, i: nat): (r: nat)
    requires c.Valid()
    ensures r < c.slots
  {
    i % c.slots
  }

  predicate Sized(c: Config, s: State) {
    && c.Valid() && |s.threads| == |c.counts| && |s.slots| == c.slots
    && s.tail <= s.head == |s.order|
    && (forall i | 0 <= i < |s.order| :: s.order[i] < |s.threads|)
  }

  /** Well-formedness that lets a step be taken. */
  predicate Shape(c: Config, s: State) {
    && Sized(c, s)
    && (forall i | 0 <= i < |s.slots| && s.slots[i].Some? :: s.slots[i].value < |s.threads|)
    && (forall t | 0 <= t < |s.threads| :: PcShape(s, s.threads[t].pc))
  }

  predicate PcShape(s: State, pc: Pc) {
    && (pc.LoadApplied? || pc.CasTail? ==> pc.b < |s.threads|)
    && (pc.Held().Some? ==> pc.Held().value < |s.threads|)
  }

  /** The sequence number after a batch's last record. */
  function End(c: Config, s: State, b: nat): nat
    requires b < |s.threads| == |c.counts|
  {
    s.threads[b].sn + c.counts[b]
  }

  /** One atomic step of thread t. A thread that has to wait stays where it is. */
  function StepThread(c: Config, s: State, t: nat): State
    requires Shape(c, s) && t < |s.threads|
  {
    var th := s.threads[t];
    match th.pc
    case Idle =>
      if |s.holders| < c.slots - 1 then Goto(s, t, WantLock).(holders := s.holders + {t}) else s
    case WantLock =>
      if s.mu.None? then Goto(s, t, Enqueue).(mu := Some(t)) else s
    case Enqueue =>
      if s.tail + c.slots == s.head then Goto(s, t, Panicked) else Goto(s, t, Spin(s.head))
    case Spin(at) =>
      if s.slots[Slot(c, at)].Some? then s else Goto(s, t, StoreSlot(at))
    case StoreSlot(at) =>
      Goto(s, t, BumpHead(at)).(slots := s.slots[Slot(c, at) := Some(t)])
    case BumpHead(at) =>
      Goto(s, t, Assign).(head := s.head + 1, order := s.order + [t])
    case Assign =>
      var start := s.logSeqNum;
      if c.allocates[t] then
        var sn := if start == 0 then 1 else start;
        s.(threads := s.threads[t := th.(pc := AwaitVisible(start), sn := sn)], logSeqNum := sn + c.counts[t])
      else
        s.(threads := s.threads[t := th.(pc := Unlock, sn := start)], logSeqNum := start + c.counts[t])
    case AwaitVisible(start) =>
      if s.visibleSeqNum == start then Goto(s, t, Unlock) else s
    case Unlock =>
      Goto(s, t, Applying).(mu := None)
    case Applying =>
      s.(threads := s.threads[t := th.(pc := Dequeue, applied := true)])
    case Dequeue =>
      if s.tail == s.head then Goto(s, t, Waiting) else Goto(s, t, LoadSlot(s.head, s.tail))
    case LoadSlot(h, tl) =>
      var slot := s.slots[Slot(c, tl)];
      if slot.None? then Goto(s, t, Waiting) else Goto(s, t, LoadApplied(h, tl, slot.value))
    case LoadApplied(h, tl, b) =>
      if s.threads[b].applied then Goto(s, t, CasTail(h, tl, b)) else Goto(s, t, Waiting)
    case CasTail(h, tl, b) =>
      if s.head == h && s.tail == tl then Goto(s, t, ClearSlot(tl, b)).(tail := tl + 1) else Goto(s, t, Dequeue)
    case ClearSlot(at, b) =>
      Goto(s, t, if s.threads[b].applied then LoadVisible(b) else Panicked).(slots := s.slots[Slot(c, at) := None])
    case LoadVisible(b) =>
      if End(c, s, b) <= s.visibleSeqNum then Goto(s, t, SignalDone(b)) else Goto(s, t, CasVisible(b, s.visibleSeqNum))
    case CasVisible(b, cur) =>
      if s.visibleSeqNum == cur then Goto(s, t, SignalDone(b)).(visibleSeqNum := End(c, s, b)) else Goto(s, t, LoadVisible(b))
    case SignalDone(b) =>
      var s1 := s.(threads := s.threads[b := s.threads[b].(done := s.threads[b].done + 1)]);
      Goto(s1, t, Dequeue)
    case Waiting =>
      if 0 < th.done && !th.syncPending then Goto(s, t, Release) else s
    case Release =>
      Goto(s, t, Finished).(holders := s.holders - {t})
    case Finished => s
    case Panicked => s
  }

  function Step(c: Config, s: State, e: Event): State
    requires Shape(c, s)
  {
    match e
    case Run(t) => if t < |s.threads| then StepThread(c, s, t) else s
    case Synced(t) =>
      if t < |s.threads| && !s.threads[t].pc.BeforeAssign() then s.(threads := s.threads[t := s.threads[t].(syncPending := false)]) else s
  }

  // ---------------------------------------------------------------------
  // The invariant
  // ---------------------------------------------------------------------

  /** The mutex and the semaphore are held by whom they should. */
  ghost predicate Locks(c: Config, s: State) {
    && (forall t | 0 <= t < |s.threads| :: s.threads[t].pc.HoldsLock() <==> s.mu == Some(t))
    && (forall t | 0 <= t < |s.threads| :: s.threads[t].pc.HoldsSem() <==> t in s.holders)
    && |s.holders| <= c.slots - 1
    && (forall t | 0 <= t < |s.threads| :: !s.threads[t].pc.Panicked?)
  }

  /** The history of the queue: every batch once, in [0, head). */
  ghost predicate Queued(c: Config, s: State)
    requires Sized(c, s)
  {
    && (forall i | 0 <= i < |s.order| :: !s.threads[s.order[i]].pc.BeforeBump())
    && (forall i, j | 0 <= i < j < |s.order| :: s.order[i] != s.order[j])
    && (forall t | 0 <= t < |s.threads| && !s.threads[t].pc.BeforeBump() :: t in s.order)
  }

  /** The ring holds the pending batches, and a dequeued batch until its slot is
      cleared; the producer never reaches a slot that is still held. */
  ghost predicate Ring(c: Config, s: State)
    requires Sized(c, s)
  {
    && s.head - s.tail < c.slots
    && (forall i | s.tail <= i < s.head :: s.slots[Slot(c, i)] == Some(s.order[i]))
    && (forall t | 0 <= t < |s.threads| :: RingPc(c, s, t, s.threads[t].pc))
  }

  ghost predicate RingPc(c: Config, s: State, t: nat, pc: Pc)
    requires Sized(c, s)
  {
    match pc
    case Spin(at) => at == s.head
    case StoreSlot(at) => at == s.head && s.slots[Slot(c, at)] == None
    case BumpHead(at) => at == s.head && s.slots[Slot(c, at)] == Some(t)
    case ClearSlot(at, b) => at < s.tail && b == s.order[at] && s.slots[Slot(c, at)] == Some(b) && s.head <= at + c.slots
    case LoadSlot(h, tl) => tl <= s.tail && tl < h <= s.head
    case LoadApplied(h, tl, b) => tl <= s.tail && tl < h <= s.head && (tl == s.tail ==> b == s.order[tl])
    case CasTail(h, tl, b) => tl <= s.tail && tl < h <= s.head && (tl == s.tail ==> b == s.order[tl])
    case _ => true
  }

  /** Which batches are applied. */
  ghost predicate AppliedInv(c: Config, s: State)
    requires Shape(c, s)
  {
    && (forall t | 0 <= t < |s.threads| :: s.threads[t].applied <==> !s.threads[t].pc.BeforeApplied())
    && (forall i | 0 <= i < s.tail :: s.threads[s.order[i]].applied)
    && (forall t | 0 <= t < |s.threads| && s.threads[t].pc.CasTail? :: s.threads[s.threads[t].pc.b].applied)
  }

  /** Dequeued so far. */
  predicate Taken(s: State, b: nat)
    requires s.tail <= |s.order|
  {
    b in s.order[..s.tail]
  }

  ghost predicate HeldBySome(s: State, b: nat) {
    exists t :: 0 <= t < |s.threads| && s.threads[t].pc.Held() == Some(b)
  }

  /** A dequeued batch is either in the hands of exactly one thread or has been
      signalled exactly once. */
  ghost predicate Dones(c: Config, s: State)
    requires s.tail <= |s.order|
  {
    && (forall t | 0 <= t < |s.threads| && s.threads[t].pc.Held().Some? :: Taken(s, s.threads[t].pc.Held().value))
    && (forall t, u | 0 <= t < u < |s.threads| && s.threads[t].pc.Held().Some? ::
          s.threads[t].pc.Held() != s.threads[u].pc.Held())
    && (forall b | 0 <= b < |s.threads| :: s.threads[b].done == if Taken(s, b) && !HeldBySome(s, b) then 1 else 0)
    && (forall t | 0 <= t < |s.threads| && (s.threads[t].pc.Release? || s.threads[t].pc.Finished?) :: s.threads[t].done == 1)
  }

  /** Sequence numbers follow the order of the queue. */
  ghost predicate Numbers(c: Config, s: State)
    requires Sized(c, s)
  {
    && c.firstSn <= s.logSeqNum
    && (forall t | 0 <= t < |s.threads| && s.threads[t].pc.Assign? :: 0 < s.head && s.order[s.head - 1] == t)
    && (forall b | 0 <= b < |s.threads| && !s.threads[b].pc.BeforeAssign() ::
          c.firstSn <= s.threads[b].sn && End(c, s, b) <= s.logSeqNum)
    && (forall i, j | 0 <= i < j < s.head && !s.threads[s.order[j]].pc.BeforeAssign() ::
          End(c, s, s.order[i]) <= s.threads[s.order[j]].sn)
    && (forall t, b | 0 <= t < |s.threads| && s.threads[t].pc.AwaitVisible? && 0 <= b < |s.threads| && b != t
                      && !s.threads[b].pc.BeforeAssign() :: End(c, s, b) <= s.threads[t].pc.start)
  }

  /** How far the visible sequence number may be. */
  ghost function Reach(c: Config, s: State): nat
    requires Sized(c, s)
  {
    if s.tail == 0 then c.firstSn else End(c, s, s.order[s.tail - 1])
  }

  /** It is the end of a batch that has been dequeued. */
  ghost predicate VisibleRange(c: Config, s: State)
    requires Sized(c, s)
  {
    && c.firstSn <= s.visibleSeqNum <= Reach(c, s)
    && (s.visibleSeqNum == c.firstSn || exists i :: 0 <= i < s.tail && s.visibleSeqNum == End(c, s, s.order[i]))
  }

  /** A batch is signalled only when it is visible. */
  ghost predicate VisibleDones(c: Config, s: State)
    requires Shape(c, s)
  {
    && (forall b | 0 <= b < |s.threads| && 0 < s.threads[b].done :: End(c, s, b) <= s.visibleSeqNum)
    && (forall t | 0 <= t < |s.threads| && s.threads[t].pc.SignalDone? :: End(c, s, s.threads[t].pc.b) <= s.visibleSeqNum)
    && (forall t | 0 <= t < |s.threads| && s.threads[t].pc.CasVisible? :: s.threads[t].pc.cur < End(c, s, s.threads[t].pc.b))
  }

  ghost predicate Visible(c: Config, s: State)
    requires Shape(c, s)
  {
    VisibleRange(c, s) && VisibleDones(c, s)
  }

  /** A thread that will look at the front of the queue before it may rest. */
  predicate Responsible(pc: Pc, tail: nat) {
    || pc.Dequeue? || pc.Held().Some?
    || ((pc.LoadSlot? || pc.LoadApplied? || pc.CasTail?) && pc.tail == tail)
  }

  ghost predicate Attended(s: State) {
    exists t :: 0 <= t < |s.threads| && Responsible(s.threads[t].pc, s.tail)
  }

  /** An applied batch at the front of the queue is never left alone. */
  ghost predicate NoLostPublish(c: Config, s: State)
    requires Sized(c, s)
  {
    s.tail < s.head && s.threads[s.order[s.tail]].applied ==> Attended(s)
  }

  ghost predicate Inv(c: Config, s: State) {
    && Shape(c, s) && Locks(c, s) && Queued(c, s) && Ring(c, s) && AppliedInv(c, s)
    && Dones(c, s) && Numbers(c, s) && Visible(c, s) && NoLostPublish(c, s)
  }

  // ---------------------------------------------------------------------
  // Ring arithmetic and counting
  // ---------------------------------------------------------------------

  lemma Multiple(n: nat, d: int)
    ensures d >= 1 ==> n * d >= n
    ensures d <= 0 ==> n * d <= 0
    ensures d <= -1 ==> n * d + n <= 0
  {
    if d >= 1 { assert n * (d - 1) >= 0; }
    if d <= -1 { assert n * (d + 1) <= 0; }
  }

  lemma SlotsDiffer(c: Config, i: nat, j: nat)
    requires c.Valid() && i < j < i + c.slots
    ensures Slot(c, i) != Slot(c, j)
  {
    var n := c.slots;
    var d := j / n - i / n;
    assert j - i == n * d + (j % n - i % n);
    Multiple(n, d);
  }

  lemma SlotWraps(c: Config, i: nat)
    requires c.Valid()
    ensures Slot(c, i + c.slots) == Slot(c, i)
  {
    var n, j := c.slots, i + c.slots;
    var d := j / n - i / n - 1;
    assert i == n * (i / n) + i % n && j == n * (j / n) + j % n;
    assert n * d == n * (j / n) - n * (i / n) - n;
    assert n * d == i % n - j % n;
    Multiple(n, d);
  }

  lemma {:induction false} DistinctCount(q: seq<nat>, h: set<nat>)
    requires forall i, j | 0 <= i < j < |q| :: q[i] != q[j]
    requires forall i | 0 <= i < |q| :: q[i] in h
    ensures |q| <= |h|
  {
    if q != [] {
      var n := |q| - 1;
      DistinctCount(q[..n], h - {q[n]});
    }
  }

  /** Every pending batch has a committer that still holds the semaphore. */
  lemma PendingBelowSlots(c: Config, s: State)
    requires Sized(c, s) && Locks(c, s) && Queued(c, s) && Dones(c, s)
    ensures s.head - s.tail < c.slots
  {
    var q := s.order[s.tail..];
    forall i | 0 <= i < |q| ensures q[i] in s.holders {
      var b := s.order[s.tail + i];
      assert !Taken(s, b);
    }
    DistinctCount(q, s.holders);
  }

  // ---------------------------------------------------------------------
  // Every step keeps the invariant
  // ---------------------------------------------------------------------

  // First the frame of each part of the invariant: what a step of thread t must
  // leave alone for that part to carry over.

  /** Threads other than t stay where they are. */
  ghost predicate OnlyMoves(s: State, s': State, t: nat) {
    && |s.threads| == |s'.threads| && t < |s.threads|
    && (forall u | 0 <= u < |s.threads| && u != t ::
          && s'.threads[u].pc == s.threads[u].pc && s'.threads[u].sn == s.threads[u].sn
          && s'.threads[u].applied == s.threads[u].applied && s'.threads[u].syncPending == s.threads[u].syncPending)
  }

  ghost predicate SameDones(s: State, s': State)
    requires |s.threads| == |s'.threads|
  {
    forall u | 0 <= u < |s.threads| :: s'.threads[u].done == s.threads[u].done
  }

  lemma FrameLocks(c: Config, s: State, s': State, t: nat)
    requires Locks(c, s) && OnlyMoves(s, s', t) && s'.mu == s.mu && s'.holders == s.holders
    requires s'.threads[t].pc.HoldsLock() == s.threads[t].pc.HoldsLock()
    requires s'.threads[t].pc.HoldsSem() == s.threads[t].pc.HoldsSem() && !s'.threads[t].pc.Panicked?
    ensures Locks(c, s')
  {
  }

  lemma FrameQueued(c: Config, s: State, s': State, t: nat)
    requires Sized(c, s) && Sized(c, s') && Queued(c, s) && OnlyMoves(s, s', t) && s'.order == s.order
    requires s'.threads[t].pc.BeforeBump() == s.threads[t].pc.BeforeBump()
    ensures Queued(c, s')
  {
  }

  ghost predicate SameRing(s: State, s': State) {
    s'.head == s.head && s'.tail == s.tail && s'.order == s.order && s'.slots == s.slots
  }

  lemma FrameRing(c: Config, s: State, s': State, t: nat)
    requires Sized(c, s) && Sized(c, s') && Ring(c, s) && OnlyMoves(s, s', t) && SameRing(s, s')
    requires RingPc(c, s', t, s'.threads[t].pc)
    ensures Ring(c, s')
  {
    hide Slot;
    forall u | 0 <= u < |s.threads| ensures RingPc(c, s', u, s'.threads[u].pc) {
      assert u != t ==> RingPc(c, s, u, s.threads[u].pc);
    }
  }

  lemma FrameApplied(c: Config, s: State, s': State, t: nat)
    requires Shape(c, s) && Shape(c, s') && AppliedInv(c, s) && OnlyMoves(s, s', t) && s'.order == s.order && s'.tail == s.tail
    requires s'.threads[t].applied == s.threads[t].applied
    requires s'.threads[t].pc.BeforeApplied() == s.threads[t].pc.BeforeApplied()
    requires s'.threads[t].pc.CasTail? ==> s'.threads[s'.threads[t].pc.b].applied
    ensures AppliedInv(c, s')
  {
  }

  lemma SameHolders(s: State, s': State, b: nat)
    requires |s.threads| == |s'.threads|
    requires forall u | 0 <= u < |s.threads| :: s'.threads[u].pc.Held() == s.threads[u].pc.Held()
    ensures HeldBySome(s', b) == HeldBySome(s, b)
  {
    if HeldBySome(s, b) {
      var u :| 0 <= u < |s.threads| && s.threads[u].pc.Held() == Some(b);
      assert s'.threads[u].pc.Held() == Some(b);
    }
  }

  lemma FrameDones(c: Config, s: State, s': State, t: nat)
    requires Sized(c, s) && Sized(c, s') && Dones(c, s) && OnlyMoves(s, s', t) && SameDones(s, s')
    requires s'.order[..s'.tail] == s.order[..s.tail]
    requires s'.threads[t].pc.Held() == s.threads[t].pc.Held()
    requires s'.threads[t].pc.Release? || s'.threads[t].pc.Finished? ==> s'.threads[t].done == 1
    ensures Dones(c, s')
  {
    forall b | 0 <= b < |s.threads| ensures HeldBySome(s', b) == HeldBySome(s, b) && Taken(s', b) == Taken(s, b) {
      SameHolders(s, s', b);
    }
  }

  lemma FrameNumbers(c: Config, s: State, s': State, t: nat)
    requires Sized(c, s) && Sized(c, s') && Numbers(c, s) && OnlyMoves(s, s', t)
    requires s'.order == s.order && s'.head == s.head && s'.logSeqNum == s.logSeqNum
    requires s'.threads[t].sn == s.threads[t].sn
    requires s'.threads[t].pc.BeforeAssign() == s.threads[t].pc.BeforeAssign()
    requires s'.threads[t].pc == s.threads[t].pc || (!s'.threads[t].pc.Assign? && !s'.threads[t].pc.AwaitVisible?)
    ensures Numbers(c, s')
  {
    SameEnds(c, s, s', t);
    hide End, Slot;
    forall i, j | 0 <= i < j < s'.head && !s'.threads[s'.order[j]].pc.BeforeAssign()
      ensures End(c, s', s'.order[i]) <= s'.threads[s'.order[j]].sn
    {
      assert !s.threads[s.order[j]].pc.BeforeAssign();
    }
    forall u, b | 0 <= u < |s.threads| && s'.threads[u].pc.AwaitVisible? && 0 <= b < |s.threads| && b != u && !s'.threads[b].pc.BeforeAssign()
      ensures End(c, s', b) <= s'.threads[u].pc.start
    {
      assert s.threads[u].pc.AwaitVisible? && !s.threads[b].pc.BeforeAssign();
    }
  }

  lemma FrameVisible(c: Config, s: State, s': State, t: nat)
    requires Shape(c, s) && Shape(c, s') && Visible(c, s) && OnlyMoves(s, s', t)
    requires forall u | 0 <= u < |s.threads| :: s'.threads[u].done == s.threads[u].done || End(c, s, u) <= s.visibleSeqNum
    requires s'.order[..s'.tail] == s.order[..s.tail] && s'.tail == s.tail && s'.visibleSeqNum == s.visibleSeqNum
    requires s'.threads[t].sn == s.threads[t].sn
    requires s'.threads[t].pc.SignalDone? ==> End(c, s', s'.threads[t].pc.b) <= s'.visibleSeqNum
    requires s'.threads[t].pc.CasVisible? ==> s'.threads[t].pc.cur < End(c, s', s'.threads[t].pc.b)
    ensures Visible(c, s')
  {
    hide Slot, VisibleRange, VisibleDones, End, PcShape;
    SameEnds(c, s, s', t);
    SameRange(c, s, s');
    SameVisibleDones(c, s, s', t);
  }

  /** The dequeued batches, and where they end, are the same. */
  lemma SameRange(c: Config, s: State, s': State)
    requires Sized(c, s) && Sized(c, s') && |s.threads| == |s'.threads| && VisibleRange(c, s)
    requires s'.order[..s'.tail] == s.order[..s.tail] && s'.tail == s.tail && s'.visibleSeqNum == s.visibleSeqNum
    requires forall i | 0 <= i < s.tail :: End(c, s', s.order[i]) == End(c, s, s.order[i])
    ensures VisibleRange(c, s')
  {
    hide End;
    assert forall i | 0 <= i < s.tail :: s'.order[..s.tail][i] == s'.order[i] && s.order[..s.tail][i] == s.order[i];
    if s.visibleSeqNum != c.firstSn {
      var i :| 0 <= i < s.tail && s.visibleSeqNum == End(c, s, s.order[i]);
      assert s'.visibleSeqNum == End(c, s', s'.order[i]);
    }
  }

  lemma SameVisibleDones(c: Config, s: State, s': State, t: nat)
    requires Shape(c, s) && Shape(c, s') && VisibleDones(c, s) && OnlyMoves(s, s', t) && s'.visibleSeqNum == s.visibleSeqNum
    requires forall u | 0 <= u < |s.threads| :: s'.threads[u].done == s.threads[u].done || End(c, s, u) <= s.visibleSeqNum
    requires s'.threads[t].pc.SignalDone? ==> End(c, s', s'.threads[t].pc.b) <= s'.visibleSeqNum
    requires s'.threads[t].pc.CasVisible? ==> s'.threads[t].pc.cur < End(c, s', s'.threads[t].pc.b)
    requires forall b | 0 <= b < |s.threads| :: End(c, s', b) == End(c, s, b)
    ensures VisibleDones(c, s')
  {
    hide End, Slot;
    forall u | 0 <= u < |s.threads| && u != t
      ensures s'.threads[u].pc.SignalDone? ==> End(c, s', s'.threads[u].pc.b) <= s'.visibleSeqNum
      ensures s'.threads[u].pc.CasVisible? ==> s'.threads[u].pc.cur < End(c, s', s'.threads[u].pc.b)
    {
      assert PcShape(s, s.threads[u].pc);
    }
  }

  lemma SameEnds(c: Config, s: State, s': State, t: nat)
    requires Sized(c, s) && Sized(c, s') && OnlyMoves(s, s', t) && s'.threads[t].sn == s.threads[t].sn
    ensures forall b | 0 <= b < |s.threads| :: End(c, s', b) == End(c, s, b)
  {
  }

  lemma FrameNoLost(c: Config, s: State, s': State, t: nat)
    requires Sized(c, s) && Sized(c, s') && NoLostPublish(c, s) && OnlyMoves(s, s', t)
    requires s'.order == s.order && s'.head == s.head && s'.tail == s.tail && s'.threads[t].applied == s.threads[t].applied
    requires Responsible(s.threads[t].pc, s.tail) ==>
               Responsible(s'.threads[t].pc, s.tail) || s.tail == s.head || !s.threads[s.order[s.tail]].applied
    ensures NoLostPublish(c, s')
  {
    if s.tail < s.head && s'.threads[s.order[s.tail]].applied {
      var u :| 0 <= u < |s.threads| && Responsible(s.threads[u].pc, s.tail);
      assert Responsible(s'.threads[u].pc, s'.tail);
    }
  }

  /** A move of thread t that no part of the invariant sees but the locks. */
  ghost predicate Quiet(c: Config, s: State, t: nat, pc: Pc)
    requires Shape(c, s) && t < |s.threads|
  {
    var was := s.threads[t].pc;
    && pc.BeforeBump() == was.BeforeBump() && pc.BeforeAssign() == was.BeforeAssign()
    && pc.BeforeApplied() == was.BeforeApplied() && pc.Held() == was.Held()
    && PcShape(s, pc) && RingPc(c, s, t, pc) && !pc.Assign? && !pc.AwaitVisible?
    && (pc.CasTail? ==> s.threads[pc.b].applied)
    && (pc.Release? || pc.Finished? ==> s.threads[t].done == 1)
    && (pc.SignalDone? ==> End(c, s, pc.b) <= s.visibleSeqNum)
    && (pc.CasVisible? ==> pc.cur < End(c, s, pc.b))
    && (Responsible(was, s.tail) ==> Responsible(pc, s.tail) || s.tail == s.head || !s.threads[s.order[s.tail]].applied)
  }

  lemma QuietMove(c: Config, s: State, t: nat, pc: Pc, mu: Option<nat>, holders: set<nat>)
    requires Inv(c, s) && t < |s.threads| && Quiet(c, s, t, pc) && Locks(c, Goto(s, t, pc).(mu := mu, holders := holders))
    ensures Inv(c, Goto(s, t, pc).(mu := mu, holders := holders))
  {
    hide Locks, Queued, Ring, AppliedInv, Dones, Numbers, Visible, NoLostPublish, Slot;
    var s' := Goto(s, t, pc).(mu := mu, holders := holders);
    assert Shape(c, s');
    assert RingPc(c, s', t, pc);
    FrameQueued(c, s, s', t);
    FrameRing(c, s, s', t);
    FrameApplied(c, s, s', t);
    FrameDones(c, s, s', t);
    FrameNumbers(c, s, s', t);
    FrameVisible(c, s, s', t);
    FrameNoLost(c, s, s', t);
  }

  lemma QuietStep(c: Config, s: State, t: nat, pc: Pc)
    requires Inv(c, s) && t < |s.threads| && Quiet(c, s, t, pc)
    requires pc.HoldsLock() == s.threads[t].pc.HoldsLock() && pc.HoldsSem() == s.threads[t].pc.HoldsSem() && !pc.Panicked?
    ensures Inv(c, Goto(s, t, pc))
  {
    hide Quiet, Locks, Queued, Ring, AppliedInv, Dones, Numbers, Visible, NoLostPublish, Slot;
    FrameLocks(c, s, Goto(s, t, pc), t);
    QuietMove(c, s, t, pc, s.mu, s.holders);
  }

  lemma StepProducer(c: Config, s: State, t: nat)
    requires Inv(c, s) && t < |s.threads|
    requires var pc := s.threads[t].pc; pc.Enqueue? || pc.Spin? || pc.AwaitVisible? || pc.Waiting?
    ensures Inv(c, StepThread(c, s, t))
  {
    hide Locks, Queued, AppliedInv, Dones, Numbers, Visible, Slot, Ring, NoLostPublish;
    var pc := s.threads[t].pc;
    RingAt(c, s, t);
    match pc
    case Enqueue =>
      PendingBelowSlots(c, s);
      QuietStep(c, s, t, Spin(s.head));
    case Spin(at) =>
      if s.slots[Slot(c, at)].None? { QuietStep(c, s, t, StoreSlot(at)); }
    case AwaitVisible(start) =>
      if s.visibleSeqNum == start { QuietStep(c, s, t, Unlock); }
    case Waiting =>
      if 0 < s.threads[t].done && !s.threads[t].syncPending {
        DoneIsOne(c, s, t);
        QuietStep(c, s, t, Release);
      }
  }

  lemma StepConsumer(c: Config, s: State, t: nat)
    requires Inv(c, s) && t < |s.threads|
    requires var pc := s.threads[t].pc; pc.Dequeue? || pc.LoadSlot? || pc.LoadApplied? || pc.LoadVisible?
    ensures Inv(c, StepThread(c, s, t))
  {
    hide Locks, Queued, AppliedInv, Dones, Numbers, Visible, Slot, Ring, NoLostPublish;
    var pc := s.threads[t].pc;
    RingAt(c, s, t);
    match pc
    case Dequeue =>
      if s.tail == s.head { QuietStep(c, s, t, Waiting); } else { QuietStep(c, s, t, LoadSlot(s.head, s.tail)); }
    case LoadSlot(h, tl) =>
      if tl == s.tail { FrontInSlot(c, s); }
      var slot := s.slots[Slot(c, tl)];
      if slot.None? { QuietStep(c, s, t, Waiting); } else { QuietStep(c, s, t, LoadApplied(h, tl, slot.value)); }
    case LoadApplied(h, tl, b) =>
      if s.threads[b].applied { QuietStep(c, s, t, CasTail(h, tl, b)); } else { QuietStep(c, s, t, Waiting); }
    case LoadVisible(b) =>
      if End(c, s, b) <= s.visibleSeqNum { QuietStep(c, s, t, SignalDone(b)); } else { QuietStep(c, s, t, CasVisible(b, s.visibleSeqNum)); }
  }

  lemma RingAt(c: Config, s: State, t: nat)
    requires Sized(c, s) && Ring(c, s) && t < |s.threads|
    ensures RingPc(c, s, t, s.threads[t].pc)
  {
  }

  lemma FrontInSlot(c: Config, s: State)
    requires Sized(c, s) && Ring(c, s) && s.tail < s.head
    ensures s.slots[Slot(c, s.tail)] == Some(s.order[s.tail])
  {
  }

  lemma DoneIsOne(c: Config, s: State, b: nat)
    requires Sized(c, s) && Dones(c, s) && b < |s.threads| && 0 < s.threads[b].done
    ensures s.threads[b].done == 1
  {
  }

  /** Thread t takes or gives up the mutex or the semaphore. */
  lemma LocksMove(c: Config, s: State, s': State, t: nat)
    requires Locks(c, s) && OnlyMoves(s, s', t) && |s'.holders| <= c.slots - 1 && !s'.threads[t].pc.Panicked?
    requires s'.mu == s.mu || ((s.mu.None? || s.mu == Some(t)) && (s'.mu.None? || s'.mu == Some(t)))
    requires s'.threads[t].pc.HoldsLock() <==> s'.mu == Some(t)
    requires s'.threads[t].pc.HoldsSem() <==> t in s'.holders
    requires forall u | u != t :: u in s'.holders <==> u in s.holders
    ensures Locks(c, s')
  {
  }

  lemma LockFacts(c: Config, s: State, t: nat)
    requires Locks(c, s) && t < |s.threads|
    ensures |s.holders| <= c.slots - 1 && (s.threads[t].pc.HoldsLock() <==> s.mu == Some(t))
    ensures s.threads[t].pc.HoldsSem() <==> t in s.holders
  {
  }

  lemma MoveHolders(c: Config, s: State, t: nat, pc: Pc, mu: Option<nat>, holders: set<nat>)
    requires Inv(c, s) && t < |s.threads| && Quiet(c, s, t, pc) && !pc.Panicked? && |holders| <= c.slots - 1
    requires mu == s.mu || ((s.mu.None? || s.mu == Some(t)) && (mu.None? || mu == Some(t)))
    requires (pc.HoldsLock() <==> mu == Some(t)) && (pc.HoldsSem() <==> t in holders) && (forall u | u != t :: u in holders <==> u in s.holders)
    ensures Inv(c, Goto(s, t, pc).(mu := mu, holders := holders))
  {
    hide Quiet, Locks, Queued, Ring, AppliedInv, Dones, Numbers, Visible, NoLostPublish, Slot;
    LocksMove(c, s, Goto(s, t, pc).(mu := mu, holders := holders), t);
    QuietMove(c, s, t, pc, mu, holders);
  }

  /** Steps that change only who holds the mutex or the semaphore. */
  lemma StepHolders(c: Config, s: State, t: nat)
    requires Inv(c, s) && t < |s.threads|
    requires var pc := s.threads[t].pc; pc.Idle? || pc.WantLock? || pc.Unlock? || pc.Release?
    ensures Inv(c, StepThread(c, s, t))
  {
    hide Inv, StepThread;
    if s.threads[t].pc.Idle? || s.threads[t].pc.Release? { StepSem(c, s, t); } else { StepMutex(c, s, t); }
  }

  lemma StepSem(c: Config, s: State, t: nat)
    requires Inv(c, s) && t < |s.threads| && (s.threads[t].pc.Idle? || s.threads[t].pc.Release?)
    ensures Inv(c, StepThread(c, s, t))
  {
    hide Locks, Queued, Ring, AppliedInv, Dones, Numbers, Visible, NoLostPublish, Slot;
    LockFacts(c, s, t);
    if s.threads[t].pc.Release? {
      ReleaseDone(c, s, t);
      MoveHolders(c, s, t, Finished, s.mu, s.holders - {t});
    } else if |s.holders| < c.slots - 1 {
      MoveHolders(c, s, t, WantLock, s.mu, s.holders + {t});
    }
  }

  lemma StepMutex(c: Config, s: State, t: nat)
    requires Inv(c, s) && t < |s.threads| && (s.threads[t].pc.WantLock? || s.threads[t].pc.Unlock?)
    ensures Inv(c, StepThread(c, s, t))
  {
    hide Locks, Queued, Ring, AppliedInv, Dones, Numbers, Visible, NoLostPublish, Slot;
    LockFacts(c, s, t);
    if s.threads[t].pc.Unlock? {
      MoveHolders(c, s, t, Applying, None, s.holders);
    } else if s.mu.None? {
      MoveHolders(c, s, t, Enqueue, Some(t), s.holders);
    }
  }

  lemma ReleaseDone(c: Config, s: State, t: nat)
    requires Sized(c, s) && Dones(c, s) && t < |s.threads| && s.threads[t].pc.Release?
    ensures s.threads[t].done == 1
  {
  }

  lemma StoreIs(c: Config, s: State, t: nat)
    requires Shape(c, s) && t < |s.threads| && s.threads[t].pc.StoreSlot?
    ensures StepThread(c, s, t) == Goto(s, t, BumpHead(s.threads[t].pc.at)).(slots := s.slots[Slot(c, s.threads[t].pc.at) := Some(t)])
  {
  }

  /** The producer stores its batch in a slot that nobody needs. */
  lemma StepStoreSlot(c: Config, s: State, t: nat)
    requires Inv(c, s) && t < |s.threads| && s.threads[t].pc.StoreSlot?
    ensures Inv(c, StepThread(c, s, t))
  {
    hide Locks, Queued, Ring, AppliedInv, Dones, Numbers, Visible, NoLostPublish, Slot, RingPc, StepThread;
    StoreIs(c, s, t);
    var s' := StepThread(c, s, t);
    assert Shape(c, s');
    StoreRing(c, s, t);
    FrameLocks(c, s, s', t);
    FrameQueued(c, s, s', t);
    FrameApplied(c, s, s', t);
    FrameDones(c, s, s', t);
    FrameNumbers(c, s, s', t);
    FrameVisible(c, s, s', t);
    FrameNoLost(c, s, s', t);
  }

  lemma StoreRing(c: Config, s: State, t: nat)
    requires Inv(c, s) && t < |s.threads| && s.threads[t].pc.StoreSlot?
    requires Sized(c, StepThread(c, s, t))
    ensures Ring(c, StepThread(c, s, t))
  {
    hide Queued, AppliedInv, Dones, Numbers, Visible, NoLostPublish, Slot;
    var s' := StepThread(c, s, t);
    RingAt(c, s, t);
    forall i | s.tail <= i < s.head ensures s'.slots[Slot(c, i)] == Some(s.order[i]) {
      SlotsDiffer(c, i, s.head);
    }
    forall u | 0 <= u < |s.threads| ensures RingPc(c, s', u, s'.threads[u].pc) {
      RingAt(c, s, u);
      assert s.threads[u].pc.HoldsLock() ==> u == t;
    }
  }

  /** The consumer that took position at gives its slot back. */
  lemma StepClearSlot(c: Config, s: State, t: nat)
    requires Inv(c, s) && t < |s.threads| && s.threads[t].pc.ClearSlot?
    ensures Inv(c, StepThread(c, s, t))
  {
    hide Locks, Queued, Ring, AppliedInv, Dones, Numbers, Visible, NoLostPublish, Slot, RingPc;
    var s' := StepThread(c, s, t);
    HeldIsApplied(c, s, t);
    assert s'.threads[t].pc == LoadVisible(s.threads[t].pc.b);
    assert Shape(c, s');
    ClearRing(c, s, t);
    FrameLocks(c, s, s', t);
    FrameQueued(c, s, s', t);
    FrameApplied(c, s, s', t);
    FrameDones(c, s, s', t);
    FrameNumbers(c, s, s', t);
    FrameVisible(c, s, s', t);
    FrameNoLost(c, s, s', t);
  }

  lemma HeldIsApplied(c: Config, s: State, t: nat)
    requires Inv(c, s) && t < |s.threads| && s.threads[t].pc.Held().Some?
    ensures s.threads[s.threads[t].pc.Held().value].applied
  {
    hide Locks, Ring, Numbers, Visible, NoLostPublish, Slot;
    var b := s.threads[t].pc.Held().value;
    assert Taken(s, b);
    var i :| 0 <= i < s.tail && s.order[..s.tail][i] == b;
  }

  lemma ClearRing(c: Config, s: State, t: nat)
    requires Inv(c, s) && t < |s.threads| && s.threads[t].pc.ClearSlot?
    requires Sized(c, StepThread(c, s, t))
    ensures Ring(c, StepThread(c, s, t))
  {
    hide AppliedInv, Numbers, Visible, NoLostPublish, Slot, Locks, Queued, Dones;
    var s' := StepThread(c, s, t);
    var at := s.threads[t].pc.at;
    HeldIsApplied(c, s, t);
    RingAt(c, s, t);
    forall i | s.tail <= i < s.head ensures s'.slots[Slot(c, i)] == Some(s.order[i]) {
      SlotsDiffer(c, at, i);
    }
    forall u | 0 <= u < |s.threads| ensures RingPc(c, s', u, s'.threads[u].pc) {
      if u != t { ClearRingPc(c, s, t, u); }
    }
  }

  lemma ClearRingPc(c: Config, s: State, t: nat, u: nat)
    requires Inv(c, s) && t < |s.threads| && s.threads[t].pc.ClearSlot? && u < |s.threads| && u != t
    requires Sized(c, StepThread(c, s, t))
    ensures RingPc(c, StepThread(c, s, t), u, s.threads[u].pc)
  {
    hide AppliedInv, Numbers, Visible, NoLostPublish, Slot, Locks, Ring, Dones;
    RingAt(c, s, t);
    RingAt(c, s, u);
    var at, pc := s.threads[t].pc.at, s.threads[u].pc;
    if pc.BumpHead? {
      if s.head == at + c.slots { SlotWraps(c, at); } else { SlotsDiffer(c, at, s.head); }
      assert u !in s.order;
    } else if pc.ClearSlot? {
      if pc.at < at { SlotsDiffer(c, pc.at, at); } else if at < pc.at { SlotsDiffer(c, at, pc.at); }
      else { OneHolder(c, s, t, u); }
    }
  }

  lemma OneHolder(c: Config, s: State, t: nat, u: nat)
    requires Sized(c, s) && Dones(c, s) && t < |s.threads| && u < |s.threads| && t != u && s.threads[t].pc.Held().Some?
    ensures s.threads[t].pc.Held() != s.threads[u].pc.Held()
  {
    if u < t { assert s.threads[u].pc.Held().Some? ==> s.threads[u].pc.Held() != s.threads[t].pc.Held(); }
  }

  /** The batch is applied before it can be dequeued, and its committer looks at
      the queue afterwards. */
  lemma StepApplying(c: Config, s: State, t: nat)
    requires Inv(c, s) && t < |s.threads| && s.threads[t].pc.Applying?
    ensures Inv(c, StepThread(c, s, t))
  {
    hide Locks, Queued, Ring, AppliedInv, Dones, Numbers, Visible, Slot;
    var s' := StepThread(c, s, t);
    assert Shape(c, s');
    FrameLocks(c, s, s', t);
    FrameQueued(c, s, s', t);
    FrameRing(c, s, s', t);
    ApplyingApplied(c, s, t);
    FrameDones(c, s, s', t);
    FrameNumbers(c, s, s', t);
    FrameVisible(c, s, s', t);
    assert Responsible(s'.threads[t].pc, s'.tail);
  }

  lemma ApplyingApplied(c: Config, s: State, t: nat)
    requires Inv(c, s) && t < |s.threads| && s.threads[t].pc.Applying? && Shape(c, StepThread(c, s, t))
    ensures AppliedInv(c, StepThread(c, s, t))
  {
    hide Locks, Queued, Ring, Dones, Numbers, Visible, NoLostPublish, Slot;
  }

  /** The visible sequence number moves up to the end of a dequeued batch. */
  lemma StepCasVisible(c: Config, s: State, t: nat)
    requires Inv(c, s) && t < |s.threads| && s.threads[t].pc.CasVisible?
    ensures Inv(c, StepThread(c, s, t))
  {
    hide Locks, Queued, Ring, AppliedInv, Dones, Numbers, Visible, NoLostPublish, Slot;
    var b, cur := s.threads[t].pc.b, s.threads[t].pc.cur;
    if s.visibleSeqNum != cur {
      QuietStep(c, s, t, LoadVisible(b));
    } else {
      var s' := StepThread(c, s, t);
      assert Shape(c, s');
      FrameLocks(c, s, s', t);
      FrameQueued(c, s, s', t);
      FrameRing(c, s, s', t);
      FrameApplied(c, s, s', t);
      FrameDones(c, s, s', t);
      FrameNumbers(c, s, s', t);
      Ratchet(c, s, t);
      FrameNoLost(c, s, s', t);
    }
  }

  /** The end of a dequeued batch is within reach. */
  lemma EndWithinReach(c: Config, s: State, i: nat)
    requires Inv(c, s) && i < s.tail
    ensures c.firstSn <= End(c, s, s.order[i]) <= Reach(c, s)
  {
    hide Locks, Ring, Dones, Visible, NoLostPublish, Slot;
    assert s.threads[s.order[i]].applied && s.threads[s.order[s.tail - 1]].applied;
    assert !s.threads[s.order[i]].pc.BeforeAssign();
    if i < s.tail - 1 { assert End(c, s, s.order[i]) <= s.threads[s.order[s.tail - 1]].sn; }
  }

  lemma Ratchet(c: Config, s: State, t: nat)
    requires Inv(c, s) && t < |s.threads| && s.threads[t].pc.CasVisible? && s.visibleSeqNum == s.threads[t].pc.cur
    requires Shape(c, StepThread(c, s, t))
    ensures Visible(c, StepThread(c, s, t))
  {
    hide Locks, Queued, Ring, AppliedInv, Dones, Numbers, NoLostPublish, Slot;
    var s' := StepThread(c, s, t);
    var i := TakenAt(c, s, t);
    EndWithinReach(c, s, i);
    assert forall u | 0 <= u < |s.threads| :: End(c, s', u) == End(c, s, u);
    assert s'.visibleSeqNum == End(c, s', s'.order[i]);
  }

  lemma TakenAt(c: Config, s: State, t: nat) returns (i: nat)
    requires Sized(c, s) && Dones(c, s) && t < |s.threads| && s.threads[t].pc.Held().Some?
    ensures i < s.tail && s.order[i] == s.threads[t].pc.Held().value
  {
    assert Taken(s, s.threads[t].pc.Held().value);
    i :| 0 <= i < s.tail && s.order[..s.tail][i] == s.threads[t].pc.Held().value;
  }

  // Done

  lemma StepSignalDone(c: Config, s: State, t: nat)
    requires Inv(c, s) && t < |s.threads| && s.threads[t].pc.SignalDone?
    ensures Inv(c, StepThread(c, s, t))
  {
    hide Locks, Queued, Ring, AppliedInv, Dones, Numbers, Visible, NoLostPublish, Slot;
    var s' := StepThread(c, s, t);
    assert OnlyMoves(s, s', t) && s'.threads[t].pc == Dequeue && s'.threads[t].sn == s.threads[t].sn
           && s'.threads[t].applied == s.threads[t].applied;
    assert Shape(c, s');
    FrameLocks(c, s, s', t);
    FrameQueued(c, s, s', t);
    FrameRing(c, s, s', t);
    FrameApplied(c, s, s', t) by { HeldBeyondApplied(c, s, t); }
    SignalDones(c, s, t);
    FrameNumbers(c, s, s', t);
    PcFacts(c, s, t);
    FrameVisible(c, s, s', t);
    FrameNoLost(c, s, s', t);
  }

  lemma HeldBeyondApplied(c: Config, s: State, t: nat)
    requires Inv(c, s) && t < |s.threads| && s.threads[t].pc.Held().Some?
    ensures !s.threads[t].pc.BeforeApplied()
  {
  }

  /** The one thread that holds a batch signals it, and then holds nothing. */
  lemma SignalDones(c: Config, s: State, t: nat)
    requires Inv(c, s) && t < |s.threads| && s.threads[t].pc.SignalDone? && Sized(c, StepThread(c, s, t))
    ensures Dones(c, StepThread(c, s, t))
  {
    hide Locks, Queued, Ring, AppliedInv, Numbers, Visible, NoLostPublish, Slot, HeldBySome, Taken;
    var s', b := StepThread(c, s, t), s.threads[t].pc.b;
    SameTaken(s, s');
    forall x: nat | x < |s.threads| ensures HeldBySome(s', x) == (x != b && HeldBySome(s, x)) {
      SignalHeld(c, s, s', t, x);
    }
    HeldBy(s, t);
  }

  lemma SameTaken(s: State, s': State)
    requires s.tail <= |s.order| && s'.order == s.order && s'.tail == s.tail
    ensures forall x: nat :: Taken(s', x) == Taken(s, x)
  {
  }

  lemma HeldBy(s: State, t: nat)
    requires t < |s.threads| && s.threads[t].pc.Held().Some?
    ensures HeldBySome(s, s.threads[t].pc.Held().value)
  {
  }

  lemma SignalHeld(c: Config, s: State, s': State, t: nat, x: nat)
    requires Sized(c, s) && Dones(c, s) && OnlyMoves(s, s', t) && s.threads[t].pc.SignalDone? && s'.threads[t].pc == Dequeue
    ensures HeldBySome(s', x) == (x != s.threads[t].pc.b && HeldBySome(s, x))
  {
    hide Taken;
    var b := s.threads[t].pc.b;
    if HeldBySome(s, x) && x != b {
      var u :| 0 <= u < |s.threads| && s.threads[u].pc.Held() == Some(x);
      assert s'.threads[u].pc.Held() == Some(x);
    }
    if HeldBySome(s', x) {
      var u :| 0 <= u < |s.threads| && s'.threads[u].pc.Held() == Some(x);
      OneHolder(c, s, t, u);
      assert s.threads[u].pc.Held() == Some(x);
    }
  }

  // Dequeueing

  /** A compare and swap that succeeds takes the front of the queue. */
  lemma StepCasTail(c: Config, s: State, t: nat)
    requires Inv(c, s) && t < |s.threads| && s.threads[t].pc.CasTail?
    ensures Inv(c, StepThread(c, s, t))
  {
    hide Locks, Queued, Ring, AppliedInv, Dones, Numbers, Visible, Slot;
    var pc := s.threads[t].pc;
    RingAt(c, s, t);
    if s.head != pc.head || s.tail != pc.tail {
      hide NoLostPublish;
      QuietStep(c, s, t, Dequeue);
    } else {
      var s' := StepThread(c, s, t);
      assert Shape(c, s');
      FrameLocks(c, s, s', t);
      FrameQueued(c, s, s', t);
      TakeRing(c, s, s', t);
      TakeApplied(c, s, s', t);
      TakeDones(c, s, s', t);
      FrameNumbers(c, s, s', t);
      TakeVisible(c, s, s', t);
      assert Responsible(s'.threads[t].pc, s'.tail);
    }
  }

  ghost predicate Takes(c: Config, s: State, s': State, t: nat)
  {
    && Inv(c, s) && Shape(c, s') && t < |s.threads| && s.threads[t].pc.CasTail?
    && s.head == s.threads[t].pc.head && s.tail == s.threads[t].pc.tail
    && s.tail < s.head && s.threads[t].pc.b == s.order[s.tail]
    && s' == Goto(s, t, ClearSlot(s.tail, s.order[s.tail])).(tail := s.tail + 1)
  }

  lemma TakeRing(c: Config, s: State, s': State, t: nat)
    requires Takes(c, s, s', t)
    ensures Ring(c, s')
  {
    hide Locks, Queued, AppliedInv, Dones, Numbers, Visible, NoLostPublish, Slot;
    forall u | 0 <= u < |s.threads| ensures RingPc(c, s', u, s'.threads[u].pc) {
      RingAt(c, s, u);
    }
  }

  lemma TakeApplied(c: Config, s: State, s': State, t: nat)
    requires Takes(c, s, s', t)
    ensures AppliedInv(c, s')
  {
    hide Locks, Queued, Ring, Dones, Numbers, Visible, NoLostPublish, Slot;
  }

  lemma TakeDones(c: Config, s: State, s': State, t: nat)
    requires Takes(c, s, s', t)
    ensures Dones(c, s')
  {
    hide Locks, Queued, Ring, AppliedInv, Numbers, Visible, NoLostPublish, Slot, HeldBySome, Taken;
    var b := s.order[s.tail];
    TakeTaken(c, s, s', t);
    forall x: nat | x < |s.threads| ensures HeldBySome(s', x) == (x == b || HeldBySome(s, x)) {
      TakeHeld(c, s, s', t, x);
    }
  }

  lemma TakeTaken(c: Config, s: State, s': State, t: nat)
    requires Takes(c, s, s', t)
    ensures !Taken(s, s.order[s.tail]) && forall x: nat :: Taken(s', x) == (x == s.order[s.tail] || Taken(s, x))
  {
    hide Locks, Ring, AppliedInv, Dones, Numbers, Visible, NoLostPublish, Slot;
    assert s'.order[..s'.tail] == s.order[..s.tail] + [s.order[s.tail]];
  }

  lemma TakeHeld(c: Config, s: State, s': State, t: nat, x: nat)
    requires Takes(c, s, s', t)
    ensures HeldBySome(s', x) == (x == s.order[s.tail] || HeldBySome(s, x))
  {
    hide Locks, Queued, Ring, AppliedInv, Dones, Numbers, Visible, NoLostPublish, Slot;
    if HeldBySome(s, x) {
      var u :| 0 <= u < |s.threads| && s.threads[u].pc.Held() == Some(x);
      assert s'.threads[u].pc.Held() == Some(x);
    }
    if x == s.order[s.tail] { assert s'.threads[t].pc.Held() == Some(x); }
  }

  lemma TakeVisible(c: Config, s: State, s': State, t: nat)
    requires Takes(c, s, s', t)
    ensures Visible(c, s')
  {
    hide Locks, Queued, Ring, AppliedInv, Dones, Numbers, NoLostPublish, Slot;
    assert forall u | 0 <= u < |s.threads| :: End(c, s', u) == End(c, s, u);
    ReachGrows(c, s, s', t);
    if s.visibleSeqNum != c.firstSn {
      var i :| 0 <= i < s.tail && s.visibleSeqNum == End(c, s, s.order[i]);
      assert s'.visibleSeqNum == End(c, s', s'.order[i]);
    }
  }

  lemma ReachGrows(c: Config, s: State, s': State, t: nat)
    requires Takes(c, s, s', t)
    ensures Reach(c, s) <= Reach(c, s')
  {
    hide Locks, Ring, Dones, Visible, NoLostPublish, Slot;
    var b := s.order[s.tail];
    assert !s.threads[b].pc.BeforeAssign();
    if s.tail > 0 { assert End(c, s, s.order[s.tail - 1]) <= s.threads[b].sn; }
  }

  // Enqueueing

  ghost predicate Bumps(c: Config, s: State, s': State, t: nat) {
    && Inv(c, s) && Shape(c, s') && t < |s.threads| && s.threads[t].pc.BumpHead?
    && s' == Goto(s, t, Assign).(head := s.head + 1, order := s.order + [t])
  }

  /** Incrementing head makes the batch the last of the queue. */
  lemma StepBumpHead(c: Config, s: State, t: nat)
    requires Inv(c, s) && t < |s.threads| && s.threads[t].pc.BumpHead?
    ensures Inv(c, StepThread(c, s, t))
  {
    hide Locks, Queued, Ring, AppliedInv, Dones, Numbers, Visible, NoLostPublish, Slot, RingPc;
    var s' := StepThread(c, s, t);
    assert Shape(c, s');
    assert s'.order[..s'.tail] == s.order[..s.tail];
    FrameLocks(c, s, s', t);
    BumpQueued(c, s, s', t);
    FrameDones(c, s, s', t);
    PendingBelowSlots(c, s');
    BumpRing(c, s, s', t);
    BumpApplied(c, s, s', t);
    BumpNumbers(c, s, s', t);
    FrameVisible(c, s, s', t);
    BumpNoLost(c, s, s', t);
  }

  lemma BumpQueued(c: Config, s: State, s': State, t: nat)
    requires Bumps(c, s, s', t)
    ensures Queued(c, s') && t !in s.order
  {
    hide Locks, Ring, AppliedInv, Dones, Numbers, Visible, NoLostPublish, Slot;
    assert t !in s.order;
    forall u | 0 <= u < |s.threads| && !s'.threads[u].pc.BeforeBump() ensures u in s'.order {
      assert u != t ==> u in s.order;
    }
  }

  lemma BumpRing(c: Config, s: State, s': State, t: nat)
    requires Bumps(c, s, s', t) && s'.head - s'.tail < c.slots
    ensures Ring(c, s')
  {
    hide Queued, AppliedInv, Dones, Numbers, Visible, NoLostPublish, Slot;
    RingAt(c, s, t);
    BumpQueued(c, s, s', t);
    forall u | 0 <= u < |s.threads| ensures RingPc(c, s', u, s'.threads[u].pc) {
      RingAt(c, s, u);
      assert s.threads[u].pc.HoldsLock() ==> u == t;
      if s.threads[u].pc.ClearSlot? && s.head == s.threads[u].pc.at + c.slots {
        SlotWraps(c, s.threads[u].pc.at);
      }
    }
  }

  lemma BumpApplied(c: Config, s: State, s': State, t: nat)
    requires Bumps(c, s, s', t)
    ensures AppliedInv(c, s')
  {
    hide Locks, Queued, Ring, Dones, Numbers, Visible, NoLostPublish, Slot;
  }

  lemma BumpNumbers(c: Config, s: State, s': State, t: nat)
    requires Bumps(c, s, s', t)
    ensures Numbers(c, s')
  {
    hide Queued, Ring, AppliedInv, Dones, Visible, NoLostPublish, Slot, PcShape;
    assert forall b | 0 <= b < |s.threads| :: End(c, s', b) == End(c, s, b);
    assert forall u | 0 <= u < |s.threads| :: s.threads[u].pc.HoldsLock() ==> u == t;
  }

  lemma BumpNoLost(c: Config, s: State, s': State, t: nat)
    requires Bumps(c, s, s', t)
    ensures NoLostPublish(c, s')
  {
    hide Locks, Queued, Ring, Dones, Numbers, Visible, Slot;
    if s.tail < s.head && s'.threads[s'.order[s.tail]].applied {
      var u :| 0 <= u < |s.threads| && Responsible(s.threads[u].pc, s.tail);
      assert Responsible(s'.threads[u].pc, s'.tail);
    }
  }

  /** Sequence numbers are taken in the order of the queue. */
  lemma StepAssign(c: Config, s: State, t: nat)
    requires Inv(c, s) && t < |s.threads| && s.threads[t].pc.Assign?
    ensures Inv(c, StepThread(c, s, t))
  {
    hide Locks, Queued, Ring, AppliedInv, Dones, Numbers, Visible, NoLostPublish, Slot;
    var s' := StepThread(c, s, t);
    assert Shape(c, s');
    FrameLocks(c, s, s', t);
    FrameQueued(c, s, s', t);
    FrameRing(c, s, s', t);
    FrameApplied(c, s, s', t);
    FrameDones(c, s, s', t);
    AssignNumbers(c, s, s', t);
    AssignVisible(c, s, s', t);
    FrameNoLost(c, s, s', t);
  }

  ghost predicate Assigns(c: Config, s: State, s': State, t: nat) {
    && Inv(c, s) && Shape(c, s') && t < |s.threads| && s.threads[t].pc.Assign?
    && OnlyMoves(s, s', t) && SameDones(s, s') && SameRing(s, s') && s'.visibleSeqNum == s.visibleSeqNum
    && var th := s'.threads[t];
       && (th.pc == Unlock || th.pc == AwaitVisible(s.logSeqNum)) && s.logSeqNum <= th.sn
       && s'.logSeqNum == th.sn + c.counts[t]
  }

  lemma AssignNumbers(c: Config, s: State, s': State, t: nat)
    requires Assigns(c, s, s', t)
    ensures Numbers(c, s')
  {
    hide Ring, AppliedInv, Dones, Visible, NoLostPublish, Slot, PcShape;
    assert forall b | 0 <= b < |s.threads| && b != t :: End(c, s', b) == End(c, s, b);
    assert forall u | 0 <= u < |s.threads| :: s.threads[u].pc.HoldsLock() ==> u == t;
    forall i, j | 0 <= i < j < s'.head && !s'.threads[s'.order[j]].pc.BeforeAssign()
      ensures End(c, s', s'.order[i]) <= s'.threads[s'.order[j]].sn
    {
      assert s.order[i] != s.order[s.head - 1];
      assert !s.threads[s.order[i]].pc.Assign?;
    }
  }

  lemma AssignVisible(c: Config, s: State, s': State, t: nat)
    requires Assigns(c, s, s', t)
    ensures Visible(c, s')
  {
    Unassigned(c, s, t);
    hide Locks, Queued, Ring, Numbers, NoLostPublish, Slot, Dones, AppliedInv, VisibleRange, VisibleDones, PcShape, Sized;
    assert forall b | 0 <= b < |s.threads| && b != t :: End(c, s', b) == End(c, s, b);
    SameRange(c, s, s');
    AssignDones(c, s, s', t);
  }

  lemma AssignDones(c: Config, s: State, s': State, t: nat)
    requires Assigns(c, s, s', t)
    requires s.threads[t].done == 0 && forall u | 0 <= u < |s.threads| :: s.threads[u].pc.Held() != Some(t)
    ensures VisibleDones(c, s')
  {
    hide Locks, Queued, Ring, Numbers, NoLostPublish, Slot, Dones, AppliedInv, VisibleRange;
    forall u | 0 <= u < |s.threads| && u != t
      ensures s'.threads[u].pc.SignalDone? ==> End(c, s', s'.threads[u].pc.b) <= s'.visibleSeqNum
      ensures s'.threads[u].pc.CasVisible? ==> s'.threads[u].pc.cur < End(c, s', s'.threads[u].pc.b)
    {
      assert PcShape(s, s.threads[u].pc) && s.threads[u].pc.Held() != Some(t);
    }
  }

  /** Nobody has dequeued, holds or was told of a batch without a number. */
  lemma Unassigned(c: Config, s: State, t: nat)
    requires Inv(c, s) && t < |s.threads| && s.threads[t].pc.Assign?
    ensures s.threads[t].done == 0
    ensures forall i | 0 <= i < s.tail :: s.order[i] != t
    ensures forall u | 0 <= u < |s.threads| :: s.threads[u].pc.Held() != Some(t)
  {
    hide Locks, Ring, Numbers, Visible, NoLostPublish, Slot;
    assert !s.threads[t].applied;
    assert !Taken(s, t);
  }

  // ---------------------------------------------------------------------
  // Runs
  // ---------------------------------------------------------------------

  lemma StepThreadInv(c: Config, s: State, t: nat)
    requires Inv(c, s) && t < |s.threads|
    ensures Inv(c, StepThread(c, s, t))
  {
    hide Inv, StepThread;
    InvShape(c, s);
    match s.threads[t].pc
    case Idle => StepHolders(c, s, t);
    case WantLock => StepHolders(c, s, t);
    case Enqueue => StepProducer(c, s, t);
    case Spin(_) => StepProducer(c, s, t);
    case StoreSlot(_) => StepStoreSlot(c, s, t);
    case BumpHead(_) => StepBumpHead(c, s, t);
    case Assign => StepAssign(c, s, t);
    case AwaitVisible(_) => StepProducer(c, s, t);
    case Unlock => StepHolders(c, s, t);
    case Applying => StepApplying(c, s, t);
    case Dequeue => StepConsumer(c, s, t);
    case LoadSlot(_, _) => StepConsumer(c, s, t);
    case LoadApplied(_, _, _) => StepConsumer(c, s, t);
    case CasTail(_, _, _) => StepCasTail(c, s, t);
    case ClearSlot(_, _) => StepClearSlot(c, s, t);
    case LoadVisible(_) => StepConsumer(c, s, t);
    case CasVisible(_, _) => StepCasVisible(c, s, t);
    case SignalDone(_) => StepSignalDone(c, s, t);
    case Waiting => StepProducer(c, s, t);
    case Release => StepHolders(c, s, t);
    case Finished => Rests(c, s, t);
    case Panicked => Rests(c, s, t);
  }

  lemma InvShape(c: Config, s: State)
    requires Inv(c, s)
    ensures Shape(c, s)
  {
  }

  lemma Rests(c: Config, s: State, t: nat)
    requires Shape(c, s) && t < |s.threads| && (s.threads[t].pc.Finished? || s.threads[t].pc.Panicked?)
    ensures StepThread(c, s, t) == s
  {
  }

  lemma SyncedInv(c: Config, s: State, t: nat)
    requires Inv(c, s) && t < |s.threads|
    ensures Inv(c, s.(threads := s.threads[t := s.threads[t].(syncPending := false)]))
  {
    hide Locks, Queued, Ring, AppliedInv, Dones, Numbers, Visible, NoLostPublish, Slot;
    var s' := s.(threads := s.threads[t := s.threads[t].(syncPending := false)]);
    assert Shape(c, s');
    RingAt(c, s, t);
    PcFacts(c, s, t);
    FrameLocks(c, s, s', t);
    FrameQueued(c, s, s', t);
    FrameRing(c, s, s', t);
    FrameApplied(c, s, s', t);
    FrameDones(c, s, s', t);
    FrameNumbers(c, s, s', t);
    FrameVisible(c, s, s', t);
    FrameNoLost(c, s, s', t);
  }

  /** What the invariant says of a thread in terms of where it is. */
  ghost predicate PcOk(c: Config, s: State, t: nat)
    requires Shape(c, s) && t < |s.threads|
  {
    var pc := s.threads[t].pc;
    && !pc.Panicked?
    && (pc.CasTail? ==> s.threads[pc.b].applied)
    && (pc.Release? || pc.Finished? ==> s.threads[t].done == 1)
    && (pc.SignalDone? ==> End(c, s, pc.b) <= s.visibleSeqNum)
    && (pc.CasVisible? ==> pc.cur < End(c, s, pc.b))
  }

  lemma PcFacts(c: Config, s: State, t: nat)
    requires Inv(c, s) && t < |s.threads|
    ensures PcOk(c, s, t)
  {
    hide Queued, Ring, Numbers, NoLostPublish, Slot, HeldBySome, Taken;
  }

  lemma InitInv(c: Config)
    requires c.Valid()
    ensures Inv(c, Init(c))
  {
  }

  lemma StepInv(c: Config, s: State, e: Event)
    requires Inv(c, s)
    ensures Inv(c, Step(c, s, e))
  {
    hide Inv, StepThread;
    InvShape(c, s);
    match e
    case Run(t) => if t < |s.threads| { StepThreadInv(c, s, t); }
    case Synced(t) => if t < |s.threads| { SyncedInv(c, s, t); }
  }

  /** The state that a schedule leads to. */
  ghost function Reached(c: Config, es: seq<Event>): (s: State)
    requires c.Valid()
    ensures Inv(c, s)
  {
    if es == [] then InitInv(c); Init(c)
    else
      var s := Reached(c, es[..|es| - 1]);
      StepInv(c, s, es[|es| - 1]);
      Step(c, s, es[|es| - 1])
  }
}
