/**
The retries of the commit pipeline are bounded: a compare and swap fails only
because another one went through, and only so many can go through. With the
absence of deadlocks this makes every commit return.
*/
module CommitTermination {
  import opened Options
  import opened CommitPipeline
  import opened CommitProgress
  import opened CommitProperties

  // ---------------------------------------------------------------------
  // Sums
  // ---------------------------------------------------------------------

  function Sum(a: seq<nat>): nat {
    if a == [] then 0 else Sum(a[..|a| - 1]) + a[|a| - 1]
  }

  lemma {:induction false} SumGrows(a: seq<nat>, b: seq<nat>, k: nat)
    requires |a| == |b| && forall u | 0 <= u < |a| :: b[u] <= a[u] + k
    ensures Sum(b) <= Sum(a) + k * |a|
  {
    if a != [] {
      SumGrows(a[..|a| - 1], b[..|b| - 1], k);
    }
  }

  /** One entry may change freely, the others grow by at most k. */
  lemma {:induction false} SumMoves(a: seq<nat>, b: seq<nat>, t: nat, k: nat)
    requires |a| == |b| && t < |a| && forall u | 0 <= u < |a| && u != t :: b[u] <= a[u] + k
    ensures Sum(b) + a[t] <= Sum(a) + b[t] + k * |a|
  {
    var n := |a| - 1;
    if t == n {
      SumGrows(a[..n], b[..n], k);
    } else {
      SumMoves(a[..n], b[..n], t, k);
    }
  }

  lemma {:induction false} SumBounded(a: seq<nat>, k: nat)
    requires forall u | 0 <= u < |a| :: a[u] <= k
    ensures Sum(a) <= k * |a|
  {
    if a != [] {
      SumBounded(a[..|a| - 1], k);
    }
  }

  // ---------------------------------------------------------------------
  // The work that is left
  // ---------------------------------------------------------------------

  /** Steps a committer takes when no compare and swap of its own fails. */
  function PcWork(pc: Pc): nat {
    match pc
    case Idle => 30
    case WantLock => 29
    case Enqueue => 28
    case Spin(_) => 27
    case StoreSlot(_) => 26
    case BumpHead(_) => 25
    case Assign => 24
    case AwaitVisible(_) => 23
    case Unlock => 22
    case Applying => 21
    case Dequeue => 20
    case LoadSlot(_, _) => 19
    case LoadApplied(_, _, _) => 18
    case CasTail(_, _, _) => 17
    case ClearSlot(_, _) => 16
    case LoadVisible(_) => 15
    case CasVisible(_, _) => 14
    case SignalDone(_) => 13
    case Waiting => 3
    case Release => 2
    case Finished => 0
    case Panicked => 0
  }

  /** The compare and swap ahead will fail. */
  predicate Stale(s: State, pc: Pc) {
    || ((pc.LoadSlot? || pc.LoadApplied? || pc.CasTail?) && (pc.head != s.head || pc.tail != s.tail))
    || (pc.CasVisible? && pc.cur != s.visibleSeqNum)
  }

  function StepsOf(s: State, th: Thread): nat {
    PcWork(th.pc) + (if Stale(s, th.pc) then 10 else 0) + (if th.syncPending then 1 else 0)
  }

  /** How far a dequeued batch in a thread's hands is from being signalled. */
  function Stage(pc: Pc): nat {
    if pc.ClearSlot? || pc.LoadVisible? || pc.CasVisible? then 2 else if pc.SignalDone? then 1 else 0
  }

  function AllSteps(s: State): seq<nat> {
    seq(|s.threads|, i requires 0 <= i < |s.threads| => StepsOf(s, s.threads[i]))
  }

  function AllStages(s: State): seq<nat> {
    seq(|s.threads|, i requires 0 <= i < |s.threads| => Stage(s.threads[i].pc))
  }

  /** Steps left while nothing is enqueued, dequeued, published or signalled. */
  function Steps(s: State): nat { Sum(AllSteps(s)) }

  /** Enqueues, dequeues, publications and signals that are left. */
  function Events(s: State): int {
    (|s.threads| - s.head) + 3 * (|s.threads| - s.tail) + Sum(AllStages(s))
  }

  /** An event may cost every other committer one retry. */
  function EventCost(n: nat): nat { 10 * n + 10 }

  function Weigh(n: nat, events: int, steps: int): int { EventCost(n) * events + steps }

  function Work(s: State): int { Weigh(|s.threads|, Events(s), Steps(s)) }

  lemma EventsNonNegative(c: Config, s: State)
    requires Inv(c, s)
    ensures 0 <= Events(s)
  {
    hide Locks, Ring, AppliedInv, Dones, Numbers, Visible, NoLostPublish, Slot, PcShape;
    FirstOnes(|s.threads|);
    DistinctCount(s.order, First(|s.threads|));
  }

  function First(n: nat): set<nat> {
    if n == 0 then {} else First(n - 1) + {n - 1}
  }

  lemma {:induction false} FirstOnes(n: nat)
    ensures |First(n)| == n && forall t: nat :: t in First(n) <==> t < n
  {
    if n > 0 {
      FirstOnes(n - 1);
    }
  }

  // ---------------------------------------------------------------------
  // Every step that changes the state does some of it
  // ---------------------------------------------------------------------

  predicate SameGlobals(s: State, s': State) {
    s'.head == s.head && s'.tail == s.tail && s'.visibleSeqNum == s.visibleSeqNum
  }

  /** What a step does to the work, in terms of the thread that takes it. */
  lemma WorkMoves(s: State, s': State, t: nat, k: nat)
    requires OnlyMoves(s, s', t)
    requires k == 10 || (k == 0 && SameGlobals(s, s'))
    ensures Steps(s') + StepsOf(s, s.threads[t]) <= Steps(s) + StepsOf(s', s'.threads[t]) + k * |s.threads|
    ensures Sum(AllStages(s')) + Stage(s.threads[t].pc) <= Sum(AllStages(s)) + Stage(s'.threads[t].pc)
  {
    hide Sum, PcWork;
    SumMoves(AllSteps(s), AllSteps(s'), t, k);
    SumMoves(AllStages(s), AllStages(s'), t, 0);
  }

  /** A step either is an event, or is one of the steps left, or changes nothing. */
  lemma StepWorks(c: Config, s: State, s': State, t: nat)
    requires Inv(c, s) && t < |s.threads| && s' == StepThread(c, s, t) && s' != s
    ensures |s'.threads| == |s.threads|
    ensures || (Events(s') <= Events(s) && Steps(s') < Steps(s))
            || (Events(s') <= Events(s) - 1 && Steps(s') < Steps(s) + EventCost(|s.threads|))
  {
    hide Locks, Queued, Ring, AppliedInv, Dones, Numbers, Visible, NoLostPublish, Slot, PcShape, StepThread, Steps, OnlyMoves, AllSteps, AllStages, Sum;
    InvShape(c, s);
    OthersStay(c, s, s', t);
    if Makes(s, s.threads[t].pc) {
      EventStep(c, s, s', t);
      WorkMoves(s, s', t, 10);
    } else {
      PlainStep(c, s, s', t);
      WorkMoves(s, s', t, 0);
    }
  }

  /** The steps that enqueue, dequeue, publish or signal. */
  predicate Makes(s: State, pc: Pc) {
    || pc.BumpHead?
    || (pc.CasTail? && s.head == pc.head && s.tail == pc.tail)
    || (pc.CasVisible? && s.visibleSeqNum == pc.cur)
    || pc.SignalDone?
  }

  lemma EventStep(c: Config, s: State, s': State, t: nat)
    requires Shape(c, s) && t < |s.threads| && s' == StepThread(c, s, t) && Makes(s, s.threads[t].pc)
    ensures |s'.threads| == |s.threads|
    ensures StepsOf(s', s'.threads[t]) <= StepsOf(s, s.threads[t]) + 7
    ensures Stage(s'.threads[t].pc) - Stage(s.threads[t].pc) < (s'.head - s.head) + 3 * (s'.tail - s.tail)
  {
    hide Slot, End;
  }

  lemma PlainStep(c: Config, s: State, s': State, t: nat)
    requires Inv(c, s) && t < |s.threads| && s' == StepThread(c, s, t) && s' != s && !Makes(s, s.threads[t].pc)
    ensures |s'.threads| == |s.threads| && SameGlobals(s, s')
    ensures StepsOf(s', s'.threads[t]) < StepsOf(s, s.threads[t])
    ensures Stage(s'.threads[t].pc) <= Stage(s.threads[t].pc)
  {
    hide Locks, Queued, Ring, AppliedInv, Dones, Numbers, Visible, NoLostPublish, StepThread, StepsOf, Stage, PcShape;
    if s.threads[t].pc.BeforeApplied() {
      ProducerStep(c, s, s', t);
    } else if s.threads[t].pc.Held().None? {
      ConsumerStep(c, s, s', t);
    } else {
      HolderStep(c, s, s', t);
    }
  }

  lemma ProducerStep(c: Config, s: State, s': State, t: nat)
    requires Shape(c, s) && t < |s.threads| && s' == StepThread(c, s, t) && s' != s && !Makes(s, s.threads[t].pc)
    requires s.threads[t].pc.BeforeApplied()
    ensures |s'.threads| == |s.threads| && SameGlobals(s, s')
    ensures StepsOf(s', s'.threads[t]) < StepsOf(s, s.threads[t])
    ensures Stage(s'.threads[t].pc) <= Stage(s.threads[t].pc)
  {
    if s.threads[t].pc.BeforeBump() { EnqueueStep(c, s, s', t); } else { hide Slot, End, PcShape; }
  }

  lemma EnqueueStep(c: Config, s: State, s': State, t: nat)
    requires Shape(c, s) && t < |s.threads| && s' == StepThread(c, s, t) && s' != s && !Makes(s, s.threads[t].pc)
    requires s.threads[t].pc.BeforeBump()
    ensures |s'.threads| == |s.threads| && SameGlobals(s, s')
    ensures StepsOf(s', s'.threads[t]) < StepsOf(s, s.threads[t])
    ensures Stage(s'.threads[t].pc) <= Stage(s.threads[t].pc)
  {
    hide StepsOf, Stage;
    EnqueuesTo(c, s, t);
    hide StepThread, Shape;
    StepsFall(s, s', s.threads[t], s'.threads[t]);
  }

  /** Where a committer is after a step before it has bumped the head. */
  lemma EnqueuesTo(c: Config, s: State, t: nat)
    requires Shape(c, s) && t < |s.threads| && s.threads[t].pc.BeforeBump() && !s.threads[t].pc.BumpHead? && StepThread(c, s, t) != s
    ensures var s', pc := StepThread(c, s, t), s.threads[t].pc;
            && |s'.threads| == |s.threads| && SameGlobals(s, s') && s'.threads[t] == s.threads[t].(pc := s'.threads[t].pc)
            && var pc' := s'.threads[t].pc;
               (pc.Idle? && pc'.WantLock?) || (pc.WantLock? && pc'.Enqueue?) || (pc.Enqueue? && (pc'.Spin? || pc'.Panicked?))
               || (pc.Spin? && pc'.StoreSlot?) || (pc.StoreSlot? && pc'.BumpHead?)
  {
    hide Slot, End, PcShape;
  }

  lemma StepsFall(s: State, s': State, th: Thread, th': Thread)
    requires th' == th.(pc := th'.pc)
    requires (th.pc.Idle? && th'.pc.WantLock?) || (th.pc.WantLock? && th'.pc.Enqueue?) || (th.pc.Enqueue? && (th'.pc.Spin? || th'.pc.Panicked?))
             || (th.pc.Spin? && th'.pc.StoreSlot?) || (th.pc.StoreSlot? && th'.pc.BumpHead?)
    ensures StepsOf(s', th') < StepsOf(s, th) && Stage(th'.pc) <= Stage(th.pc)
  {
  }

  lemma ConsumerStep(c: Config, s: State, s': State, t: nat)
    requires Shape(c, s) && t < |s.threads| && s' == StepThread(c, s, t) && s' != s && !Makes(s, s.threads[t].pc)
    requires !s.threads[t].pc.BeforeApplied() && s.threads[t].pc.Held().None?
    ensures |s'.threads| == |s.threads| && SameGlobals(s, s')
    ensures StepsOf(s', s'.threads[t]) < StepsOf(s, s.threads[t])
    ensures Stage(s'.threads[t].pc) <= Stage(s.threads[t].pc)
  {
    hide Slot, End, PcShape;
  }

  lemma HolderStep(c: Config, s: State, s': State, t: nat)
    requires Shape(c, s) && t < |s.threads| && s' == StepThread(c, s, t) && s' != s && !Makes(s, s.threads[t].pc)
    requires s.threads[t].pc.Held().Some?
    ensures |s'.threads| == |s.threads| && SameGlobals(s, s')
    ensures StepsOf(s', s'.threads[t]) < StepsOf(s, s.threads[t])
    ensures Stage(s'.threads[t].pc) <= Stage(s.threads[t].pc)
  {
    hide Slot, End, PcShape;
  }

  lemma EventsOrSteps(n: nat, e: int, e': int, d: int, d': int)
    requires (e' <= e && d' < d) || (e' <= e - 1 && d' < d + EventCost(n))
    ensures Weigh(n, e', d') < Weigh(n, e, d)
  {
    var u := EventCost(n);
    if e' <= e - 1 {
      assert u * e' <= u * (e - 1);
    } else {
      assert u * e' <= u * e;
    }
  }

  lemma WorkFalls(c: Config, s: State, e: Event)
    requires Inv(c, s) && Step(c, s, e) != s
    ensures Work(Step(c, s, e)) < Work(s)
  {
    hide Inv, StepThread, Events, Steps, EventCost, Weigh;
    InvShape(c, s);
    var s' := Step(c, s, e);
    match e {
      case Run(t) => StepWorks(c, s, s', t);
      case Synced(t) => SyncedWorks(c, s, s', t);
    }
    EventsOrSteps(|s.threads|, Events(s), Events(s'), Steps(s), Steps(s'));
  }

  lemma SyncedWorks(c: Config, s: State, s': State, t: nat)
    requires Shape(c, s) && t < |s.threads| && s' == Step(c, s, Synced(t)) && s' != s
    ensures |s'.threads| == |s.threads| && Events(s') <= Events(s) && Steps(s') < Steps(s)
  {
    hide Sum, AllSteps, AllStages, Shape;
    assert !s.threads[t].syncPending ==> s'.threads == s.threads;
    WorkMoves(s, s', t, 0);
  }

  // ---------------------------------------------------------------------
  // Runs
  // ---------------------------------------------------------------------

  /** How many events of a schedule changed the state. */
  ghost function Changes(c: Config, es: seq<Event>): nat
    requires c.Valid()
  {
    if es == [] then 0
    else Changes(c, es[..|es| - 1]) + (if Reached(c, es) != Reached(c, es[..|es| - 1]) then 1 else 0)
  }

  lemma {:induction false} ChangesAreWork(c: Config, es: seq<Event>)
    requires c.Valid()
    ensures Changes(c, es) + Work(Reached(c, es)) <= Work(Init(c))
  {
    hide Inv, Step, Work, Init;
    if es != [] {
      var s := Reached(c, es[..|es| - 1]);
      ChangesAreWork(c, es[..|es| - 1]);
      if Reached(c, es) != s { WorkFalls(c, s, es[|es| - 1]); }
    }
  }

  lemma InitialWork(c: Config)
    requires c.Valid()
    ensures var n := |c.counts|; Work(Init(c)) <= 40 * n * n + 71 * n
  {
    var n, s := |c.counts|, Init(c);
    SumBounded(AllSteps(s), 31);
    SumBounded(AllStages(s), 0);
    assert Events(s) == 4 * n;
    assert EventCost(n) * (4 * n) == 40 * n * n + 40 * n;
  }

  lemma WorkIsLeft(c: Config, s: State)
    requires Inv(c, s)
    ensures 0 <= Work(s)
  {
    hide Inv, Events, EventCost;
    EventsNonNegative(c, s);
    assert 0 <= EventCost(|s.threads|) * Events(s);
  }

  /** Whatever the schedule, n commits take at most 40 n^2 + 71 n steps that
      change anything: all retries of all compare and swaps are in that number. */
  lemma RetriesAreBounded(c: Config, es: seq<Event>)
    requires c.Valid()
    ensures var n := |c.counts|; Changes(c, es) <= 40 * n * n + 71 * n
  {
    hide Work, Inv;
    ChangesAreWork(c, es);
    WorkIsLeft(c, Reached(c, es));
    InitialWork(c);
  }

  /** A run that no event can change any more is one in which every commit has returned. */
  lemma MaximalRunsReturn(c: Config, es: seq<Event>)
    requires c.Valid() && forall e: Event :: Step(c, Reached(c, es), e) == Reached(c, es)
    ensures forall t | 0 <= t < |c.counts| :: Reached(c, es).threads[t].pc.Finished?
  {
    hide Inv, StepThread;
    var s := Reached(c, es);
    InvShape(c, s);
    forall t | 0 <= t < |s.threads| ensures StepThread(c, s, t) == s && (s.threads[t].syncPending ==> s.threads[t].pc.BeforeAssign()) {
      assert Step(c, s, Run(t)) == s;
      assert Step(c, s, Synced(t)) == s;
      if !s.threads[t].pc.BeforeAssign() { assert s.threads[t] == s.threads[t := s.threads[t].(syncPending := false)][t]; }
    }
    NoDeadlock(c, es);
  }

  /** So every run can be completed so that every commit returns. */
  lemma {:induction false} EveryCommitReturns(c: Config, es: seq<Event>) returns (more: seq<Event>)
    requires c.Valid()
    ensures forall t | 0 <= t < |c.counts| :: Reached(c, es + more).threads[t].pc.Finished?
    decreases 40 * |c.counts| * |c.counts| + 71 * |c.counts| - Changes(c, es)
  {
    hide Inv, Step, Init;
    var s := Reached(c, es);
    InvShape(c, s);
    if e: Event :| Step(c, s, e) != s {
      assert (es + [e])[..|es|] == es;
      RetriesAreBounded(c, es + [e]);
      var rest := EveryCommitReturns(c, es + [e]);
      more := [e] + rest;
      assert es + more == es + [e] + rest;
    } else {
      MaximalRunsReturn(c, es);
      more := [];
      assert es + more == es;
    }
  }

  /** Some prefix of a run, and the state that an infinite schedule has reached after it. */
  ghost function Prefix(f: nat -> Event, n: nat): (es: seq<Event>)
    ensures |es| == n && forall i | 0 <= i < n :: es[i] == f(i)
  {
    if n == 0 then [] else Prefix(f, n - 1) + [f(n - 1)]
  }

  /** Event e comes up at point n of the schedule or later. */
  ghost predicate ComesUp(f: nat -> Event, e: Event, n: nat) {
    exists m: nat :: n <= m && f(m) == e
  }

  ghost predicate Recurs(f: nat -> Event, e: Event) {
    forall n: nat :: ComesUp(f, e, n)
  }

  /** A fair schedule: every committer gets to run, and the sync of every committer that
      asks for one comes through, again and again. What else happens, and in which
      order, is open. */
  ghost predicate Fair(c: Config, f: nat -> Event)
    requires c.Valid()
  {
    forall t | 0 <= t < |c.counts| :: Recurs(f, Run(t)) && (c.AsksSync(t) ==> Recurs(f, Synced(t)))
  }

  ghost predicate Moves(c: Config, s: State, e: Event)
    requires Inv(c, s)
  {
    InvShape(c, s);
    Step(c, s, e) != s
  }

  ghost predicate AllReturned(c: Config, s: State) {
    |s.threads| == |c.counts| && forall t | 0 <= t < |c.counts| :: s.threads[t].pc.Finished?
  }

  /** The state after n events of the schedule. */
  ghost function StateAt(c: Config, f: nat -> Event, n: nat): (s: State)
    requires c.Valid()
    ensures Inv(c, s)
  {
    Reached(c, Prefix(f, n))
  }

  ghost function ChangesTo(c: Config, f: nat -> Event, n: nat): nat
    requires c.Valid()
  {
    Changes(c, Prefix(f, n))
  }

  lemma NextChange(c: Config, f: nat -> Event, n: nat)
    requires c.Valid()
    ensures Moves(c, StateAt(c, f, n), f(n)) ==> ChangesTo(c, f, n + 1) == ChangesTo(c, f, n) + 1
    ensures !Moves(c, StateAt(c, f, n), f(n)) ==> ChangesTo(c, f, n + 1) == ChangesTo(c, f, n) && StateAt(c, f, n + 1) == StateAt(c, f, n)
  {
    hide Step, Init, Inv;
    var es := Prefix(f, n + 1);
    assert es[..n] == Prefix(f, n) && es[n] == f(n);
  }

  lemma {:induction false} ChangesGrow(c: Config, f: nat -> Event, n: nat, m: nat)
    requires c.Valid() && n <= m
    ensures ChangesTo(c, f, n) <= ChangesTo(c, f, m)
    decreases m - n
  {
    hide Moves, ChangesTo, StateAt, Inv;
    if n < m {
      NextChange(c, f, m - 1);
      ChangesGrow(c, f, n, m - 1);
    }
  }

  /** When an event that would change the state comes up, something has changed. */
  lemma {:induction false} ChangesBy(c: Config, f: nat -> Event, n: nat, m: nat)
    requires c.Valid() && n <= m && Moves(c, StateAt(c, f, n), f(m))
    ensures ChangesTo(c, f, n) < ChangesTo(c, f, m + 1)
    decreases m - n
  {
    hide Moves, ChangesTo, StateAt, Inv;
    NextChange(c, f, n);
    if n < m {
      if Moves(c, StateAt(c, f, n), f(n)) {
        ChangesGrow(c, f, n + 1, m + 1);
      } else {
        ChangesBy(c, f, n + 1, m);
      }
    }
  }

  /** A state in which some commit has not returned is changed by some event that a fair
      schedule brings. */
  lemma NotOver(c: Config, es: seq<Event>) returns (t: nat, e: Event)
    requires c.Valid() && !AllReturned(c, Reached(c, es))
    ensures t < |c.counts| && (e == Run(t) || (e == Synced(t) && c.AsksSync(t))) && Moves(c, Reached(c, es), e)
  {
    InvShape(c, Reached(c, es));
    hide Inv, Step, Init;
    if forall t | 0 <= t < |c.counts| :: !Moves(c, Reached(c, es), Run(t)) && !Moves(c, Reached(c, es), Synced(t)) {
      StillIsOver(c, es);
    }
    t :| 0 <= t < |c.counts| && (Moves(c, Reached(c, es), Run(t)) || Moves(c, Reached(c, es), Synced(t)));
    e := if Moves(c, Reached(c, es), Run(t)) then Run(t) else Synced(t);
    if e == Synced(t) {
      SyncMoves(c, Reached(c, es), t);
      SyncHistory(c, es, t);
    }
  }

  lemma NothingToSync(s: State, t: nat)
    requires t < |s.threads|
    ensures !s.threads[t].syncPending ==> s.(threads := s.threads[t := s.threads[t].(syncPending := false)]) == s
  {
    assert s.threads[t := s.threads[t]] == s.threads;
  }

  lemma SyncMoves(c: Config, s: State, t: nat)
    requires Inv(c, s) && t < |c.counts| && Moves(c, s, Synced(t))
    ensures |s.threads| == |c.counts| && s.threads[t].syncPending
  {
    InvShape(c, s);
    ShapeSize(c, s);
    hide Inv, Shape, StepThread;
    NothingToSync(s, t);
  }

  lemma StillIsOver(c: Config, es: seq<Event>)
    requires c.Valid() && forall t | 0 <= t < |c.counts| :: !Moves(c, Reached(c, es), Run(t)) && !Moves(c, Reached(c, es), Synced(t))
    ensures AllReturned(c, Reached(c, es))
  {
    var s := Reached(c, es);
    InvShape(c, s);
    hide Inv, StepThread, Init;
    forall e: Event ensures Step(c, s, e) == s {
      if e.t < |c.counts| { assert !Moves(c, s, Run(e.t)) && !Moves(c, s, Synced(e.t)); }
    }
    MaximalRunsReturn(c, es);
  }

  /** Under every fair schedule, every commit has returned after finitely many steps,
      from whichever point on one looks. */
  lemma {:induction false} FairSchedulesReturn(c: Config, f: nat -> Event, from: nat) returns (n: nat)
    requires c.Valid() && Fair(c, f)
    ensures from <= n && AllReturned(c, Reached(c, Prefix(f, n)))
    decreases 40 * |c.counts| * |c.counts| + 71 * |c.counts| - ChangesTo(c, f, from)
  {
    hide Inv, Moves, Reached, Prefix, AllReturned, Changes, Fair, ComesUp;
    if AllReturned(c, Reached(c, Prefix(f, from))) {
      n := from;
    } else {
      var t, e := NotOver(c, Prefix(f, from));
      assert ComesUp(f, e, from) by { FairComes(c, f, t, from); }
      var m: nat := WhenUp(f, e, from);
      ChangesBy(c, f, from, m);
      RetriesAreBounded(c, Prefix(f, m + 1));
      n := FairSchedulesReturn(c, f, m + 1);
    }
  }

  lemma FairComes(c: Config, f: nat -> Event, t: nat, n: nat)
    requires c.Valid() && Fair(c, f) && t < |c.counts|
    ensures ComesUp(f, Run(t), n) && (c.AsksSync(t) ==> ComesUp(f, Synced(t), n))
  {
    hide ComesUp;
    assert Recurs(f, Run(t)) && (c.AsksSync(t) ==> Recurs(f, Synced(t)));
  }

  lemma WhenUp(f: nat -> Event, e: Event, n: nat) returns (m: nat)
    requires ComesUp(f, e, n)
    ensures n <= m && f(m) == e
  {
    m :| n <= m && f(m) == e;
  }
}
