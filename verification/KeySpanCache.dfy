/**
The cache of fragmented range tombstones of a memtable (keySpanCache and
keySpanFrags in mem_table.go). Writers add spans to the skiplist and then
invalidate the cache; readers load the cached fragments and fill them in at
first use. Writers and readers run concurrently, in steps as fine as the atomic
operations. Fragments are modelled by the set of spans they were built from.
*/
module KeySpanCache {
  import opened Options

  /** Fragments that are filled once: not yet, by a reader that started when the
      skiplist had the given spans, or done. */
  datatype Fill = Empty | Filling(floor: set<nat>) | Full(spans: set<nat>)

  datatype Frags = Frags(count: nat, fill: Fill)

  datatype Pc =
    // a writer: it inserts its spans, and then calls invalidate
    | Insert(all: seq<nat>, done: nat)
    | AddCount(all: seq<nat>)
    | LoadFrags(all: seq<nat>, newCount: nat)
    | Swap(all: seq<nat>, newCount: nat, seen: Option<nat>)
    | Returned(all: seq<nat>)
    // a reader: get; must is what had been published when it loaded the pointer
    | Get
    | Fetch(p: nat, must: set<nat>)
    | Fragment(p: nat, must: set<nat>)
    | Got(spans: set<nat>, must: set<nat>)

  /** The skiplist's spans, the count, all fragments ever allocated, and the pointer
      to the current ones. counted maps each value the count has had to the spans
      that were counted by then. */
  datatype State = State(
    skl: set<nat>, count: nat, frags: seq<Frags>, ptr: Option<nat>, threads: seq<Pc>,
    counted: map<nat, set<nat>>)

  /** A step of thread t. When it fills fragments, it sees all spans inserted before
      it started, and those of extra that have been inserted by now. */
  datatype Event = Run(t: nat, extra: set<nat>)

  function SetOf(xs: seq<nat>): set<nat> { set x | x in xs }

  /** The spans of the writers whose invalidate has returned. */
  function Published(ts: seq<Pc>): set<nat> {
    if ts == [] then {}
    else Published(ts[1..]) + (if ts[0].Returned? then SetOf(ts[0].all) else {})
  }

  /** Writers with at least one span each, and readers. */
  predicate Starts(ts: seq<Pc>) {
    forall t | 0 <= t < |ts| :: ts[t].Get? || (ts[t].Insert? && ts[t].done == 0 && ts[t].all != [])
  }

  function Init(ts: seq<Pc>): State {
    State({}, 0, [], None, ts, map[0 := {}])
  }

  predicate Base(s: State) {
    (s.ptr.Some? ==> s.ptr.value < |s.frags|) && s.count in s.counted
  }

  predicate ThreadShape(s: State, pc: Pc) {
    match pc
    case Insert(all, done) => done <= |all|
    case Swap(_, _, seen) => seen.Some? ==> seen.value < |s.frags|
    case Fetch(p, _) => p < |s.frags|
    case Fragment(p, _) => p < |s.frags| && s.frags[p].fill.Filling?
    case _ => true
  }

  predicate Shape(s: State) {
    Base(s) && forall t | 0 <= t < |s.threads| :: ThreadShape(s, s.threads[t])
  }

  function Step(s: State, e: Event): State
    requires Shape(s)
  {
    if e.t >= |s.threads| then s
    else
      var t := e.t;
      match s.threads[t]
      case Insert(all, done) =>
        if done < |all| then s.(skl := s.skl + {all[done]}, threads := s.threads[t := Insert(all, done + 1)])
        else s.(threads := s.threads[t := AddCount(all)])
      case AddCount(all) =>
        var newCount := s.count + |all|;
        s.(count := newCount, counted := s.counted[newCount := s.counted[s.count] + SetOf(all)],
           threads := s.threads[t := LoadFrags(all, newCount)])
      case LoadFrags(all, newCount) =>
        if s.ptr.Some? && newCount <= s.frags[s.ptr.value].count then s.(threads := s.threads[t := Returned(all)])
        else s.(threads := s.threads[t := Swap(all, newCount, s.ptr)])
      case Swap(all, newCount, seen) =>
        if s.ptr == seen then
          s.(frags := s.frags + [Frags(newCount, Empty)], ptr := Some(|s.frags|), threads := s.threads[t := Returned(all)])
        else s.(threads := s.threads[t := LoadFrags(all, newCount)])
      case Returned(_) => s
      case Get =>
        var must := Published(s.threads);
        if s.ptr.None? then s.(threads := s.threads[t := Got({}, must)])
        else s.(threads := s.threads[t := Fetch(s.ptr.value, must)])
      case Fetch(p, must) =>
        (match s.frags[p].fill
         case Full(spans) => s.(threads := s.threads[t := Got(spans, must)])
         case Filling(_) => s
         case Empty =>
           s.(frags := s.frags[p := s.frags[p].(fill := Filling(s.skl))], threads := s.threads[t := Fragment(p, must)]))
      case Fragment(p, must) =>
        var spans := s.frags[p].fill.floor + (e.extra * s.skl);
        s.(frags := s.frags[p := s.frags[p].(fill := Full(spans))], threads := s.threads[t := Got(spans, must)])
      case Got(_, _) => s
  }

  // ---------------------------------------------------------------------
  // The invariant
  // ---------------------------------------------------------------------

  /** The counted spans grow with the count, and are in the skiplist. */
  predicate Counts(s: State) {
    && s.count in s.counted
    && (forall c | c in s.counted :: c <= s.count && s.counted[c] <= s.skl)
    && (forall a, b | a in s.counted && b in s.counted && a <= b :: s.counted[a] <= s.counted[b])
  }

  /** Fragments with a count are built from a skiplist with all spans of that count. */
  predicate FragsOk(s: State) {
    forall p | 0 <= p < |s.frags| ::
      && s.frags[p].count in s.counted
      && match s.frags[p].fill
         case Empty => true
         case Filling(floor) => s.counted[s.frags[p].count] <= floor <= s.skl
         case Full(spans) => s.counted[s.frags[p].count] <= spans <= s.skl
  }

  /** The spans whose invalidation the current fragments take account of. */
  function Covered(s: State): set<nat>
    requires Base(s) && FragsOk(s)
  {
    if s.ptr.None? then {} else s.counted[s.frags[s.ptr.value].count]
  }

  predicate ThreadOk(s: State, pc: Pc)
    requires Base(s) && FragsOk(s)
  {
    && ThreadShape(s, pc)
    && match pc
       case Insert(all, done) => all != [] && SetOf(all[..done]) <= s.skl
       case AddCount(all) => all != [] && SetOf(all) <= s.skl
       case LoadFrags(all, newCount) => newCount in s.counted && SetOf(all) <= s.counted[newCount]
       case Swap(all, newCount, seen) =>
         && newCount in s.counted && SetOf(all) <= s.counted[newCount]
         && (seen.Some? ==> s.frags[seen.value].count < newCount)
       case Returned(all) => SetOf(all) <= Covered(s)
       case Get => true
       case Fetch(p, must) => must <= s.counted[s.frags[p].count]
       case Fragment(p, must) => must <= s.counted[s.frags[p].count]
       case Got(spans, must) => must <= spans <= s.skl
  }

  /** At most one reader fills any fragments. */
  predicate OneFiller(s: State) {
    forall t, u | 0 <= t < u < |s.threads| && s.threads[t].Fragment? && s.threads[u].Fragment? :: s.threads[t].p != s.threads[u].p
  }

  predicate Inv(s: State) {
    && Base(s) && Counts(s) && FragsOk(s) && OneFiller(s)
    && forall t | 0 <= t < |s.threads| :: ThreadOk(s, s.threads[t])
  }

  lemma InvShape(s: State)
    requires Inv(s)
    ensures Shape(s)
  {
    forall t | 0 <= t < |s.threads| ensures ThreadShape(s, s.threads[t]) {
      assert ThreadOk(s, s.threads[t]);
    }
  }

  lemma {:induction false} PublishedIsCovered(s: State, ts: seq<Pc>)
    requires Base(s) && FragsOk(s) && forall t | 0 <= t < |ts| :: ThreadOk(s, ts[t])
    ensures Published(ts) <= Covered(s)
  {
    if ts != [] {
      assert ThreadOk(s, ts[0]);
      PublishedIsCovered(s, ts[1..]);
    }
  }

  // ---------------------------------------------------------------------
  // Every step keeps it
  // ---------------------------------------------------------------------

  /** What a step of one thread may change for the others to be as they were. */
  ghost predicate Grows(s: State, s': State) {
    && Base(s) && FragsOk(s) && Base(s') && FragsOk(s') && s.skl <= s'.skl && |s.frags| <= |s'.frags|
    && (forall c | c in s.counted :: c in s'.counted && s'.counted[c] == s.counted[c])
    && (forall p | 0 <= p < |s.frags| :: s'.frags[p].count == s.frags[p].count)
    && Covered(s) <= Covered(s')
  }

  /** Thread t goes to pc; another thread's filling is not disturbed. */
  lemma Moves(s: State, s': State, t: nat, pc: Pc)
    requires Inv(s) && t < |s.threads| && s'.threads == s.threads[t := pc]
    requires Counts(s') && Grows(s, s') && ThreadOk(s', pc)
    requires forall u | 0 <= u < |s.threads| && u != t && s.threads[u].Fragment? ::
               s'.frags[s.threads[u].p].fill == s.frags[s.threads[u].p].fill && (pc.Fragment? ==> pc.p != s.threads[u].p)
    ensures Inv(s')
  {
    hide Counts, Covered, SetOf;
    forall u | 0 <= u < |s'.threads| ensures ThreadOk(s', s'.threads[u]) {
      assert ThreadOk(s, s.threads[u]);
    }
  }

  lemma StepWriter(s: State, e: Event)
    requires Inv(s) && Shape(s) && e.t < |s.threads|
    requires var pc := s.threads[e.t]; pc.Insert? || pc.AddCount? || pc.LoadFrags? || pc.Swap?
    ensures Inv(Step(s, e))
  {
    hide OneFiller;
    var t, s' := e.t, Step(s, e);
    var pc, pc' := s.threads[t], s'.threads[t];
    assert ThreadOk(s, pc);
    if pc.Insert? {
      WriterInserts(s, s', t);
    } else if pc.AddCount? {
      WriterCounts(s, s', t);
    } else if pc.LoadFrags? {
      Moves(s, s', t, pc');
    } else if s.ptr != pc.seen {
      Moves(s, s', t, pc');
    } else {
      WriterSwaps(s, s', t);
    }
  }

  lemma WriterInserts(s: State, s': State, t: nat)
    requires Inv(s) && Shape(s) && t < |s.threads| && s.threads[t].Insert? && s' == Step(s, Run(t, {}))
    ensures Inv(s')
  {
    hide OneFiller;
    var pc := s.threads[t];
    assert ThreadOk(s, pc);
    if pc.done < |pc.all| {
      assert pc.all[..pc.done + 1] == pc.all[..pc.done] + [pc.all[pc.done]];
    } else {
      assert pc.all[..pc.done] == pc.all;
    }
    Moves(s, s', t, s'.threads[t]);
  }

  /** The spans are in the skiplist before they are counted. */
  lemma WriterCounts(s: State, s': State, t: nat)
    requires Inv(s) && Shape(s) && t < |s.threads| && s.threads[t].AddCount? && s' == Step(s, Run(t, {}))
    ensures Inv(s')
  {
    hide OneFiller;
    var pc := s.threads[t];
    assert ThreadOk(s, pc);
    assert s.count + |pc.all| !in s.counted;
    assert Counts(s');
    hide Counts;
    Moves(s, s', t, s'.threads[t]);
  }

  /** The pointer moves to fragments with a larger count. */
  lemma WriterSwaps(s: State, s': State, t: nat)
    requires Inv(s) && Shape(s) && t < |s.threads| && s.threads[t].Swap? && s.ptr == s.threads[t].seen && s' == Step(s, Run(t, {}))
    ensures Inv(s')
  {
    hide OneFiller;
    var pc := s.threads[t];
    assert ThreadOk(s, pc);
    forall u | 0 <= u < |s.threads| ensures ThreadShape(s, s.threads[u]) {}
    Moves(s, s', t, s'.threads[t]);
  }

  lemma StepReader(s: State, e: Event)
    requires Inv(s) && Shape(s) && e.t < |s.threads| && (s.threads[e.t].Get? || s.threads[e.t].Fetch?)
    ensures Inv(Step(s, e))
  {
    hide OneFiller;
    var t, s' := e.t, Step(s, e);
    assert ThreadOk(s, s.threads[t]);
    if s.threads[t].Get? { PublishedIsCovered(s, s.threads); }
    if s' != s { Moves(s, s', t, s'.threads[t]); }
  }

  /** The fragments are built from a skiplist that had every counted span. */
  lemma StepFragment(s: State, e: Event)
    requires Inv(s) && Shape(s) && e.t < |s.threads| && s.threads[e.t].Fragment?
    ensures Inv(Step(s, e))
  {
    var t, s' := e.t, Step(s, e);
    assert ThreadOk(s, s.threads[t]);
    OtherFillers(s, t);
    hide OneFiller;
    Moves(s, s', t, s'.threads[t]);
  }

  lemma OtherFillers(s: State, t: nat)
    requires OneFiller(s) && t < |s.threads| && s.threads[t].Fragment?
    ensures forall u | 0 <= u < |s.threads| && u != t && s.threads[u].Fragment? :: s.threads[u].p != s.threads[t].p
  {
  }

  lemma StepInv(s: State, e: Event)
    requires Inv(s)
    ensures Shape(s) && Inv(Step(s, e))
  {
    hide Inv;
    InvShape(s);
    if e.t < |s.threads| {
      var pc := s.threads[e.t];
      if pc.Insert? || pc.AddCount? || pc.LoadFrags? || pc.Swap? {
        StepWriter(s, e);
      } else if pc.Get? || pc.Fetch? {
        StepReader(s, e);
      } else if pc.Fragment? {
        StepFragment(s, e);
      }
    }
  }

  /** The state after a schedule. */
  ghost function Reached(ts: seq<Pc>, es: seq<Event>): (s: State)
    requires Starts(ts)
    ensures Inv(s)
  {
    if es == [] then Init(ts)
    else
      var s := Reached(ts, es[..|es| - 1]);
      StepInv(s, es[|es| - 1]);
      Step(s, es[|es| - 1])
  }

  /** The count of the current fragments. */
  function CachedCount(s: State): nat
    requires Base(s)
  {
    if s.ptr.None? then 0 else s.frags[s.ptr.value].count
  }

  lemma CachedCountStep(s: State, e: Event)
    requires Inv(s) && Shape(s) && Base(Step(s, e))
    ensures CachedCount(s) <= CachedCount(Step(s, e))
  {
    if e.t < |s.threads| { assert ThreadOk(s, s.threads[e.t]); }
  }

  /** The cached count never goes backwards, whatever the schedule. */
  lemma {:induction false} CachedCountNeverFalls(ts: seq<Pc>, es: seq<Event>, more: seq<Event>)
    requires Starts(ts)
    ensures CachedCount(Reached(ts, es)) <= CachedCount(Reached(ts, es + more))
    decreases |more|
  {
    hide Step, CachedCount;
    if more == [] {
      assert es + more == es;
    } else {
      var n := |more| - 1;
      CachedCountNeverFalls(ts, es, more[..n]);
      assert (es + more)[..|es + more| - 1] == es + more[..n];
      var s := Reached(ts, es + more[..n]);
      StepInv(s, more[n]);
      CachedCountStep(s, more[n]);
    }
  }

  /** A get returns fragments of spans of the skiplist, among them all spans of every
      invalidation that had returned when the get began. */
  lemma GetSeesInvalidations(ts: seq<Pc>, es: seq<Event>, t: nat)
    requires Starts(ts) && t < |Reached(ts, es).threads| && Reached(ts, es).threads[t].Got?
    ensures var s := Reached(ts, es); s.threads[t].must <= s.threads[t].spans <= s.skl
  {
    assert ThreadOk(Reached(ts, es), Reached(ts, es).threads[t]);
  }

  /** What a get must return is fixed when it loads the pointer: the published spans
      of that moment, and those only grow. */
  lemma GetBegins(ts: seq<Pc>, es: seq<Event>, e: Event)
    requires Starts(ts) && e.t < |Reached(ts, es).threads| && Reached(ts, es).threads[e.t].Get?
    ensures var s, s' := Reached(ts, es), Reached(ts, es + [e]);
            e.t < |s'.threads| && (s'.threads[e.t].Fetch? || s'.threads[e.t].Got?) && s'.threads[e.t].must == Published(s.threads)
  {
    var s := Reached(ts, es);
    assert (es + [e])[..|es|] == es;
    StepInv(s, e);
    hide Inv;
  }
}
