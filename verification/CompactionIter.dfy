/**
The compaction iterator (compaction_iter.go): a forward state machine over the
sorted input of a compaction that collapses the history of each user key
within snapshot stripes.

Every call of Next hands out one entry. Its contract is that the entry,
followed by what the iterator still has to say (Rest), reads like what the
iterator had to say before the call, at every open snapshot.
*/
module CompactionIteration {
  import opened Options
  import opened Lsm
  import opened History
  import opened InUseRanges

  datatype StripeChange = NewStripeNewKey | NewStripeSameKey | SameStripeSkippable | SameStripeNonSkippable

  /** Whether the underlying iterator is at the key last returned, or already at
      the next candidate. */
  datatype Position = AtCurrent | AtNext

  /** Data below the compaction lies in the ranges in use, and the input within
      the compaction's bounds. */
  ghost predicate Bounded(w: World, inuse: seq<KeyRange>, lo: Key, hi: Key) {
    && (forall i | 0 <= i < |w.inp| :: lo <= w.inp[i].key <= hi && (w.inp[i].kind.RangeDelete? ==> w.inp[i].kind.end <= hi))
    && (forall j | 0 <= j < |w.low| :: lo <= w.low[j].key <= hi ==> InUse(inuse, w.low[j].key))
    && (forall t, k: Key | t in w.lowTombs && t.start <= k < t.end && lo <= k <= hi :: InUse(inuse, k))
  }

  // ---------------------------------------------------------------------
  // Lemmas on the positions of the input
  // ---------------------------------------------------------------------

  lemma Ascends(w: World)
    requires ValidWorld(w)
    ensures Ascending(w.snaps)
  {
  }

  lemma InOrder(w: World, i: nat, j: nat)
    requires ValidWorld(w) && i < j < |w.inp|
    ensures Before(w.inp[i], w.inp[j])
  {
  }

  /** The tombstones passed so far decide coverage as all tombstones do. */
  lemma PassedTombstonesDecide(w: World, p: nat)
    requires ValidWorld(w) && p < |w.inp| && w.inp[p].IsPoint()
    ensures VisiblyCovered(w, w.inp[p]) <==>
            Covers(Passed(w, p), w.inp[p].key, w.inp[p].sn, StripeBound(Stripe(w.inp[p].sn, w.snaps), w.snaps))
  {
    hide Tombstones, Stripe, LevelInvariant;
    var e := w.inp[p];
    var s := StripeBound(Stripe(e.sn, w.snaps), w.snaps);
    if Covers(Passed(w, p), e.key, e.sn, s) {
      var t :| t in Passed(w, p) && t.start <= e.key < t.end && e.sn < t.sn < s;
      var i := TombstoneSource(w.inp[..p], t);
      TombstoneOf(w.inp, i);
      assert t in Tombstones(w.inp);
    }
    if Covers(Tombstones(w.inp), e.key, e.sn, s) {
      var t :| t in Tombstones(w.inp) && t.start <= e.key < t.end && e.sn < t.sn < s;
      var i := TombstoneSource(w.inp, t);
      NewerIsPassed(w, p, i, t);
      TombstoneOf(w.inp[..p], i);
      assert t in Passed(w, p);
    }
  }

  /** A tombstone over a point, and newer than it, is before it in the input. */
  lemma NewerIsPassed(w: World, p: nat, i: nat, t: Tombstone)
    requires ValidWorld(w) && p < |w.inp| && w.inp[p].IsPoint() && i < |w.inp| && t in SpanTombstones(w.inp[i])
    requires t.start <= w.inp[p].key && w.inp[p].sn < t.sn
    ensures i < p
  {
    hide LevelInvariant, Tombstones;
    assert SpanOk(w.inp[i]);
  }

  /** The input from a position on, and the range tombstones before it. */
  ghost function From(w: World, p: nat): seq<Entry>
    requires p <= |w.inp|
  {
    w.inp[p..]
  }

  ghost function Passed(w: World, p: nat): set<Tombstone>
    requires p <= |w.inp|
  {
    Tombstones(w.inp[..p])
  }

  /** Entry e followed by rest reads like the input from p0 on. */
  ghost predicate StandsIn(w: World, e: Entry, rest: seq<Entry>, p0: nat)
    requires p0 <= |w.inp|
  {
    SameReads(w, [e] + rest, w.inp[p0..])
  }

  lemma PassPoint(w: World, p: nat)
    requires p < |w.inp| && w.inp[p].IsPoint()
    ensures Passed(w, p + 1) == Passed(w, p)
  {
    assert w.inp[..p + 1][..p] == w.inp[..p];
  }

  lemma PassSpan(w: World, p: nat)
    requires p < |w.inp|
    ensures Passed(w, p + 1) == Passed(w, p) + SpanTombstones(w.inp[p])
  {
    assert w.inp[..p + 1][..p] == w.inp[..p];
  }

  lemma Suffix(es: seq<Entry>, p: nat)
    requires p < |es|
    ensures es[p..] == [es[p]] + es[p + 1..]
  {
  }

  lemma {:induction false} DropCoveredRun(w: World, a: nat, b: nat)
    requires ValidWorld(w) && a <= b <= |w.inp|
    requires forall j | a <= j < b :: w.inp[j].IsPoint() && VisiblyCovered(w, w.inp[j])
    ensures SameReads(w, w.inp[a..], w.inp[b..])
    decreases b - a
  {
    if a < b {
      DropCoveredRun(w, a + 1, b);
      DropDead(w, w.inp[a], w.inp[a + 1..]);
      Suffix(w.inp, a);
    }
  }

  lemma {:induction false} SkipRun(w: World, a: nat, b: nat, k: Key, i: nat)
    requires a <= b <= |w.inp|
    requires forall j | a <= j < b :: w.inp[j].IsPoint() && w.inp[j].key == k && Stripe(w.inp[j].sn, w.snaps) == i
    ensures DropStripe(w, w.inp[a..], k, i) == DropStripe(w, w.inp[b..], k, i)
    decreases b - a
  {
    if a < b {
      SkipRun(w, a + 1, b, k, i);
      assert w.inp[a..][1..] == w.inp[a + 1..];
    }
  }

  lemma BelowSuffix(w: World, p0: nat, p: nat)
    requires ValidWorld(w) && p0 < p <= |w.inp|
    ensures Below(w, w.inp[p0], w.inp[p..]) && Sorted(w.inp[p..])
  {
    forall i | 0 <= i < |w.inp[p..]| ensures Before(w.inp[p0], w.inp[p..][i]) && w.inp[p..][i].sn < w.top {
      assert w.inp[p..][i] == w.inp[p + i];
    }
  }

  lemma NoPointsPastKey(w: World, p: nat, k: Key)
    requires ValidWorld(w) && p <= |w.inp| && (p < |w.inp| ==> k < w.inp[p].key)
    ensures NoPoints(w.inp[p..], k)
  {
    forall i | 0 <= i < |w.inp[p..]| ensures w.inp[p..][i].key != k {
      assert w.inp[p..][i] == w.inp[p + i];
      if i > 0 { assert Before(w.inp[p], w.inp[p + i]); }
    }
  }

  /** An entry may be replaced by one that lays the same value over older data. */
  lemma Replace(w: World, e: Entry, o: Entry, rest: seq<Entry>)
    requires e.key == o.key && e.sn == o.sn
    requires (e.IsTombstone() && o.IsTombstone()) || (e.IsSet() && o.IsSet() && e.value == o.value)
    ensures SameReads(w, [e] + rest, [o] + rest)
  {
    forall k: Key, s: nat | Open(w, s) ensures ReadOver(w, [e] + rest, k, s) == ReadOver(w, [o] + rest, k, s) {
      ReadHead(w, e, rest, k, s);
      ReadHead(w, o, rest, k, s);
    }
  }

  // ---------------------------------------------------------------------
  // Steps of a scan: e stands for the entry found at p0, and [e] followed by
  // the input from some position on reads like the target x
  // ---------------------------------------------------------------------

  /** e may stand for the input's point at p0. */
  predicate StandsFor(w: World, e: Entry, p0: nat) {
    p0 < |w.inp| && w.inp[p0].IsPoint() && e.IsPoint() && e.key == w.inp[p0].key && e.sn == w.inp[p0].sn
  }

  lemma BelowTop(w: World, p: nat)
    requires ValidWorld(w) && p < |w.inp|
    ensures w.inp[p].sn < w.top
  {
  }

  lemma Start(w: World, p: nat)
    requires p < |w.inp|
    ensures StandsIn(w, w.inp[p], From(w, p + 1), p)
  {
    Suffix(w.inp, p);
  }

  lemma PassCovered(w: World, e: Entry, q: nat, p: nat, p0: nat)
    requires ValidWorld(w) && q < p <= |w.inp| && p0 <= |w.inp|
    requires forall j | q < j < p :: w.inp[j].IsPoint() && VisiblyCovered(w, w.inp[j])
    requires StandsIn(w, e, From(w, q + 1), p0)
    ensures StandsIn(w, e, From(w, p), p0)
  {
    hide VisiblyCovered, Read, Open;
    DropCoveredRun(w, q + 1, p);
    SamePrefix(w, [e], w.inp[q + 1..], w.inp[p..]);
  }

  lemma PassHidden(w: World, e: Entry, p: nat, p0: nat)
    requires ValidWorld(w) && StandsFor(w, e, p0) && Hides(w, e)
    requires p0 < p < |w.inp| && w.inp[p].key == e.key && Stripe(w.inp[p].sn, w.snaps) == Stripe(e.sn, w.snaps)
    requires StandsIn(w, e, From(w, p), p0)
    ensures StandsIn(w, e, From(w, p + 1), p0)
  {
    hide VisiblyCovered, Read, Open, Hides;
    InOrder(w, p0, p);
    DropHidden(w, e, w.inp[p], w.inp[p + 1..]);
    assert [e, w.inp[p]] + w.inp[p + 1..] == [e] + w.inp[p..];
  }

  lemma PassMerged(w: World, e: Entry, p: nat, p0: nat)
    requires ValidWorld(w) && StandsFor(w, e, p0) && e.kind.Merge?
    requires p0 < p < |w.inp| && w.inp[p].key == e.key && Stripe(w.inp[p].sn, w.snaps) == Stripe(e.sn, w.snaps)
    requires w.inp[p].IsPoint() && !VisiblyCovered(w, w.inp[p])
    requires StandsIn(w, e, From(w, p), p0)
    ensures StandsIn(w, MergeWith(e, w.inp[p]), From(w, p + 1), p0)
  {
    hide VisiblyCovered, Read, Open;
    InOrder(w, p0, p);
    CombineMerge(w, e, w.inp[p], w.inp[p + 1..]);
    assert [e, w.inp[p]] + w.inp[p + 1..] == [e] + w.inp[p..];
  }

  lemma PassStripe(w: World, e: Entry, p: nat, p0: nat)
    requires ValidWorld(w) && StandsFor(w, e, p0) && Hides(w, e) && p0 < p <= |w.inp|
    requires StandsIn(w, e, From(w, p), p0)
    ensures StandsIn(w, e, DropStripe(w, From(w, p), e.key, Stripe(e.sn, w.snaps)), p0)
  {
    hide VisiblyCovered, Read, Open, Hides;
    BelowSuffix(w, p0, p);
    DropHiddenStripe(w, e, w.inp[p..]);
  }

  lemma ReplaceHead(w: World, e: Entry, o: Entry, rest: seq<Entry>, p0: nat)
    requires p0 <= |w.inp| && e.key == o.key && e.sn == o.sn
    requires (e.IsTombstone() && o.IsTombstone()) || (e.IsSet() && o.IsSet() && e.value == o.value)
    requires StandsIn(w, e, rest, p0)
    ensures StandsIn(w, o, rest, p0)
  {
    hide Read, Open;
    Replace(w, e, o, rest);
  }

  /** Once the last stripe is passed, no point of its key is left. */
  lemma LastStripePassed(w: World, p0: nat, p: nat)
    requires ValidWorld(w) && p0 < p <= |w.inp| && w.inp[p0].IsPoint() && Stripe(w.inp[p0].sn, w.snaps) == 0
    ensures NoPoints(DropStripe(w, From(w, p), w.inp[p0].key, 0), w.inp[p0].key)
    ensures (p == |w.inp| || w.inp[p].key != w.inp[p0].key) ==> NoPoints(From(w, p), w.inp[p0].key)
  {
    BelowSuffix(w, p0, p);
    DropLastStripe(w, w.inp[p0], w.inp[p..]);
    if p == |w.inp| || w.inp[p].key != w.inp[p0].key {
      if p < |w.inp| { InOrder(w, p0, p); }
      NoPointsPastKey(w, p, w.inp[p0].key);
    }
  }

  /** Whether an entry may go out as o in the place of e. */
  predicate SameEffect(e: Entry, o: Entry) {
    && e.key == o.key && e.sn == o.sn
    && ((e.IsTombstone() && o.IsTombstone()) || (e.IsSet() && o.IsSet() && e.value == o.value))
  }

  /** The end of a scan that skips the rest of the stripe from p on. */
  lemma EndSkipping(w: World, e: Entry, o: Entry, p: nat, p0: nat)
    requires ValidWorld(w) && StandsFor(w, e, p0) && SameEffect(e, o) && p0 < p <= |w.inp|
    requires StandsIn(w, e, From(w, p), p0)
    ensures StandsIn(w, o, DropStripe(w, From(w, p), e.key, Stripe(e.sn, w.snaps)), p0)
    ensures Stripe(e.sn, w.snaps) == 0 ==> NoPoints(DropStripe(w, From(w, p), e.key, 0), e.key)
  {
    hide StandsIn, From, DropStripe, NoPoints, ValidWorld;
    PassStripe(w, e, p, p0);
    ReplaceHead(w, e, o, DropStripe(w, From(w, p), e.key, Stripe(e.sn, w.snaps)), p0);
    if Stripe(e.sn, w.snaps) == 0 { LastStripePassed(w, p0, p); }
  }

  /** A tombstone that nothing below needs goes, with its stripe, from p on. */
  lemma EndEliding(w: World, e: Entry, p: nat, p0: nat)
    requires ValidWorld(w) && StandsFor(w, e, p0) && e.IsTombstone() && p0 < p <= |w.inp|
    requires Stripe(e.sn, w.snaps) == 0 && NoPoints(w.low, e.key)
    requires StandsIn(w, e, From(w, p), p0)
    ensures ReadsLike(w, DropStripe(w, From(w, p), e.key, 0), p0)
    ensures NoPoints(From(w, p), e.key) ==> ReadsLike(w, From(w, p), p0)
  {
    PassStripe(w, e, p, p0);
    LastStripePassed(w, p0, p);
    DropLoneTombstone(w, e, DropStripe(w, From(w, p), e.key, 0));
    if NoPoints(From(w, p), e.key) { DropLoneTombstone(w, e, From(w, p)); }
  }

  /** A deleted point goes, with its stripe, from p on. */
  lemma EndCovered(w: World, p0: nat, p: nat)
    requires ValidWorld(w) && p0 < p <= |w.inp| && w.inp[p0].IsPoint() && VisiblyCovered(w, w.inp[p0])
    requires forall j | p0 < j < p :: w.inp[j].IsPoint() && w.inp[j].key == w.inp[p0].key
                                     && Stripe(w.inp[j].sn, w.snaps) == Stripe(w.inp[p0].sn, w.snaps)
    ensures ReadsLike(w, DropStripe(w, From(w, p), w.inp[p0].key, Stripe(w.inp[p0].sn, w.snaps)), p0)
  {
    hide VisiblyCovered, Read, Open, Stripe;
    var e, i := w.inp[p0], Stripe(w.inp[p0].sn, w.snaps);
    Start(w, p0);
    PassStripe(w, e, p0 + 1, p0);
    SkipRun(w, p0 + 1, p, e.key, i);
    DropDead(w, e, DropStripe(w, w.inp[p0 + 1..], e.key, i));
  }

  /** Skipping over the points of a stripe, when the stripe goes. */
  lemma SkipPassed(w: World, e: Entry, q: nat, p: nat)
    requires q < p <= |w.inp|
    requires forall j | q < j < p :: w.inp[j].IsPoint() && w.inp[j].key == e.key && Stripe(w.inp[j].sn, w.snaps) == Stripe(e.sn, w.snaps)
    ensures DropStripe(w, From(w, q + 1), e.key, Stripe(e.sn, w.snaps)) == DropStripe(w, From(w, p), e.key, Stripe(e.sn, w.snaps))
    ensures (p == |w.inp| || w.inp[p].key != e.key || Stripe(w.inp[p].sn, w.snaps) != Stripe(e.sn, w.snaps)) ==>
              DropStripe(w, From(w, p), e.key, Stripe(e.sn, w.snaps)) == From(w, p)
  {
    SkipRun(w, q + 1, p, e.key, Stripe(e.sn, w.snaps));
  }

  lemma CancelAt(w: World, p0: nat, p: nat)
    requires ValidWorld(w) && SingleDeleteSafe(w) && p0 < p < |w.inp| && Cancels(w, p0, p)
    requires StandsIn(w, w.inp[p0], From(w, p), p0)
    ensures ReadsLike(w, From(w, p + 1), p0)
  {
    hide VisiblyCovered, Read, Stripe;
    InOrder(w, p0, p);
    CancelPair(w, w.inp[p0], w.inp[p], w.inp[p + 1..]);
    assert [w.inp[p0], w.inp[p]] + w.inp[p + 1..] == [w.inp[p0]] + w.inp[p..];
  }

  lemma PassCoveredAlone(w: World, q: nat, p: nat, p0: nat)
    requires ValidWorld(w) && q < p <= |w.inp| && p0 <= |w.inp|
    requires forall j | q < j < p :: w.inp[j].IsPoint() && VisiblyCovered(w, w.inp[j])
    requires ReadsLike(w, From(w, q + 1), p0)
    ensures ReadsLike(w, From(w, p), p0)
  {
    hide VisiblyCovered, Read, Open;
    DropCoveredRun(w, q + 1, p);
  }

  // ---------------------------------------------------------------------
  // DELSIZED values
  // ---------------------------------------------------------------------

  /** Go's binary.Uvarint: the number, and how many bytes it took (zero when the
      bytes run out, negative on overflow of 64 bits). */
  function Uvarint(s: Value, i: nat, x: nat, weight: nat): (int, int)
    requires i <= |s|
    decreases |s| - i
  {
    if i == |s| then (0, 0)
    else if i == 10 then (0, -11)
    else if s[i] < 0x80 then
      if i == 9 && s[i] > 1 then (0, -10) else (x + s[i] * weight, i + 1)
    else Uvarint(s, i + 1, x + (s[i] - 0x80) * weight, weight * 0x80)
  }

  /** A DELSIZED of the input carries a size that is not a varint. */
  ghost predicate Malformed(inp: seq<Entry>) {
    exists i :: 0 <= i < |inp| && inp[i].kind.DeleteSized? && |inp[i].value| > 0
                && Uvarint(inp[i].value, 0, 0, 1).1 != |inp[i].value|
  }

  // ---------------------------------------------------------------------
  // The iterator
  // ---------------------------------------------------------------------

  /** The fields that the iterator's methods update. */
  datatype State = State(
    p: nat,                    // the underlying iterator; the input's length when exhausted
    key: Entry,                // the saved key and value, possibly altered
    keySn: nat,                // the saved key's original sequence number
    skip: bool,
    pos: Position,
    change: StripeChange,
    curIdx: nat,               // the stripe of the key at p
    frag: set<Tombstone>,      // the range tombstones the consumer added
    err: bool,
    missized: nat)

  /** What an iterator is created with. */
  datatype Config = Config(
    inp: seq<Entry>,
    snaps: seq<nat>,
    allowZeroSeqNum: bool,
    setWithDelete: bool,       // the format version knows SETWITHDEL
    keyLen: Key -> nat)        // length in bytes of a user key

  ghost predicate Fixed(c: Config, w: World) {
    w.inp == c.inp && w.snaps == c.snaps && ValidWorld(w) && SingleDeleteSafe(w)
  }

  lemma Facts(c: Config, w: World)
    requires Fixed(c, w)
    ensures w.inp == c.inp && w.snaps == c.snaps && ValidWorld(w) && SingleDeleteSafe(w)
  {
  }

  ghost predicate Base(c: Config, w: World, s: State) {
    && Fixed(c, w) && w.inp == c.inp && w.snaps == c.snaps && s.p <= |c.inp|
    && (s.p < |c.inp| ==> s.curIdx == Stripe(c.inp[s.p].sn, c.snaps))
  }

  /** The saved key was read at q, at or above the current position, and is a
      key of the same user key. */
  ghost predicate SavedAt(c: Config, s: State, q: nat) {
    && q <= s.p < |c.inp|
    && c.inp[q].key == c.inp[s.p].key == s.key.key && s.keySn == c.inp[q].sn
    && (s.key.kind.RangeDelete? <==> c.inp[q].kind.RangeDelete?)
  }

  ghost predicate Saved(c: Config, w: World, s: State) {
    && (exists q :: SavedAt(c, s, q))
    && w.inp == c.inp && s.p < |c.inp| && s.key.key == c.inp[s.p].key && s.frag == Passed(w, s.p + 1)
  }

  /** What the iterator has yet to hand out. */
  ghost function Rest(c: Config, w: World, s: State): seq<Entry>
    requires w.inp == c.inp && s.p <= |c.inp|
  {
    if s.p == |c.inp| then From(w, s.p)
    else
      var from := From(w, if s.pos == AtNext then s.p else s.p + 1);
      if s.skip then DropStripe(w, from, c.inp[s.p].key, Stripe(c.inp[s.p].sn, c.snaps)) else from
  }

  /** The iterator is at an unprocessed key; skip survives only on a range
      tombstone of the skipped stripe. */
  ghost predicate AtCandidate(c: Config, w: World, s: State) {
    && w.inp == c.inp && s.p <= |c.inp| && s.frag == Passed(w, s.p)
    && (s.skip ==> s.p < |c.inp| && !c.inp[s.p].IsPoint() && s.change == SameStripeNonSkippable)
  }

  /** The state in which Next may be called. */
  ghost predicate Ready(c: Config, w: World, s: State) {
    && Base(c, w, s)
    && (s.pos == AtCurrent ==> Saved(c, w, s))
    && (s.pos == AtNext ==> AtCandidate(c, w, s))
  }

  /** At a point that no range tombstone of its stripe deletes. */
  ghost predicate AtPoint(c: Config, w: World, s: State) {
    && Base(c, w, s) && AtCandidate(c, w, s) && s.pos == AtCurrent && !s.skip && !s.err
    && s.p < |c.inp| && c.inp[s.p].IsPoint() && !VisiblyCovered(w, c.inp[s.p])
  }

  /** The saved entry before any zeroing of its sequence number. */
  function Original(s: State): Entry {
    s.key.(sn := s.keySn)
  }

  ghost predicate ZeroedSoundly(c: Config, w: World, s: State)
    requires w.inp == c.inp && s.p <= |c.inp|
  {
    s.key.sn == s.keySn
    || (s.key.sn == 0 && c.allowZeroSeqNum && Stripe(s.keySn, c.snaps) == 0 && NoPoints(Rest(c, w, s), s.key.key))
  }

  /** The outcome of handing out the point that was at p0. */
  ghost predicate Emitted(c: Config, w: World, s: State, p0: nat) {
    && Ready(c, w, s) && p0 < |c.inp| && p0 <= s.p && (s.pos == AtNext ==> p0 < s.p)
    && s.key.key == c.inp[p0].key && s.keySn == c.inp[p0].sn && s.key.IsPoint()
    && StandsIn(w, Original(s), Rest(c, w, s), p0)
  }

  function SaveKey(c: Config, s: State): State
    requires s.p < |c.inp|
  {
    s.(key := c.inp[s.p], keySn := c.inp[s.p].sn)
  }

  function MaybeZeroSeqnum(c: Config, s: State, snapshotIdx: nat): State {
    if !c.allowZeroSeqNum || snapshotIdx > 0 then s else s.(key := s.key.(sn := 0))
  }

  /** rest reads like the input from p0 on. */
  ghost predicate ReadsLike(w: World, rest: seq<Entry>, p0: nat)
    requires p0 <= |w.inp|
  {
    SameReads(w, rest, w.inp[p0..])
  }

  /** The outcome of consuming the point that was at p0 without handing out
      anything: the iterator is at the next key to look at. */
  ghost predicate Consumed(c: Config, w: World, s: State, p0: nat) {
    && Base(c, w, s) && AtCandidate(c, w, s) && s.pos == AtCurrent && p0 < s.p && !s.err
    && ReadsLike(w, Rest(c, w, s.(pos := AtNext)), p0)
  }

  /** What the change of stripe says about the key at q, seen from user key k
      and stripe idx. */
  ghost predicate Landed(c: Config, k: Key, idx: nat, q: nat, change: StripeChange)
    requires q <= |c.inp|
  {
    && (change == NewStripeNewKey <==> (q == |c.inp| || c.inp[q].key != k))
    && (q < |c.inp| ==> k <= c.inp[q].key)
    && (change == NewStripeSameKey ==> Stripe(c.inp[q].sn, c.snaps) < idx)
    && (change == SameStripeSkippable ==> Stripe(c.inp[q].sn, c.snaps) == idx && c.inp[q].IsPoint())
    && (change == SameStripeNonSkippable ==> Stripe(c.inp[q].sn, c.snaps) == idx && !c.inp[q].IsPoint())
  }

  // ---------------------------------------------------------------------
  // What goes out
  // ---------------------------------------------------------------------

  /** Entry j of the input lies under entry p, in the same user key and stripe. */
  predicate Under(c: Config, p: nat, j: nat) {
    p < j < |c.inp| && c.inp[j].key == c.inp[p].key && Stripe(c.inp[j].sn, c.snaps) == Stripe(c.inp[p].sn, c.snaps)
  }

  ghost predicate Deleted(w: World, e: Entry) {
    e.IsPoint() && VisiblyCovered(w, e)
  }

  /** The size that a DELSIZED at p stands for when it comes to entry j: that of the last
      entry before j that no range tombstone deletes, if that is a DELSIZED, and none
      otherwise. */
  ghost function InHand(c: Config, w: World, p: nat, j: nat): Value
    requires p < j <= |c.inp|
    decreases j
  {
    var x := c.inp[j - 1];
    if p < j - 1 && Deleted(w, x) then InHand(c, w, p, j - 1) else if x.kind.DeleteSized? then x.value else []
  }

  /** A write has the size that a DELSIZED stands for. */
  predicate SizeMatches(c: Config, size: Value, x: Entry) {
    |size| > 0 && c.keyLen(x.key) + |x.value| == Uvarint(size, 0, 0, 1).0
  }

  /** Looking down its stripe, the entry at p goes past entry j: one that a range tombstone
      of the stripe deletes, or, according to the kind of the entry at p, one of the same
      kind, a write under a SET, or what a DELSIZED accounts for. No entry goes past a
      range tombstone. */
  ghost predicate GoesPast(c: Config, w: World, p: nat, j: nat)
    requires p < j < |c.inp|
  {
    var x := c.inp[j];
    && x.IsPoint()
    && (|| VisiblyCovered(w, x)
        || match c.inp[p].kind
           case Set => !x.IsTombstone()
           case Merge => x.kind.Merge?
           case SingleDelete => x.kind.SingleDelete?
           case DeleteSized => x.kind.DeleteSized? || (!x.IsTombstone() && SizeMatches(c, InHand(c, w, p, j), x))
           case _ => false)
  }

  /** Where the entry at p stops looking. */
  ghost predicate StopsAt(c: Config, w: World, p: nat, j: nat) {
    Under(c, p, j) && !GoesPast(c, w, p, j) && forall k | p < k < j :: GoesPast(c, w, p, k)
  }

  /** It does not stop within its stripe. */
  ghost predicate RunsOut(c: Config, w: World, p: nat) {
    forall k: nat | Under(c, p, k) :: GoesPast(c, w, p, k)
  }

  /** The stripe of entry p ends at position j. */
  predicate StripeEnds(c: Config, p: nat, j: nat) {
    p < j <= |c.inp| && (forall k | p < k < j :: Under(c, p, k)) && forall k | j <= k < |c.inp| :: !Under(c, p, k)
  }

  /** The sequence number of what goes out for a write at p. */
  function NumberOf(c: Config, p: nat): nat
    requires p < |c.inp|
  {
    if c.allowZeroSeqNum && Stripe(c.inp[p].sn, c.snaps) == 0 then 0 else c.inp[p].sn
  }

  /** What goes out for the point at p, if anything: a SET becomes a SETWITHDEL exactly if
      it comes to a deletion, or to a range tombstone, under it; operands are merged down
      to a deletion or a SET; a SINGLEDEL becomes a DEL exactly if it comes to something
      other than the one write that it may cancel; a DELSIZED becomes a DEL exactly if it
      comes to something that its size does not account for. */
  ghost predicate GoesOut(c: Config, w: World, p: nat, o: Entry)
    requires p < |c.inp|
  {
    var e := c.inp[p];
    && o.key == e.key
    && match e.kind
       case Set =>
         && o.kind == (if c.setWithDelete && exists j: nat :: StopsAt(c, w, p, j) then SetWithDelete else Set)
         && o.value == e.value && o.sn == NumberOf(c, p)
       case SetWithDelete => o.kind == SetWithDelete && o.value == e.value && o.sn == NumberOf(c, p)
       case Merge =>
         && (RunsOut(c, w, p) ==> o.kind == Merge && o.sn == NumberOf(c, p))
         && forall j: nat | StopsAt(c, w, p, j) ::
              var x := c.inp[j];
              && o.kind == (if !x.IsPoint() then Merge else if x.IsTombstone() then SetWithDelete else Set)
              && o.sn == if x.IsPoint() then NumberOf(c, p) else e.sn
       case SingleDelete =>
         && o.value == e.value && o.sn == e.sn && (RunsOut(c, w, p) ==> o.kind == SingleDelete)
         && forall j: nat | StopsAt(c, w, p, j) ::
              !CanBeCancelled(c.inp[j]) && o.kind == if c.inp[j].IsPoint() then Delete else SingleDelete
       case Delete => o == e
       case DeleteSized =>
         && o.sn == e.sn
         && (forall j: nat | RunsOut(c, w, p) && StripeEnds(c, p, j) :: o.kind == DeleteSized && o.value == InHand(c, w, p, j))
         && forall j: nat | StopsAt(c, w, p, j) ::
              var x := c.inp[j];
              && o.kind == (if x.IsPoint() then Delete else DeleteSized)
              && o.value == if !x.IsPoint() then InHand(c, w, p, j) else if x.IsTombstone() then x.value else []
       case RangeDelete(_, _) => o == e
  }

  /** A write that a SINGLEDEL cancels when it meets it. */
  predicate CanBeCancelled(x: Entry) { x.kind.Set? || x.kind.Merge? }

  /** Of what is left, the points of p's user key and stripe come after a range tombstone,
      and there are some only if the entry at p is one that waits for it. */
  ghost predicate Collapsed(c: Config, p: nat, rest: seq<Entry>)
    requires p < |c.inp|
  {
    forall j: nat | Under(c, p, j) && c.inp[j].IsPoint() && c.inp[j] in rest ::
      (c.inp[p].kind.Merge? || c.inp[p].kind.SingleDelete?) && exists k: nat :: p < k < j && Under(c, p, k) && !c.inp[k].IsPoint()
  }

  // The way down a stripe

  /** The entry at p has looked at everything down to q, and gone past it. */
  ghost predicate Scanned(c: Config, w: World, p: nat, q: nat) {
    p <= q < |c.inp| && forall k | p < k <= q :: Under(c, p, k) && GoesPast(c, w, p, k)
  }

  lemma ScanStarts(c: Config, w: World, p: nat)
    requires p < |c.inp|
    ensures Scanned(c, w, p, p)
  {
  }

  /** Nothing from q on is in p's stripe, if the entry at q is not. */
  lemma StripeIsPast(c: Config, w: World, p: nat, q: nat)
    requires Fixed(c, w) && p < q <= |c.inp|
    requires q < |c.inp| ==> c.inp[q].key != c.inp[p].key || Stripe(c.inp[q].sn, c.snaps) < Stripe(c.inp[p].sn, c.snaps)
    ensures forall k | q <= k < |c.inp| :: !Under(c, p, k)
  {
    hide Stripe, LevelInvariant, SingleDeleteSafe;
    forall k | q <= k < |c.inp| ensures !Under(c, p, k) {
      InOrder(w, p, q);
      if q < k {
        InOrder(w, q, k);
        if c.inp[k].key == c.inp[q].key { StripeMonotone(c.inp[k].sn, c.inp[q].sn, c.snaps); }
      }
    }
  }

  /** One step further down, as NextInStripe goes. */
  lemma ScanOn(c: Config, w: World, p: nat, q: nat, n: nat, change: StripeChange)
    requires Fixed(c, w) && Scanned(c, w, p, q) && q < n <= |c.inp| && Landed(c, c.inp[p].key, Stripe(c.inp[p].sn, c.snaps), n, change)
    requires forall j | q < j < n :: c.inp[j].IsPoint() && c.inp[j].key == c.inp[p].key && VisiblyCovered(w, c.inp[j])
                                    && Stripe(c.inp[j].sn, c.snaps) == Stripe(c.inp[p].sn, c.snaps)
    ensures forall k | p < k < n :: Under(c, p, k) && GoesPast(c, w, p, k)
    ensures change == NewStripeNewKey || change == NewStripeSameKey ==> RunsOut(c, w, p) && StripeEnds(c, p, n)
    ensures change == SameStripeNonSkippable || change == SameStripeSkippable ==> Under(c, p, n)
    ensures change == SameStripeNonSkippable ==> StopsAt(c, w, p, n) && !c.inp[n].IsPoint()
    ensures change == SameStripeSkippable && !GoesPast(c, w, p, n) ==> StopsAt(c, w, p, n)
    ensures change == SameStripeSkippable && GoesPast(c, w, p, n) ==> Scanned(c, w, p, n)
  {
    hide Stripe, VisiblyCovered, ValidWorld, SingleDeleteSafe, InHand;
    forall k | p < k < n ensures Under(c, p, k) && GoesPast(c, w, p, k) {
      if q < k { assert c.inp[k].IsPoint() && VisiblyCovered(w, c.inp[k]); }
    }
    if change == NewStripeNewKey || change == NewStripeSameKey { StripeIsPast(c, w, p, n); }
  }

  /** It stops at one place, or runs out. */
  lemma OneStop(c: Config, w: World, p: nat, i: nat, j: nat)
    requires StopsAt(c, w, p, i) && StopsAt(c, w, p, j)
    ensures i == j
  {
    hide GoesPast, Stripe;
  }

  lemma NoStop(c: Config, w: World, p: nat, j: nat)
    requires RunsOut(c, w, p)
    ensures !StopsAt(c, w, p, j)
  {
    hide GoesPast, Stripe;
  }

  /** What lies between two entries of a stripe is in the stripe. */
  lemma StripeIsWhole(c: Config, w: World, p: nat, k: nat, j: nat)
    requires Fixed(c, w) && Under(c, p, j) && p < k < j
    ensures Under(c, p, k)
  {
    hide Stripe, LevelInvariant, SingleDeleteSafe;
    InOrder(w, p, k);
    InOrder(w, k, j);
    StripeMonotone(c.inp[k].sn, c.inp[p].sn, c.snaps);
    StripeMonotone(c.inp[j].sn, c.inp[k].sn, c.snaps);
  }

  /** If there is something to stop at, there is a first. */
  lemma {:induction false} FirstStop(c: Config, w: World, p: nat, j: nat) returns (i: nat)
    requires Fixed(c, w) && Under(c, p, j) && !GoesPast(c, w, p, j)
    ensures i <= j && StopsAt(c, w, p, i)
  {
    hide Stripe, GoesPast, Fixed;
    if k: nat :| p < k < j && !GoesPast(c, w, p, k) {
      StripeIsWhole(c, w, p, k, j);
      i := FirstStop(c, w, p, k);
    } else {
      i := j;
    }
  }

  /** A SET that goes out as one has neither a range tombstone nor a deletion that none
      covers under it in its stripe, so a SINGLEDEL that cancels it later uncovers nothing
      that a deletion which is gone by then had hidden. */
  lemma PlainSetIsClear(c: Config, w: World, p: nat, o: Entry, j: nat)
    requires Fixed(c, w) && p < |c.inp| && c.setWithDelete && c.inp[p].kind.Set? && GoesOut(c, w, p, o) && o.kind == Set && Under(c, p, j)
    ensures c.inp[j].IsPoint() && (c.inp[j].IsTombstone() ==> VisiblyCovered(w, c.inp[j]))
  {
    hide Stripe, Fixed, StopsAt, VisiblyCovered;
    if !GoesPast(c, w, p, j) { var i := FirstStop(c, w, p, j); }
  }

  // What is left

  /** Entries of the input are told apart by where they are. */
  lemma InFrom(c: Config, w: World, p: nat, j: nat)
    requires Fixed(c, w) && p <= |c.inp| && j < |c.inp| && c.inp[j].IsPoint() && c.inp[j] in From(w, p)
    ensures p <= j
  {
    hide LevelInvariant, SingleDeleteSafe;
    var i :| 0 <= i < |w.inp[p..]| && w.inp[p..][i] == c.inp[j];
    assert w.inp[p + i] == c.inp[j];
    assert j < p + i ==> Before(c.inp[j], w.inp[p + i]);
  }

  /** Dropping the stripe leaves none of its points. */
  lemma {:induction false} StripeIsDropped(c: Config, w: World, p: nat, n: nat, e: Entry)
    requires Fixed(c, w) && p < n <= |c.inp| && e in DropStripe(w, From(w, n), c.inp[p].key, Stripe(c.inp[p].sn, c.snaps))
    ensures e.IsPoint() && e.key == c.inp[p].key ==> Stripe(e.sn, c.snaps) != Stripe(c.inp[p].sn, c.snaps)
    decreases |c.inp| - n
  {
    hide Stripe, LevelInvariant, SingleDeleteSafe;
    var k, i := c.inp[p].key, Stripe(c.inp[p].sn, c.snaps);
    if n < |c.inp| {
      Suffix(w.inp, n);
      assert From(w, n)[1..] == From(w, n + 1);
      if c.inp[n].key == k && Stripe(c.inp[n].sn, c.snaps) == i {
        if c.inp[n].IsPoint() || e != c.inp[n] { StripeIsDropped(c, w, p, n + 1, e); }
      } else {
        InOrder(w, p, n);
        if c.inp[n].key == k { StripeMonotone(c.inp[n].sn, c.inp[p].sn, c.snaps); }
        StripeIsPast(c, w, p, n);
        var m :| 0 <= m < |w.inp[n..]| && w.inp[n..][m] == e;
        assert !Under(c, p, n + m);
      }
    }
  }

  /** When the stripe goes, nothing of it is left. */
  lemma CollapsedBySkip(c: Config, w: World, p: nat, n: nat)
    requires Fixed(c, w) && p < n <= |c.inp|
    ensures Collapsed(c, p, DropStripe(w, From(w, n), c.inp[p].key, Stripe(c.inp[p].sn, c.snaps)))
  {
    hide Stripe, DropStripe, From, ValidWorld, SingleDeleteSafe;
    var rest := DropStripe(w, From(w, n), c.inp[p].key, Stripe(c.inp[p].sn, c.snaps));
    forall j: nat | Under(c, p, j) && c.inp[j].IsPoint() ensures c.inp[j] !in rest {
      if c.inp[j] in rest { StripeIsDropped(c, w, p, n, c.inp[j]); }
    }
  }

  /** When the stripe is over, too. */
  lemma CollapsedAtEnd(c: Config, w: World, p: nat, n: nat)
    requires Fixed(c, w) && StripeEnds(c, p, n)
    ensures Collapsed(c, p, From(w, n))
  {
    hide Stripe, From, ValidWorld, SingleDeleteSafe;
    forall j: nat | Under(c, p, j) && c.inp[j].IsPoint() ensures c.inp[j] !in From(w, n) {
      if c.inp[j] in From(w, n) { InFrom(c, w, n, j); }
    }
  }

  /** At a range tombstone what is left comes after it. */
  lemma CollapsedAtSpan(c: Config, w: World, p: nat, n: nat)
    requires Fixed(c, w) && Under(c, p, n) && !c.inp[n].IsPoint() && (c.inp[p].kind.Merge? || c.inp[p].kind.SingleDelete?)
    ensures Collapsed(c, p, From(w, n))
  {
    hide Stripe, From, ValidWorld, SingleDeleteSafe;
    forall j: nat | Under(c, p, j) && c.inp[j].IsPoint() && c.inp[j] in From(w, n) ensures p < n < j {
      InFrom(c, w, n, j);
    }
  }

  /** t is s with the underlying iterator moved on to what change describes. */
  ghost predicate Moved(c: Config, w: World, s: State, t: State) {
    && Base(c, w, s) && Base(c, w, t) && s.p < t.p
    && t == s.(p := t.p, change := t.change, curIdx := t.curIdx)
    && t.frag == Passed(w, t.p)
    && Landed(c, s.key.key, s.curIdx, t.p, t.change)
  }

  /** nextInStripe: moves on, past points of the stripe that a range tombstone
      of the stripe deletes. */
  method NextInStripe(c: Config, ghost w: World, s: State) returns (t: State)
    requires Base(c, w, s) && Saved(c, w, s)
    ensures Moved(c, w, s, t)
    ensures forall j | s.p < j < t.p :: c.inp[j].IsPoint() && c.inp[j].key == s.key.key && VisiblyCovered(w, c.inp[j])
                                       && Stripe(c.inp[j].sn, c.snaps) == s.curIdx
    ensures t.change == SameStripeSkippable ==> !VisiblyCovered(w, c.inp[t.p])
  {
    hide Fixed, ValidWorld, SingleDeleteSafe, Passed, Stripe, Covers, VisiblyCovered;
    var q := s.p;
    ghost var at :| SavedAt(c, s, at);
    Facts(c, w);
    Ascends(w);
    while true
      invariant s.p <= q < |c.inp| && c.inp[q].key == s.key.key && s.frag == Passed(w, q + 1)
      invariant forall j | s.p < j <= q :: c.inp[j].IsPoint() && c.inp[j].key == s.key.key && VisiblyCovered(w, c.inp[j])
                                          && Stripe(c.inp[j].sn, c.snaps) == s.curIdx
      decreases |c.inp| - q
    {
      q := q + 1;
      if q == |c.inp| {
        return s.(p := q, change := NewStripeNewKey);
      }
      InOrder(w, q - 1, q);
      InOrder(w, at, q);
      InOrder(w, s.p, q);
      var idx := Stripe(c.inp[q].sn, c.snaps);
      if c.inp[q].key != s.key.key {
        return s.(p := q, change := NewStripeNewKey, curIdx := idx);
      }
      // The source panics here when two points are out of order.
      assert !((s.keySn == 0 || s.keySn <= c.inp[q].sn) && !s.key.kind.RangeDelete? && !c.inp[q].kind.RangeDelete?);
      StripeMonotone(c.inp[q].sn, c.inp[s.p].sn, c.snaps);
      if idx != s.curIdx {
        return s.(p := q, change := NewStripeSameKey, curIdx := idx);
      }
      if c.inp[q].kind.RangeDelete? {
        return s.(p := q, change := SameStripeNonSkippable, curIdx := idx);
      }
      PassedTombstonesDecide(w, q);
      if !Covers(s.frag, c.inp[q].key, c.inp[q].sn, StripeBound(idx, c.snaps)) {
        return s.(p := q, change := SameStripeSkippable, curIdx := idx);
      }
      PassPoint(w, q);
    }
  }

  /** skipInStripe: moves past the points left in the stripe. */
  method SkipInStripe(c: Config, ghost w: World, s: State) returns (t: State)
    requires Base(c, w, s) && Saved(c, w, s)
    ensures Moved(c, w, s.(skip := t.skip), t) && AtCandidate(c, w, t)
    ensures forall j | s.p < j < t.p :: c.inp[j].IsPoint() && c.inp[j].key == s.key.key && Stripe(c.inp[j].sn, c.snaps) == s.curIdx
    ensures t.change != SameStripeSkippable && (t.skip <==> t.change == SameStripeNonSkippable)
  {
    hide Fixed, Passed, Stripe, VisiblyCovered;
    ghost var at :| SavedAt(c, s, at);
    t := s.(skip := true);
    assert SavedAt(c, t, at);
    t := NextInStripe(c, w, t);
    while t.change == SameStripeSkippable
      invariant Moved(c, w, s.(skip := true), t)
      invariant forall j | s.p < j < t.p :: c.inp[j].IsPoint() && c.inp[j].key == s.key.key && Stripe(c.inp[j].sn, c.snaps) == s.curIdx
      decreases |c.inp| - t.p
    {
      PassPoint(w, t.p);
      assert SavedAt(c, t, at);
      t := NextInStripe(c, w, t);
    }
    if t.change == NewStripeNewKey || t.change == NewStripeSameKey {
      t := t.(skip := false);
    }
  }

  /** setNext: hands out a SET, looking further down the stripe only to learn
      whether a deletion is under it. */
  method SetNext(c: Config, ghost w: World, s: State) returns (t: State)
    requires AtPoint(c, w, s) && c.inp[s.p].IsSet()
    ensures Emitted(c, w, t, s.p) && ZeroedSoundly(c, w, t) && !t.err && t.key.IsSet()
    ensures GoesOut(c, w, s.p, t.key) && Collapsed(c, s.p, Rest(c, w, t))
  {
    hide Fixed, ValidWorld, SingleDeleteSafe, Passed, Stripe, VisiblyCovered, StandsIn, From, DropStripe, NoPoints,
      Under, GoesPast, StopsAt, RunsOut, StripeEnds, GoesOut, Collapsed, Scanned, InHand;
    var p0 := s.p;
    ghost var e := c.inp[p0];
    Facts(c, w);
    t := MaybeZeroSeqnum(c, SaveKey(c, s), s.curIdx);
    PassPoint(w, p0);
    Start(w, p0);
    assert SavedAt(c, t, p0);
    if !c.setWithDelete || c.inp[p0].kind.SetWithDelete? {
      t := t.(skip := true);
      assert SavedAt(c, t, p0);
      EndSkipping(w, e, e, p0 + 1, p0);
      PlainGoesOut(c, w, p0, t.key);
      CollapsedBySkip(c, w, p0, p0 + 1);
      return;
    }
    ScanStarts(c, w, p0);
    while true
      invariant Base(c, w, t) && Saved(c, w, t) && SavedAt(c, t, p0)
      invariant Original(t) == e && t.curIdx == Stripe(e.sn, c.snaps) && t.pos == AtCurrent && !t.skip && !t.err
      invariant t.key.sn == NumberOf(c, p0) && Scanned(c, w, p0, t.p)
      invariant t.key.sn == t.keySn || (t.key.sn == 0 && c.allowZeroSeqNum && t.curIdx == 0)
      invariant StandsIn(w, e, From(w, t.p + 1), p0)
      decreases |c.inp| - t.p
    {
      ghost var q := t.p;
      t := NextInStripe(c, w, t);
      PassCovered(w, e, q, t.p, p0);
      ScanOn(c, w, p0, q, t.p, t.change);
      if t.change == NewStripeNewKey || t.change == NewStripeSameKey {
        t := t.(pos := AtNext);
        if Stripe(e.sn, c.snaps) == 0 { LastStripePassed(w, p0, t.p); }
        SetRunsOut(c, w, p0, t.key);
        CollapsedAtEnd(c, w, p0, t.p);
        return;
      }
      if t.change == SameStripeNonSkippable {
        t := t.(pos := AtNext, key := t.key.(kind := SetWithDelete), skip := true);
        EndSkipping(w, e, Original(t), t.p, p0);
        SetStops(c, w, p0, t.p, t.key);
        SkipsStripe(c, w, p0, t.p, t.p);
        return;
      }
      PassHidden(w, e, t.p, p0);
      PassPoint(w, t.p);
      assert SavedAt(c, t, p0);
      SetGoesPast(c, w, p0, t.p);
      if c.inp[t.p].IsTombstone() {
        t := t.(key := t.key.(kind := SetWithDelete), skip := true);
        assert SavedAt(c, t, p0);
        EndSkipping(w, e, Original(t), t.p + 1, p0);
        SetStops(c, w, p0, t.p, t.key);
        SkipsStripe(c, w, p0, t.p, t.p + 1);
        return;
      }
    }
  }

  lemma PlainGoesOut(c: Config, w: World, p: nat, o: Entry)
    requires p < |c.inp| && c.inp[p].IsSet() && (!c.setWithDelete || c.inp[p].kind.SetWithDelete?) && o == c.inp[p].(sn := NumberOf(c, p))
    ensures GoesOut(c, w, p, o)
  {
    hide StopsAt, Stripe;
  }

  lemma SetRunsOut(c: Config, w: World, p: nat, o: Entry)
    requires p < |c.inp| && c.inp[p].kind.Set? && RunsOut(c, w, p) && o == c.inp[p].(sn := NumberOf(c, p))
    ensures GoesOut(c, w, p, o)
  {
    hide StopsAt, RunsOut, Stripe;
    forall j: nat ensures !StopsAt(c, w, p, j) { NoStop(c, w, p, j); }
  }

  lemma SetStops(c: Config, w: World, p: nat, j: nat, o: Entry)
    requires p < |c.inp| && c.inp[p].kind.Set? && c.setWithDelete && StopsAt(c, w, p, j)
    requires o == c.inp[p].(kind := SetWithDelete, sn := NumberOf(c, p))
    ensures GoesOut(c, w, p, o)
  {
    hide StopsAt, Stripe;
  }

  lemma SetGoesPast(c: Config, w: World, p: nat, j: nat)
    requires p < j < |c.inp| && c.inp[p].kind.Set? && c.inp[j].IsPoint() && !VisiblyCovered(w, c.inp[j])
    ensures GoesPast(c, w, p, j) <==> !c.inp[j].IsTombstone()
  {
    hide VisiblyCovered;
  }

  /** With skip set, at an entry of the stripe. */
  lemma SkipsStripe(c: Config, w: World, p: nat, q: nat, n: nat)
    requires Fixed(c, w) && Under(c, p, q) && p < n <= |c.inp|
    ensures Collapsed(c, p, DropStripe(w, From(w, n), c.inp[q].key, Stripe(c.inp[q].sn, c.snaps)))
  {
    hide Stripe, DropStripe, From, Fixed, Collapsed;
    CollapsedBySkip(c, w, p, n);
  }

  /** mergeNext and the steps after it: merges the operands of the stripe, down
      to a SET or a deletion if there is one. */
  method MergeNext(c: Config, ghost w: World, s: State) returns (t: State)
    requires AtPoint(c, w, s) && c.inp[s.p].kind.Merge?
    ensures Emitted(c, w, t, s.p) && ZeroedSoundly(c, w, t) && !t.err
    ensures GoesOut(c, w, s.p, t.key) && Collapsed(c, s.p, Rest(c, w, t))
  {
    hide Fixed, ValidWorld, SingleDeleteSafe, Passed, Stripe, VisiblyCovered, StandsIn, From, DropStripe, NoPoints,
      Under, GoesPast, StopsAt, RunsOut, StripeEnds, GoesOut, Collapsed, Scanned, InHand;
    var p0, origIdx := s.p, s.curIdx;
    Facts(c, w);
    t := SaveKey(c, s);
    PassPoint(w, p0);
    Start(w, p0);
    assert SavedAt(c, t, p0);
    ScanStarts(c, w, p0);
    while true
      invariant Base(c, w, t) && Saved(c, w, t) && SavedAt(c, t, p0)
      invariant t.key.sn == t.keySn && t.key.kind.Merge? && Scanned(c, w, p0, t.p)
      invariant t.curIdx == origIdx == Stripe(t.key.sn, c.snaps) && t.pos == AtCurrent && !t.skip && !t.err
      invariant StandsIn(w, t.key, From(w, t.p + 1), p0)
      decreases |c.inp| - t.p
    {
      ghost var q := t.p;
      t := NextInStripe(c, w, t);
      PassCovered(w, t.key, q, t.p, p0);
      ScanOn(c, w, p0, q, t.p, t.change);
      if t.change != SameStripeSkippable {
        t := t.(pos := AtNext);
        if t.change != SameStripeNonSkippable {
          if origIdx == 0 { LastStripePassed(w, p0, t.p); }
          t := MaybeZeroSeqnum(c, t, origIdx);
          MergeRunsOut(c, w, p0, t.key);
          CollapsedAtEnd(c, w, p0, t.p);
        } else {
          MergeStops(c, w, p0, t.p, t.key);
          CollapsedAtSpan(c, w, p0, t.p);
        }
        return;
      }
      ghost var m := t.key;
      var x := c.inp[t.p];
      PassMerged(w, m, t.p, p0);
      PassPoint(w, t.p);
      SameKindGoesPast(c, w, p0, t.p);
      if x.IsTombstone() {
        t := t.(key := t.key.(kind := SetWithDelete), skip := true);
      } else if x.IsSet() {
        t := t.(key := t.key.(kind := Set, value := x.value + t.key.value), skip := true);
      } else {
        t := t.(key := t.key.(value := x.value + t.key.value));
      }
      assert SavedAt(c, t, p0);
      if t.skip {
        EndSkipping(w, t.key, t.key, t.p + 1, p0);
        t := MaybeZeroSeqnum(c, t, origIdx);
        assert SavedAt(c, t, p0);
        MergeStops(c, w, p0, t.p, t.key);
        SkipsStripe(c, w, p0, t.p, t.p + 1);
        return;
      }
    }
  }

  lemma MergeRunsOut(c: Config, w: World, p: nat, o: Entry)
    requires p < |c.inp| && c.inp[p].kind.Merge? && RunsOut(c, w, p) && o.key == c.inp[p].key && o.kind == Merge && o.sn == NumberOf(c, p)
    ensures GoesOut(c, w, p, o)
  {
    hide StopsAt, RunsOut, Stripe;
    forall j: nat ensures !StopsAt(c, w, p, j) { NoStop(c, w, p, j); }
  }

  lemma MergeStops(c: Config, w: World, p: nat, j: nat, o: Entry)
    requires p < |c.inp| && c.inp[p].kind.Merge? && StopsAt(c, w, p, j) && j < |c.inp| && o.key == c.inp[p].key
    requires o.kind == (if !c.inp[j].IsPoint() then Merge else if c.inp[j].IsTombstone() then SetWithDelete else Set)
    requires o.sn == if c.inp[j].IsPoint() then NumberOf(c, p) else c.inp[p].sn
    ensures GoesOut(c, w, p, o)
  {
    hide StopsAt, RunsOut, Stripe;
    forall i: nat | StopsAt(c, w, p, i) ensures i == j { OneStop(c, w, p, i, j); }
    if RunsOut(c, w, p) { NoStop(c, w, p, j); }
  }

  lemma SameKindGoesPast(c: Config, w: World, p: nat, j: nat)
    requires p < j < |c.inp| && c.inp[j].IsPoint() && !VisiblyCovered(w, c.inp[j])
    ensures c.inp[p].kind.Merge? ==> (GoesPast(c, w, p, j) <==> c.inp[j].kind.Merge?)
    ensures c.inp[p].kind.SingleDelete? ==> (GoesPast(c, w, p, j) <==> c.inp[j].kind.SingleDelete?)
  {
    hide VisiblyCovered;
  }

  /** Drops the SINGLEDEL found at p0 and the write at the current position. */
  method CancelWrite(c: Config, ghost w: World, s: State, ghost p0: nat) returns (t: State)
    requires Base(c, w, s) && Saved(c, w, s) && SavedAt(c, s, p0) && p0 < s.p && s.pos == AtCurrent && !s.skip && !s.err
    requires s.curIdx == Stripe(c.inp[p0].sn, c.snaps)
    requires c.inp[p0].kind.SingleDelete? && (c.inp[s.p].kind.Set? || c.inp[s.p].kind.Merge?)
    requires forall j | p0 < j < s.p :: c.inp[j].kind.SingleDelete? || VisiblyCovered(w, c.inp[j])
    requires !VisiblyCovered(w, c.inp[s.p]) && StandsIn(w, c.inp[p0], From(w, s.p), p0)
    ensures Consumed(c, w, t, p0) && Moved(c, w, s, t)
  {
    hide Fixed, ValidWorld, SingleDeleteSafe, Passed, Stripe, VisiblyCovered, StandsIn, ReadsLike, From, DropStripe;
    Facts(c, w);
    BelowTop(w, p0);
    BelowTop(w, s.p);
    CancelAt(w, p0, s.p);
    t := NextInStripe(c, w, s);
    PassCoveredAlone(w, s.p, t.p, p0);
  }

  /** Drops the tombstone found at p0 and what is left of its stripe, which is
      the last one, over nothing. */
  method ElideStripe(c: Config, ghost w: World, s: State, ghost p0: nat) returns (t: State)
    requires Base(c, w, s) && Saved(c, w, s) && SavedAt(c, s, p0) && s.pos == AtCurrent && !s.err
    requires s.curIdx == 0 == Stripe(c.inp[p0].sn, c.snaps) && c.inp[p0].IsTombstone() && NoPoints(w.low, c.inp[p0].key)
    requires StandsIn(w, c.inp[p0], From(w, s.p + 1), p0)
    ensures Consumed(c, w, t, p0) && t.change != NewStripeSameKey
    ensures t.skip || t.change == NewStripeNewKey
  {
    hide Fixed, ValidWorld, SingleDeleteSafe, Passed, Stripe, VisiblyCovered, StandsIn, ReadsLike, From, DropStripe, NoPoints;
    Facts(c, w);
    EndEliding(w, c.inp[p0], s.p + 1, p0);
    t := SkipInStripe(c, w, s);
    SkipPassed(w, c.inp[p0], s.p, t.p);
  }

  /** singleDeleteNext: hands out the SINGLEDEL (possibly as a DEL), or cancels
      it against the one write it meets. */
  method SingleDeleteNext(c: Config, ghost w: World, s: State) returns (t: State, handOut: bool)
    requires AtPoint(c, w, s) && c.inp[s.p].kind.SingleDelete?
    ensures handOut ==> Emitted(c, w, t, s.p) && t.key.sn == t.keySn && !t.err
    ensures handOut ==> GoesOut(c, w, s.p, t.key) && Collapsed(c, s.p, Rest(c, w, t))
    ensures !handOut ==> Consumed(c, w, t, s.p) && Cancelled(c, w, s.p)
  {
    hide Fixed, ValidWorld, SingleDeleteSafe, Passed, Stripe, VisiblyCovered, StandsIn, ReadsLike, From, DropStripe, Cancelled,
      Under, GoesPast, StopsAt, RunsOut, StripeEnds, GoesOut, Collapsed, Scanned, InHand;
    var p0 := s.p;
    ghost var e := c.inp[p0];
    Facts(c, w);
    t := SaveKey(c, s);
    PassPoint(w, p0);
    Start(w, p0);
    assert SavedAt(c, t, p0);
    ScanStarts(c, w, p0);
    while true
      invariant Base(c, w, t) && Saved(c, w, t) && SavedAt(c, t, p0) && Scanned(c, w, p0, t.p)
      invariant t.key == e && t.curIdx == Stripe(e.sn, c.snaps) && t.pos == AtCurrent && !t.skip && !t.err
      invariant forall j | p0 < j <= t.p :: c.inp[j].kind.SingleDelete? || VisiblyCovered(w, c.inp[j])
      invariant StandsIn(w, e, From(w, t.p + 1), p0)
      decreases |c.inp| - t.p
    {
      ghost var q := t.p;
      t := NextInStripe(c, w, t);
      PassCovered(w, e, q, t.p, p0);
      ScanOn(c, w, p0, q, t.p, t.change);
      if t.change != SameStripeSkippable {
        t := t.(pos := AtNext);
        if t.change == SameStripeNonSkippable {
          SingleDeleteStops(c, w, p0, t.p, t.key);
          CollapsedAtSpan(c, w, p0, t.p);
        } else {
          SingleDeleteRunsOut(c, w, p0, t.key);
          CollapsedAtEnd(c, w, p0, t.p);
        }
        return t, true;
      }
      PassPoint(w, t.p);
      assert SavedAt(c, t, p0);
      SameKindGoesPast(c, w, p0, t.p);
      var kind := c.inp[t.p].kind;
      if kind.Delete? || kind.SetWithDelete? || kind.DeleteSized? {
        PassHidden(w, e, t.p, p0);
        t := t.(key := t.key.(kind := Delete), skip := true);
        assert SavedAt(c, t, p0);
        EndSkipping(w, e, t.key, t.p + 1, p0);
        SingleDeleteStops(c, w, p0, t.p, t.key);
        SkipsStripe(c, w, p0, t.p, t.p + 1);
        return t, true;
      }
      if kind.Set? || kind.Merge? {
        CancelledAt(c, w, p0, t.p);
        t := CancelWrite(c, w, t, p0);
        return t, false;
      }
      PassHidden(w, e, t.p, p0);
    }
  }

  /** A SINGLEDEL comes to a write that it cancels. */
  ghost predicate Cancelled(c: Config, w: World, p: nat) {
    exists j: nat :: StopsAt(c, w, p, j) && CanBeCancelled(c.inp[j])
  }

  lemma CancelledAt(c: Config, w: World, p: nat, j: nat)
    requires p < j < |c.inp| && StopsAt(c, w, p, j) && CanBeCancelled(c.inp[j])
    ensures Cancelled(c, w, p)
  {
  }

  lemma SingleDeleteRunsOut(c: Config, w: World, p: nat, o: Entry)
    requires p < |c.inp| && c.inp[p].kind.SingleDelete? && RunsOut(c, w, p) && o == c.inp[p]
    ensures GoesOut(c, w, p, o)
  {
    hide StopsAt, RunsOut, Stripe;
    forall j: nat ensures !StopsAt(c, w, p, j) { NoStop(c, w, p, j); }
  }

  lemma SingleDeleteStops(c: Config, w: World, p: nat, j: nat, o: Entry)
    requires p < |c.inp| && c.inp[p].kind.SingleDelete? && StopsAt(c, w, p, j) && j < |c.inp| && !CanBeCancelled(c.inp[j])
    requires o == c.inp[p].(kind := if c.inp[j].IsPoint() then Delete else SingleDelete)
    ensures GoesOut(c, w, p, o)
  {
    hide StopsAt, RunsOut, Stripe;
    forall i: nat | StopsAt(c, w, p, i) ensures i == j { OneStop(c, w, p, i, j); }
    if RunsOut(c, w, p) { NoStop(c, w, p, j); }
  }

  /** skipDueToSingleDeleteElision: in the last stripe, over nothing, a SINGLEDEL
      goes together with what it deletes. */
  method SkipDueToSingleDeleteElision(c: Config, ghost w: World, s: State) returns (t: State)
    requires AtPoint(c, w, s) && c.inp[s.p].kind.SingleDelete? && s.curIdx == 0 && NoPoints(w.low, c.inp[s.p].key)
    ensures Consumed(c, w, t, s.p) && t.change != NewStripeSameKey
  {
    hide Fixed, ValidWorld, SingleDeleteSafe, Passed, Stripe, VisiblyCovered, StandsIn, ReadsLike, From, DropStripe, NoPoints;
    var p0 := s.p;
    ghost var e := c.inp[p0];
    Facts(c, w);
    t := SaveKey(c, s);
    PassPoint(w, p0);
    Start(w, p0);
    assert SavedAt(c, t, p0);
    while true
      invariant Base(c, w, t) && Saved(c, w, t) && SavedAt(c, t, p0)
      invariant t.key == e && t.curIdx == Stripe(e.sn, c.snaps) && t.pos == AtCurrent && !t.skip && !t.err
      invariant forall j | p0 < j <= t.p :: c.inp[j].kind.SingleDelete? || VisiblyCovered(w, c.inp[j])
      invariant StandsIn(w, e, From(w, t.p + 1), p0)
      decreases |c.inp| - t.p
    {
      ghost var q := t.p;
      t := NextInStripe(c, w, t);
      // The source panics on NewStripeSameKey.
      assert t.change != NewStripeSameKey;
      PassCovered(w, e, q, t.p, p0);
      if t.change == NewStripeNewKey {
        LastStripePassed(w, p0, t.p);
        EndEliding(w, e, t.p, p0);
        return;
      }
      if t.change == SameStripeNonSkippable {
        EndEliding(w, e, t.p, p0);
        t := t.(skip := true);
        return;
      }
      PassPoint(w, t.p);
      assert SavedAt(c, t, p0);
      var kind := c.inp[t.p].kind;
      if kind.Delete? || kind.DeleteSized? || kind.SetWithDelete? {
        PassHidden(w, e, t.p, p0);
        t := ElideStripe(c, w, t, p0);
        return;
      }
      if kind.Set? || kind.Merge? {
        t := CancelWrite(c, w, t, p0);
        // The source panics on NewStripeSameKey.
        assert t.change != NewStripeSameKey;
        return;
      }
      PassHidden(w, e, t.p, p0);
    }
  }

  /** Hands out the tombstone found at p0 after skipping the rest of its stripe. */
  method SkipAfterTombstone(c: Config, ghost w: World, s: State, ghost p0: nat) returns (t: State)
    requires Base(c, w, s) && Saved(c, w, s) && SavedAt(c, s, p0) && s.pos == AtNext && !s.err
    requires s.curIdx == Stripe(c.inp[p0].sn, c.snaps) && c.inp[p0].IsTombstone() && s.key.IsTombstone() && s.key.sn == s.keySn
    requires StandsIn(w, c.inp[p0], From(w, s.p + 1), p0)
    ensures Emitted(c, w, t, p0) && t.key == s.key && t.keySn == s.keySn && !t.err && Collapsed(c, p0, Rest(c, w, t))
  {
    hide Fixed, ValidWorld, SingleDeleteSafe, Passed, Stripe, VisiblyCovered, StandsIn, From, DropStripe, Collapsed;
    Facts(c, w);
    EndSkipping(w, c.inp[p0], s.key, s.p + 1, p0);
    t := SkipInStripe(c, w, s);
    SkipPassed(w, c.inp[p0], s.p, t.p);
    CollapsedBySkip(c, w, p0, t.p);
  }

  /** What a DELSIZED becomes when it meets an older entry of its stripe. */
  datatype Sizing = Sizing(key: Entry, missized: bool, stop: bool, bad: bool)

  function SizeUp(c: Config, key: Entry, x: Entry): (r: Sizing)
    ensures r.key == key.(kind := r.key.kind, value := r.key.value)
    ensures r.key.kind == if r.stop then Delete else key.kind
    ensures !r.stop ==> r.key.value == [] || (x.kind.DeleteSized? && r.key.value == x.value)
    ensures r.bad ==> |key.value| > 0 && Uvarint(key.value, 0, 0, 1).1 != |key.value|
  {
    if x.IsTombstone() then
      var stop := !x.kind.DeleteSized?;
      Sizing(key.(kind := if stop then Delete else key.kind, value := x.value), |key.value| > 0, stop, false)
    else if |key.value| == 0 then
      Sizing(key.(kind := Delete), false, true, false)
    else
      var (expected, n) := Uvarint(key.value, 0, 0, 1);
      var missized := c.keyLen(x.key) + |x.value| != expected;
      Sizing(key.(kind := if missized then Delete else key.kind, value := []), missized, missized, n != |key.value|)
  }

  /** A size is empty, or that of a DELSIZED passed so far. */
  ghost predicate SizeFrom(c: Config, p: nat, v: Value) {
    v == [] || exists i :: 0 <= i <= p && i < |c.inp| && c.inp[i].kind.DeleteSized? && c.inp[i].value == v
  }

  lemma SizeStarts(c: Config, p: nat)
    requires p < |c.inp| && c.inp[p].kind.DeleteSized?
    ensures SizeFrom(c, p, c.inp[p].value)
  {
  }

  lemma SizeStays(c: Config, p: nat, q: nat, v: Value)
    requires SizeFrom(c, p, v) && p <= q
    ensures SizeFrom(c, q, v)
  {
  }

  lemma SizedUp(c: Config, key: Entry, p: nat)
    requires p < |c.inp| && SizeFrom(c, p, key.value) && key.kind.DeleteSized?
    ensures SizeUp(c, key, c.inp[p]).bad ==> Malformed(c.inp)
    ensures !SizeUp(c, key, c.inp[p]).stop ==> SizeFrom(c, p, SizeUp(c, key, c.inp[p]).key.value)
  {
    hide Uvarint;
  }

  /** deleteSizedNext: hands out a DELSIZED, or a DEL in its place, after looking
      at what it deletes in the stripe. */
  method DeleteSizedNext(c: Config, ghost w: World, s: State) returns (t: State)
    requires AtPoint(c, w, s) && c.inp[s.p].kind.DeleteSized?
    ensures !t.err ==> Emitted(c, w, t, s.p) && t.key.sn == t.keySn && t.key.IsTombstone()
    ensures !t.err ==> GoesOut(c, w, s.p, t.key) && Collapsed(c, s.p, Rest(c, w, t))
    ensures t.err ==> Malformed(c.inp)
  {
    hide Fixed, ValidWorld, SingleDeleteSafe, Passed, Stripe, VisiblyCovered, StandsIn, From, DropStripe, Uvarint, SizeUp, SizeFrom, Malformed,
      Under, GoesPast, StopsAt, RunsOut, StripeEnds, GoesOut, Collapsed, Scanned, InHand;
    var p0 := s.p;
    ghost var e := c.inp[p0];
    Facts(c, w);
    t := SaveKey(c, s).(skip := true, pos := AtNext);
    PassPoint(w, p0);
    Start(w, p0);
    assert SavedAt(c, t, p0);
    assert SizeFrom(c, p0, t.key.value) by { SizeStarts(c, p0); }
    ScanStarts(c, w, p0);
    assert t.key.value == InHand(c, w, p0, p0 + 1) by { InHandStarts(c, w, p0); }
    while true
      invariant Base(c, w, t) && Saved(c, w, t) && SavedAt(c, t, p0)
      invariant t.key == e.(value := t.key.value) && t.curIdx == Stripe(e.sn, c.snaps)
      invariant t.pos == AtNext && t.skip && !t.err && Scanned(c, w, p0, t.p)
      invariant SizeFrom(c, t.p, t.key.value) && t.key.value == InHand(c, w, p0, t.p + 1)
      invariant StandsIn(w, e, From(w, t.p + 1), p0)
      decreases |c.inp| - t.p
    {
      ghost var q := t.p;
      t := NextInStripe(c, w, t);
      PassCovered(w, e, q, t.p, p0);
      SizeStays(c, q, t.p, t.key.value);
      ScanOn(c, w, p0, q, t.p, t.change);
      InHandStays(c, w, p0, q, t.p);
      if t.change == NewStripeNewKey || t.change == NewStripeSameKey {
        t := t.(skip := false);
        ReplaceHead(w, e, t.key, From(w, t.p), p0);
        SizedRunsOut(c, w, p0, t.p, t.key);
        CollapsedAtEnd(c, w, p0, t.p);
        return;
      }
      if t.change == SameStripeNonSkippable {
        EndSkipping(w, e, t.key, t.p, p0);
        SizedStops(c, w, p0, t.p, t.key);
        SkipsStripe(c, w, p0, t.p, t.p);
        return;
      }
      PassHidden(w, e, t.p, p0);
      PassPoint(w, t.p);
      SizedUp(c, t.key, t.p);
      SizedGoesPast(c, w, p0, t.p, t.key);
      var sizing := SizeUp(c, t.key, c.inp[t.p]);
      if sizing.bad {
        t := t.(err := true);
        return;
      }
      t := t.(key := sizing.key, missized := if sizing.missized then t.missized + 1 else t.missized);
      assert SavedAt(c, t, p0);
      if sizing.stop {
        SizedStops(c, w, p0, t.p, t.key);
        t := SkipAfterTombstone(c, w, t, p0);
        return;
      }
    }
  }

  lemma InHandStarts(c: Config, w: World, p: nat)
    requires p < |c.inp| && c.inp[p].kind.DeleteSized?
    ensures InHand(c, w, p, p + 1) == c.inp[p].value
  {
    hide VisiblyCovered;
  }

  lemma {:induction false} InHandStays(c: Config, w: World, p: nat, q: nat, n: nat)
    requires p <= q < n <= |c.inp| && forall j | q < j < n :: c.inp[j].IsPoint() && VisiblyCovered(w, c.inp[j])
    ensures InHand(c, w, p, n) == InHand(c, w, p, q + 1)
    decreases n
  {
    hide VisiblyCovered;
    if q + 1 < n { InHandStays(c, w, p, q, n - 1); }
  }

  /** What a DELSIZED makes of an entry, in terms of the input. */
  lemma SizedGoesPast(c: Config, w: World, p: nat, j: nat, key: Entry)
    requires p < j < |c.inp| && c.inp[p].kind.DeleteSized? && c.inp[j].IsPoint() && !VisiblyCovered(w, c.inp[j])
    requires key.kind.DeleteSized? && key.value == InHand(c, w, p, j)
    ensures var r := SizeUp(c, key, c.inp[j]);
            && (GoesPast(c, w, p, j) <==> !r.stop)
            && (!r.stop ==> r.key.value == InHand(c, w, p, j + 1))
            && (r.stop ==> r.key.value == if c.inp[j].IsTombstone() then c.inp[j].value else [])
  {
    hide VisiblyCovered, Uvarint;
  }

  lemma SizedRunsOut(c: Config, w: World, p: nat, n: nat, o: Entry)
    requires p < |c.inp| && c.inp[p].kind.DeleteSized? && RunsOut(c, w, p) && StripeEnds(c, p, n) && p < n <= |c.inp|
    requires o == c.inp[p].(value := InHand(c, w, p, n))
    ensures GoesOut(c, w, p, o)
  {
    hide StopsAt, RunsOut, Stripe, InHand, StripeEnds;
    forall j: nat ensures !StopsAt(c, w, p, j) { NoStop(c, w, p, j); }
    forall j: nat | StripeEnds(c, p, j) ensures j == n { OneEnd(c, p, j, n); }
  }

  lemma OneEnd(c: Config, p: nat, i: nat, j: nat)
    requires StripeEnds(c, p, i) && StripeEnds(c, p, j)
    ensures i == j
  {
    hide Stripe;
    assert (i < j ==> Under(c, p, i)) && (j < i ==> Under(c, p, j));
  }

  lemma SizedStops(c: Config, w: World, p: nat, j: nat, o: Entry)
    requires p < j < |c.inp| && c.inp[p].kind.DeleteSized? && StopsAt(c, w, p, j)
    requires var x := c.inp[j];
             o == c.inp[p].(kind := if x.IsPoint() then Delete else DeleteSized,
                            value := if !x.IsPoint() then InHand(c, w, p, j) else if x.IsTombstone() then x.value else [])
    ensures GoesOut(c, w, p, o)
  {
    hide StopsAt, RunsOut, Stripe, InHand, StripeEnds;
    forall i: nat | StopsAt(c, w, p, i) ensures i == j { OneStop(c, w, p, i, j); }
    if RunsOut(c, w, p) { NoStop(c, w, p, j); }
  }

  /** A DEL goes out as it is and hides the rest of its stripe. */
  method DeleteNext(c: Config, ghost w: World, s: State) returns (t: State)
    requires AtPoint(c, w, s) && c.inp[s.p].kind.Delete?
    ensures Emitted(c, w, t, s.p) && t.key == c.inp[s.p] && !t.err && Collapsed(c, s.p, Rest(c, w, t))
  {
    hide Fixed, ValidWorld, SingleDeleteSafe, Passed, Stripe, VisiblyCovered, StandsIn, From, DropStripe, Collapsed;
    Facts(c, w);
    CollapsedBySkip(c, w, s.p, s.p + 1);
    t := SaveKey(c, s).(skip := true);
    PassPoint(w, s.p);
    Start(w, s.p);
    assert SavedAt(c, t, s.p);
    EndSkipping(w, c.inp[s.p], t.key, s.p + 1, s.p);
  }

  /** A point deleted by a range tombstone goes with the rest of its stripe. */
  method SkipCovered(c: Config, ghost w: World, s: State) returns (t: State)
    requires Base(c, w, s) && AtCandidate(c, w, s) && s.pos == AtCurrent && !s.err
    requires s.p < |c.inp| && c.inp[s.p].IsPoint() && VisiblyCovered(w, c.inp[s.p])
    ensures Consumed(c, w, t, s.p)
  {
    hide Fixed, ValidWorld, SingleDeleteSafe, Passed, Stripe, VisiblyCovered, ReadsLike, From, DropStripe;
    Facts(c, w);
    t := SaveKey(c, s);
    PassPoint(w, s.p);
    assert SavedAt(c, t, s.p);
    t := SkipInStripe(c, w, t);
    EndCovered(w, s.p, t.p);
    SkipPassed(w, c.inp[s.p], s.p, t.p);
  }

  /** The body of Next for one point that no range tombstone of its stripe
      deletes; elide tells whether a tombstone here is over nothing. */
  method ProcessPoint(c: Config, ghost w: World, s: State, elide: bool) returns (t: State, handOut: bool)
    requires AtPoint(c, w, s)
    requires elide ==> c.inp[s.p].IsTombstone() && NoPoints(w.low, c.inp[s.p].key)
    ensures !t.err && handOut ==> Emitted(c, w, t, s.p) && ZeroedSoundly(c, w, t)
    ensures !t.err && handOut ==> GoesOut(c, w, s.p, t.key) && Collapsed(c, s.p, Rest(c, w, t)) && !(elide && s.curIdx == 0)
    ensures !t.err && !handOut ==> Consumed(c, w, t, s.p)
    ensures !t.err && !handOut ==> (elide && s.curIdx == 0) || (c.inp[s.p].kind.SingleDelete? && Cancelled(c, w, s.p))
    ensures t.err ==> Malformed(c.inp)
  {
    hide Fixed, ValidWorld, SingleDeleteSafe, Passed, Stripe, VisiblyCovered, StandsIn, ReadsLike, From, DropStripe, NoPoints, Cancelled,
      Under, GoesPast, StopsAt, RunsOut, StripeEnds, Collapsed, Scanned, InHand;
    handOut := true;
    match c.inp[s.p].kind
    case Set => t := SetNext(c, w, s);
    case SetWithDelete => t := SetNext(c, w, s);
    case Merge => t := MergeNext(c, w, s);
    case SingleDelete =>
      if elide && s.curIdx == 0 {
        t := SkipDueToSingleDeleteElision(c, w, s);
        handOut := false;
      } else {
        t, handOut := SingleDeleteNext(c, w, s);
      }
    case Delete =>
      if elide && s.curIdx == 0 {
        t := ElideTombstoneNext(c, w, s);
        handOut := false;
      } else {
        t := DeleteNext(c, w, s);
      }
    case DeleteSized =>
      if elide && s.curIdx == 0 {
        t := ElideTombstoneNext(c, w, s);
        handOut := false;
      } else {
        t := DeleteSizedNext(c, w, s);
      }
  }

  /** An elidable DEL or DELSIZED of the last stripe. */
  method ElideTombstoneNext(c: Config, ghost w: World, s: State) returns (t: State)
    requires AtPoint(c, w, s) && c.inp[s.p].IsTombstone() && s.curIdx == 0 && NoPoints(w.low, c.inp[s.p].key)
    ensures Consumed(c, w, t, s.p)
    ensures t.change != NewStripeSameKey && (t.skip || t.change == NewStripeNewKey)  // else the source panics
  {
    hide Fixed, ValidWorld, SingleDeleteSafe, Passed, Stripe, VisiblyCovered, StandsIn, ReadsLike, From, DropStripe, NoPoints;
    Facts(c, w);
    t := SaveKey(c, s);
    PassPoint(w, s.p);
    Start(w, s.p);
    assert SavedAt(c, t, s.p);
    t := ElideStripe(c, w, t, s.p);
  }

  // ---------------------------------------------------------------------
  // First and Next
  // ---------------------------------------------------------------------

  /** The position from which the rest is drawn. */
  function Horizon(s: State): nat {
    if s.pos == AtNext then s.p else s.p + 1
  }

  ghost predicate Within(a: seq<Entry>, b: seq<Entry>) {
    forall x | x in a :: x in b
  }

  lemma WithinFrom(c: Config, w: World, s: State, p0: nat)
    requires w.inp == c.inp && s.p <= |c.inp| && p0 <= s.p
    ensures Within(Rest(c, w, s), From(w, p0))
  {
    forall x | x in Rest(c, w, s) ensures x in From(w, p0) {
      if s.p < |c.inp| && s.skip {
        DropStripeKeeps(w, From(w, Horizon(s)), c.inp[s.p].key, Stripe(c.inp[s.p].sn, c.snaps), x);
      }
    }
  }

  lemma ReadsLikeTransitive(w: World, a: seq<Entry>, p0: nat, x: seq<Entry>)
    requires p0 <= |w.inp| && ReadsLike(w, a, p0) && SameReads(w, From(w, p0), x)
    ensures SameReads(w, a, x)
  {
    hide ReadOver, Open;
  }

  lemma StandsInTransitive(w: World, e: Entry, a: seq<Entry>, p0: nat, x: seq<Entry>)
    requires p0 <= |w.inp| && StandsIn(w, e, a, p0) && SameReads(w, From(w, p0), x)
    ensures SameReads(w, [e] + a, x)
  {
    hide ReadOver, Open;
  }

  lemma SpanHead(c: Config, w: World, s: State)
    requires w.inp == c.inp && s.p < |c.inp| && !c.inp[s.p].IsPoint() && w.snaps == c.snaps
    ensures Rest(c, w, s.(pos := AtNext)) == [c.inp[s.p]] + Rest(c, w, s.(pos := AtCurrent))
  {
    Suffix(w.inp, s.p);
  }

  /** The loop of Next is at a key not yet looked at, having so far lost nothing
      of rest, which began at before. */
  ghost predicate Looking(c: Config, w: World, t: State, before: nat, rest: seq<Entry>) {
    && Base(c, w, t) && AtCandidate(c, w, t) && t.pos == AtCurrent && !t.err && before <= t.p
    && Within(Rest(c, w, t.(pos := AtNext)), rest)
    && SameReads(w, Rest(c, w, t.(pos := AtNext)), rest)
  }

  /** What Next has done when it hands out entry o: it stems from the input entry
      at index at, and followed by the new rest it reads like the old one. It is what
      should go out for that entry, and nothing of the entry's stripe is left but for
      what comes after a range tombstone. A range tombstone goes out as it is, before
      the consumer has added it. */
  ghost predicate HandedOut(c: Config, w: World, t: State, o: Entry, at: nat, before: nat, rest: seq<Entry>) {
    && Base(c, w, t) && before <= at < Horizon(t) && at < |c.inp| && c.inp[at] in rest
    && o == t.key && t.key.key == c.inp[at].key && t.keySn == c.inp[at].sn
    && o.IsPoint() == c.inp[at].IsPoint() && !t.err
    && SameReads(w, [Original(t)] + Rest(c, w, t), rest) && Within(Rest(c, w, t), rest)
    && (o.IsPoint() ==> Ready(c, w, t) && ZeroedSoundly(c, w, t) && !VisiblyCovered(w, c.inp[at])
                        && GoesOut(c, w, at, o) && Collapsed(c, at, Rest(c, w, t)))
    && (!o.IsPoint() ==> at == t.p && o == c.inp[at] && t.pos == AtCurrent && t.frag == Passed(w, at))
  }

  /** The top of Next. */
  method Advance(c: Config, ghost w: World, s: State) returns (t: State)
    requires Ready(c, w, s) && !s.err
    ensures Looking(c, w, t, Horizon(s), Rest(c, w, s))
  {
    hide Fixed, ValidWorld, SingleDeleteSafe, Passed, Stripe, VisiblyCovered, From, DropStripe, ReadOver, Open;
    Facts(c, w);
    if s.pos == AtCurrent {
      if s.skip {
        t := SkipInStripe(c, w, s);
        SkipPassed(w, c.inp[s.p], s.p, t.p);
        assert Rest(c, w, t.(pos := AtNext)) == Rest(c, w, s);
      } else {
        t := NextInStripe(c, w, s);
        DropCoveredFrom(w, s.p + 1, t.p);
      }
    } else {
      // The source panics when skip is set and the iterator has moved on.
      assert s.skip ==> s.change == SameStripeNonSkippable;
      t := s.(pos := AtCurrent);
      assert t.(pos := AtNext) == s;
    }
  }

  lemma DropCoveredFrom(w: World, a: nat, b: nat)
    requires ValidWorld(w) && a <= b <= |w.inp|
    requires forall j | a <= j < b :: w.inp[j].IsPoint() && VisiblyCovered(w, w.inp[j])
    ensures SameReads(w, From(w, b), From(w, a)) && Within(From(w, b), From(w, a))
  {
    hide VisiblyCovered;
    DropCoveredRun(w, a, b);
    forall x | x in From(w, b) ensures x in From(w, a) {
      var i :| 0 <= i < |w.inp[b..]| && w.inp[b..][i] == x;
      assert w.inp[a..][i + b - a] == x;
    }
  }

  /** A span met by the loop of Next goes out as it is. */
  lemma HandOutSpan(c: Config, w: World, s: State, before: nat, rest: seq<Entry>)
    requires Looking(c, w, s, before, rest) && s.p < |c.inp| && !c.inp[s.p].IsPoint()
    ensures HandedOut(c, w, SaveKey(c, s), c.inp[s.p], s.p, before, rest)
  {
    hide Fixed, Stripe, Passed, ReadOver, Open, DropStripe, VisiblyCovered;
    SpanHead(c, w, s);
    assert c.inp[s.p] in Rest(c, w, s.(pos := AtNext));
    assert s.(pos := AtCurrent) == s;
    assert Rest(c, w, SaveKey(c, s)) == Rest(c, w, s);
  }

  lemma LookingFacts(c: Config, w: World, s: State, before: nat, rest: seq<Entry>)
    requires Looking(c, w, s, before, rest)
    ensures Base(c, w, s) && AtCandidate(c, w, s) && s.pos == AtCurrent && !s.err && before <= s.p
  {
  }

  lemma ReadyFacts(c: Config, w: World, s: State)
    requires Ready(c, w, s)
    ensures Base(c, w, s)
  {
  }

  lemma EmittedFacts(c: Config, w: World, s: State, p0: nat)
    requires Emitted(c, w, s, p0)
    ensures Base(c, w, s) && p0 <= s.p && p0 < |c.inp|
  {
  }

  lemma ConsumedFacts(c: Config, w: World, s: State, p0: nat)
    requires Consumed(c, w, s, p0)
    ensures Base(c, w, s) && p0 < s.p && !s.err
  {
  }

  lemma DoneLooking(c: Config, w: World, s: State, before: nat, rest: seq<Entry>)
    requires Looking(c, w, s, before, rest) && s.p == |c.inp|
    ensures SameReads(w, [], rest)
  {
    hide Fixed, ReadOver, Open;
    assert Rest(c, w, s.(pos := AtNext)) == [];
  }

  lemma KeysAscend(w: World, p: nat, q: nat)
    requires ValidWorld(w) && p <= q < |w.inp|
    ensures w.inp[p].key <= w.inp[q].key
  {
    if p < q { InOrder(w, p, q); }
  }

  lemma NoLowPoints(w: World, inuse: seq<KeyRange>, lo: Key, hi: Key, p: nat)
    requires Bounded(w, inuse, lo, hi) && p < |w.inp| && !InUse(inuse, w.inp[p].key)
    ensures NoPoints(w.low, w.inp[p].key)
  {
  }

  lemma StillLooking(c: Config, w: World, s: State, t: State, before: nat, rest: seq<Entry>)
    requires Looking(c, w, s, before, rest) && s.p < |c.inp| && !s.skip && Consumed(c, w, t, s.p)
    ensures Looking(c, w, t, before, rest)
  {
    hide Fixed, Stripe, Passed, DropStripe, SameReads;
    WithinFrom(c, w, t.(pos := AtNext), s.p);
    ReadsLikeTransitive(w, Rest(c, w, t.(pos := AtNext)), s.p, rest);
  }

  lemma HandOutPoint(c: Config, w: World, s: State, t: State, before: nat, rest: seq<Entry>)
    requires Looking(c, w, s, before, rest) && AtPoint(c, w, s)
    requires Emitted(c, w, t, s.p) && ZeroedSoundly(c, w, t) && !t.err && GoesOut(c, w, s.p, t.key) && Collapsed(c, s.p, Rest(c, w, t))
    ensures HandedOut(c, w, t, t.key, s.p, before, rest)
  {
    hide Fixed, Stripe, Passed, DropStripe, SameReads, VisiblyCovered, NoPoints, StandsIn, GoesOut, Collapsed;
    StandsInTransitive(w, Original(t), Rest(c, w, t), s.p, rest);
    WithinFrom(c, w, t, s.p);
    assert c.inp[s.p] == From(w, s.p)[0];
  }

  class CompactionIter {
    const c: Config
    const elision: Elision
    ghost const w: World
    var st: State

    /** Tombstone elision is asked about keys in ascending order. */
    ghost predicate ElisionReadyAt(p: nat)
      reads elision
    {
      && elision.Valid() && Bounded(w, elision.inuse, elision.smallest, elision.largest)
      && (elision.last.Some? && p < |c.inp| ==> elision.last.value <= c.inp[p].key)
    }

    ghost predicate Valid()
      reads this, elision
    {
      Ready(c, w, st) && ElisionReadyAt(st.p)
    }

    /** The entry at p is not a tombstone of the last stripe over nothing. */
    predicate Stays(p: nat)
      requires p < |c.inp|
      reads elision
    {
      c.inp[p].IsTombstone() && Stripe(c.inp[p].sn, c.snaps) == 0 ==>
        elision.entireRange || elision.flushing || InUse(elision.inuse, c.inp[p].key)
    }

    ghost function Remaining(): seq<Entry>
      requires w.inp == c.inp && st.p <= |c.inp|
      reads this
    {
      Rest(c, w, st)
    }

    /** Creation, and the positioning that First does. */
    constructor (c: Config, elision: Elision, ghost w: World)
      requires Fixed(c, w)
      requires elision.Valid() && elision.last == None
      requires Bounded(w, elision.inuse, elision.smallest, elision.largest)
      ensures Valid() && !st.err && st.pos == AtNext && st.p == 0 && Remaining() == c.inp
      ensures this.c == c && this.w == w && this.elision == elision
    {
      this.c, this.elision, this.w := c, elision, w;
      st := State(0, Entry(0.0, 0, Set, []), 0, false, AtNext, NewStripeNewKey,
                  if c.inp == [] then 0 else Stripe(c.inp[0].sn, c.snaps), {}, false, 0);
    }

    method Next() returns (o: Option<Entry>, ghost at: nat)
      requires Valid() && !st.err
      modifies this, elision
      ensures !st.err ==> ElisionReadyAt(st.p)
      ensures !st.err && o.Some? ==> HandedOut(c, w, st, o.value, at, old(Horizon(st)), old(Remaining()))
      ensures !st.err && o.Some? ==> at < |c.inp| && Stays(at)
      ensures !st.err && o.None? ==> st.p == |c.inp| && SameReads(w, [], old(Remaining()))
      ensures st.err ==> Malformed(c.inp)
    {
      hide Fixed, ValidWorld, SingleDeleteSafe, Passed, Stripe, VisiblyCovered, Looking, HandedOut, SameReads,
        Bounded, Covers, NoPoints, Emitted, Consumed, ZeroedSoundly, Rest, Ready;
      ReadyFacts(c, w, st);
      Facts(c, w);
      ghost var rest := Remaining();
      ghost var before := Horizon(st);
      at := 0;
      o := None;
      var s := Advance(c, w, st);
      LookingFacts(c, w, s, before, rest);
      if s.p < |c.inp| { KeysAscend(w, st.p, s.p); }
      while s.p < |c.inp|
        invariant Looking(c, w, s, before, rest) && s.p <= |c.inp| && !s.err
        invariant ElisionReadyAt(s.p)
        decreases |c.inp| - s.p
      {
        LookingFacts(c, w, s, before, rest);
        if c.inp[s.p].kind.RangeDelete? {
          HandOutSpan(c, w, s, before, rest);
          st := SaveKey(c, s);
          return Some(st.key), s.p;
        }
        var t, handOut := LookAt(s, before, rest);
        if t.err {
          st := t;
          return None, 0;
        }
        if handOut {
          st := t;
          return Some(st.key), s.p;
        }
        s := t;
      }
      DoneLooking(c, w, s, before, rest);
      st := s;
    }

    /** The loop body of Next at a point. */
    method LookAt(s: State, ghost before: nat, ghost rest: seq<Entry>) returns (t: State, handOut: bool)
      requires Looking(c, w, s, before, rest) && s.p < |c.inp| && c.inp[s.p].IsPoint() && ElisionReadyAt(s.p)
      modifies elision
      ensures !t.err && handOut ==> HandedOut(c, w, t, t.key, s.p, before, rest) && ElisionReadyAt(t.p) && Stays(s.p)
      ensures !t.err && !handOut ==> Looking(c, w, t, before, rest) && s.p < t.p <= |c.inp| && ElisionReadyAt(t.p)
      ensures t.err ==> Malformed(c.inp)
    {
      hide Fixed, ValidWorld, SingleDeleteSafe, Passed, Stripe, VisiblyCovered, Looking, HandedOut, SameReads,
        Bounded, Covers, NoPoints, Emitted, Consumed, ZeroedSoundly, SortedRanges, GoesOut, Collapsed, Cancelled;
      LookingFacts(c, w, s, before, rest);
      Facts(c, w);
      PassedTombstonesDecide(w, s.p);
      if Covers(s.frag, c.inp[s.p].key, c.inp[s.p].sn, StripeBound(s.curIdx, c.snaps)) {
        t := SkipCovered(c, w, s);
        ConsumedFacts(c, w, t, s.p);
        handOut := false;
      } else {
        var elide := false;
        if c.inp[s.p].IsTombstone() {
          elide := elision.ElideTombstone(c.inp[s.p].key);
          if elide { NoLowPoints(w, elision.inuse, elision.smallest, elision.largest, s.p); }
        }
        t, handOut := ProcessPoint(c, w, s, elide);
      }
      if t.err {
        return;
      }
      if handOut {
        EmittedFacts(c, w, t, s.p);
        HandOutPoint(c, w, s, t, before, rest);
      } else {
        ConsumedFacts(c, w, t, s.p);
        StillLooking(c, w, s, t, before, rest);
      }
      if t.p < |c.inp| { KeysAscend(w, s.p, t.p); }
    }
  }
}
