/**
A whole compaction: the loop that drains the compaction iterator, the range
tombstones it writes out, and the theorem that nothing a reader can see
changes (compaction_iter.go, compaction.go).
*/
module Compaction {
  import opened Options
  import opened Lsm
  import opened History
  import opened InUseRanges
  import opened CompactionIteration

  // ---------------------------------------------------------------------
  // Range tombstones of the output
  // ---------------------------------------------------------------------

  ghost function SpanSet(fs: seq<Fragment>): set<Tombstone> {
    set i, j | 0 <= i < |fs| && 0 <= j < |fs[i].seqs| :: Tombstone(fs[i].start, fs[i].end, fs[i].seqs[j])
  }

  /** What the span fragmenter promises: fragments that carry over each key
      exactly the tombstones added over it. */
  ghost predicate FragmentsOf(ts: set<Tombstone>, fs: seq<Fragment>) {
    && (forall i | 0 <= i < |fs| :: fs[i].start < fs[i].end && fs[i].seqs != [] && Descending(fs[i].seqs))
    && (forall k: Key, sn: nat :: OverKey(ts, k, sn) <==> FragmentOver(fs, k, sn))
  }

  /** A tombstone at least as new as x is kept in x's stripe. */
  ghost predicate Represented(keys: seq<nat>, x: nat, snaps: seq<nat>) {
    exists y :: y in keys && x <= y && Stripe(y, snaps) == Stripe(x, snaps)
  }

  lemma RepresentedAppend(keys: seq<nat>, k: nat, snaps: seq<nat>)
    ensures Represented(keys + [k], k, snaps)
    ensures forall x: nat | Represented(keys, x, snaps) :: Represented(keys + [k], x, snaps)
  {
    hide Stripe;
    assert k in keys + [k];
    forall x: nat | Represented(keys, x, snaps) ensures Represented(keys + [k], x, snaps) {
      var y :| y in keys && x <= y && Stripe(y, snaps) == Stripe(x, snaps);
      assert y in keys + [k];
    }
  }

  lemma RepresentedOlder(keys: seq<nat>, a: nat, b: nat, snaps: seq<nat>)
    requires Represented(keys, a, snaps) && b <= a && Stripe(b, snaps) == Stripe(a, snaps)
    ensures Represented(keys, b, snaps)
  {
    hide Stripe;
    var y :| y in keys && a <= y && Stripe(y, snaps) == Stripe(a, snaps);
    assert y in keys && b <= y;
  }

  /** No two of the kept tombstones share a stripe. */
  ghost predicate OnePerStripe(keys: seq<nat>, snaps: seq<nat>) {
    forall i, j | 0 <= i < j < |keys| :: Stripe(keys[j], snaps) < Stripe(keys[i], snaps)
  }

  lemma NoStripes(snaps: seq<nat>)
    ensures OnePerStripe([], snaps)
  {
  }

  lemma NextStripe(keys: seq<nat>, k: nat, snaps: seq<nat>)
    requires OnePerStripe(keys, snaps) && (keys != [] ==> Stripe(k, snaps) < Stripe(keys[|keys| - 1], snaps))
    ensures OnePerStripe(keys + [k], snaps)
  {
    hide Stripe;
    var s := keys + [k];
    forall i, j | 0 <= i < j < |s| ensures Stripe(s[j], snaps) < Stripe(s[i], snaps) {
      if j == |keys| && i < |keys| - 1 { assert Stripe(keys[|keys| - 1], snaps) < Stripe(keys[i], snaps); }
    }
  }

  /** emitRangeDelChunk: keeps the newest tombstone of each stripe, and none of
      the last stripe when it may be elided. */
  method EmitRangeDelChunk(f: Fragment, snaps: seq<nat>, elide: bool) returns (keys: seq<nat>)
    requires Ascending(snaps) && Descending(f.seqs)
    ensures forall y | y in keys :: y in f.seqs && (elide ==> Stripe(y, snaps) > 0)
    ensures forall x | x in f.seqs :: (elide && Stripe(x, snaps) == 0) || Represented(keys, x, snaps)
    ensures OnePerStripe(keys, snaps)
  {
    hide Stripe, Represented, Descending, OnePerStripe;
    keys := [];
    NoStripes(snaps);
    var current: int := -1;
    var i := 0;
    while i < |f.seqs|
      invariant 0 <= i <= |f.seqs|
      invariant forall y | y in keys :: y in f.seqs && Stripe(y, snaps) > 0
      invariant keys == [] <==> i == 0
      invariant i == 0 ==> current == -1
      invariant keys != [] ==> current == Stripe(keys[|keys| - 1], snaps)
      invariant i > 0 ==> current == Stripe(f.seqs[i - 1], snaps)
      invariant OnePerStripe(keys, snaps)
      invariant forall j | 0 <= j < i :: Represented(keys, f.seqs[j], snaps)
    {
      var k := f.seqs[i];
      var idx := Stripe(k, snaps);
      if i > 0 { Descends(f.seqs, i - 1, i); }
      if current == idx {
        RepresentedOlder(keys, f.seqs[i - 1], k, snaps);
        i := i + 1;
        continue;
      }
      if i > 0 { StripeMonotone(k, f.seqs[i - 1], snaps); }
      if idx == 0 && elide {
        LastStripeTail(f.seqs, i, snaps);
        break;
      }
      RepresentedAppend(keys, k, snaps);
      NextStripe(keys, k, snaps);
      keys := keys + [k];
      if idx == 0 {
        LastStripeTail(f.seqs, i, snaps);
        forall j | i <= j < |f.seqs| ensures Represented(keys, f.seqs[j], snaps) {
          if i < j { Descends(f.seqs, i, j); RepresentedOlder(keys, k, f.seqs[j], snaps); }
        }
        break;
      }
      current := idx;
      i := i + 1;
    }
  }

  lemma Descends(s: seq<nat>, i: nat, j: nat)
    requires Descending(s) && i < j < |s|
    ensures s[j] <= s[i]
  {
  }

  lemma LastStripeTail(s: seq<nat>, i: nat, snaps: seq<nat>)
    requires Ascending(snaps) && Descending(s) && i < |s| && Stripe(s[i], snaps) == 0
    ensures forall j | i <= j < |s| :: Stripe(s[j], snaps) == 0
  {
    forall j | i <= j < |s| ensures Stripe(s[j], snaps) == 0 {
      StripeMonotone(s[j], s[i], snaps);
    }
  }

  // ---------------------------------------------------------------------
  // All fragments
  // ---------------------------------------------------------------------

  /** Some fragment over k may be elided. */
  ghost predicate ElidedAt(fs: seq<Fragment>, elision: Elision, k: Key) {
    exists i :: 0 <= i < |fs| && fs[i].start <= k < fs[i].end && elision.ElideRangeTombstone(fs[i].start, fs[i].end)
  }

  /** Over k, a tombstone as new as x and of x's stripe is written. */
  ghost predicate RepresentedAt(fs: seq<Fragment>, k: Key, x: nat, snaps: seq<nat>) {
    exists y: nat :: x <= y && Stripe(y, snaps) == Stripe(x, snaps) && FragmentOver(fs, k, y)
  }

  /** spans is what the stripe rules make of fragments fs. */
  ghost predicate Thinned(fs: seq<Fragment>, spans: seq<Fragment>, snaps: seq<nat>, elision: Elision) {
    && (forall k: Key, y: nat | FragmentOver(spans, k, y) ::
          FragmentOver(fs, k, y) && (Stripe(y, snaps) == 0 ==> !AllElidable(fs, elision)))
    && (forall k: Key, x: nat | FragmentOver(fs, k, x) ::
          RepresentedAt(spans, k, x, snaps) || (Stripe(x, snaps) == 0 && ElidedAt(fs, elision, k)))
  }

  ghost predicate AllElidable(fs: seq<Fragment>, elision: Elision) {
    forall i | 0 <= i < |fs| :: elision.ElideRangeTombstone(fs[i].start, fs[i].end)
  }

  lemma FragmentOverAppend(fs: seq<Fragment>, f: Fragment, k: Key, x: nat)
    ensures FragmentOver(fs + [f], k, x) <==> FragmentOver(fs, k, x) || (f.start <= k < f.end && x in f.seqs)
  {
    var gs := fs + [f];
    if FragmentOver(fs, k, x) {
      var i :| 0 <= i < |fs| && fs[i].start <= k < fs[i].end && x in fs[i].seqs;
      assert gs[i] == fs[i];
    }
    if f.start <= k < f.end && x in f.seqs { assert gs[|fs|] == f; }
  }

  /** keys is what the stripe rules make of one fragment. */
  ghost predicate ThinnedOne(f: Fragment, keys: seq<nat>, snaps: seq<nat>, elide: bool) {
    && (forall y | y in keys :: y in f.seqs && (elide ==> Stripe(y, snaps) > 0))
    && (forall x | x in f.seqs :: (elide && Stripe(x, snaps) == 0) || Represented(keys, x, snaps))
  }

  function AddSpan(spans: seq<Fragment>, f: Fragment, keys: seq<nat>): seq<Fragment> {
    if keys == [] then spans else spans + [Fragment(f.start, f.end, keys)]
  }

  lemma ThinnedStep(fs: seq<Fragment>, f: Fragment, spans: seq<Fragment>, keys: seq<nat>, snaps: seq<nat>, elision: Elision)
    requires Thinned(fs, spans, snaps, elision)
    requires ThinnedOne(f, keys, snaps, elision.ElideRangeTombstone(f.start, f.end))
    ensures Thinned(fs + [f], AddSpan(spans, f, keys), snaps, elision)
  {
    hide Stripe, FragmentOver, AllElidable, ElidedAt, RepresentedAt, AddSpan;
    forall k: Key, y: nat | FragmentOver(AddSpan(spans, f, keys), k, y)
      ensures FragmentOver(fs + [f], k, y) && (Stripe(y, snaps) == 0 ==> !AllElidable(fs + [f], elision))
    {
      ThinnedOut(fs, f, spans, keys, snaps, elision, k, y);
    }
    forall k: Key, x: nat | FragmentOver(fs + [f], k, x)
      ensures RepresentedAt(AddSpan(spans, f, keys), k, x, snaps) || (Stripe(x, snaps) == 0 && ElidedAt(fs + [f], elision, k))
    {
      ThinnedIn(fs, f, spans, keys, snaps, elision, k, x);
    }
  }

  lemma ThinnedOut(fs: seq<Fragment>, f: Fragment, spans: seq<Fragment>, keys: seq<nat>, snaps: seq<nat>, elision: Elision,
                   k: Key, y: nat)
    requires Thinned(fs, spans, snaps, elision)
    requires ThinnedOne(f, keys, snaps, elision.ElideRangeTombstone(f.start, f.end))
    requires FragmentOver(AddSpan(spans, f, keys), k, y)
    ensures FragmentOver(fs + [f], k, y) && (Stripe(y, snaps) == 0 ==> !AllElidable(fs + [f], elision))
  {
    hide Stripe, FragmentOver, NoneMeets, Represented, RepresentedAt, ElidedAt;
    assert (fs + [f])[|fs|] == f && forall i | 0 <= i < |fs| :: (fs + [f])[i] == fs[i];
    FragmentOverAppend(spans, Fragment(f.start, f.end, keys), k, y);
    FragmentOverAppend(fs, f, k, y);
  }

  lemma ThinnedIn(fs: seq<Fragment>, f: Fragment, spans: seq<Fragment>, keys: seq<nat>, snaps: seq<nat>, elision: Elision,
                  k: Key, x: nat)
    requires Thinned(fs, spans, snaps, elision)
    requires ThinnedOne(f, keys, snaps, elision.ElideRangeTombstone(f.start, f.end))
    requires FragmentOver(fs + [f], k, x)
    ensures RepresentedAt(AddSpan(spans, f, keys), k, x, snaps) || (Stripe(x, snaps) == 0 && ElidedAt(fs + [f], elision, k))
  {
    hide Thinned, RepresentedAt, Stripe, FragmentOver, NoneMeets, Represented;
    FragmentOverAppend(fs, f, k, x);
    if f.start <= k < f.end && x in f.seqs {
      assert (fs + [f])[|fs|] == f;
      if Represented(keys, x, snaps) { RepresentedHere(f, spans, keys, snaps, k, x); }
    } else {
      ThinnedAt(fs, spans, snaps, elision, k, x);
      if RepresentedAt(spans, k, x, snaps) {
        RepresentedStill(f, spans, keys, snaps, k, x);
      } else {
        var i :| 0 <= i < |fs| && fs[i].start <= k < fs[i].end && elision.ElideRangeTombstone(fs[i].start, fs[i].end);
        assert (fs + [f])[i] == fs[i];
      }
    }
  }

  lemma ThinnedAt(fs: seq<Fragment>, spans: seq<Fragment>, snaps: seq<nat>, elision: Elision, k: Key, x: nat)
    requires Thinned(fs, spans, snaps, elision) && FragmentOver(fs, k, x)
    ensures RepresentedAt(spans, k, x, snaps) || (Stripe(x, snaps) == 0 && ElidedAt(fs, elision, k))
  {
    hide RepresentedAt, ElidedAt, FragmentOver, Stripe;
  }

  lemma RepresentedHere(f: Fragment, spans: seq<Fragment>, keys: seq<nat>, snaps: seq<nat>, k: Key, x: nat)
    requires f.start <= k < f.end && Represented(keys, x, snaps)
    ensures RepresentedAt(AddSpan(spans, f, keys), k, x, snaps)
  {
    hide FragmentOver, Stripe;
    var y :| y in keys && x <= y && Stripe(y, snaps) == Stripe(x, snaps);
    FragmentOverAppend(spans, Fragment(f.start, f.end, keys), k, y);
  }

  lemma RepresentedStill(f: Fragment, spans: seq<Fragment>, keys: seq<nat>, snaps: seq<nat>, k: Key, x: nat)
    requires RepresentedAt(spans, k, x, snaps)
    ensures RepresentedAt(AddSpan(spans, f, keys), k, x, snaps)
  {
    hide FragmentOver, Stripe;
    var y: nat :| x <= y && Stripe(y, snaps) == Stripe(x, snaps) && FragmentOver(spans, k, y);
    FragmentOverAppend(spans, Fragment(f.start, f.end, keys), k, y);
  }

  /** All fragments go through emitRangeDelChunk. */
  method EmitSpans(fs: seq<Fragment>, snaps: seq<nat>, elision: Elision) returns (spans: seq<Fragment>)
    requires Ascending(snaps) && forall i | 0 <= i < |fs| :: Descending(fs[i].seqs)
    ensures Thinned(fs, spans, snaps, elision)
    ensures Searchable(fs, elision.inuse) ==>
              SpansShaped(fs, spans, snaps, elision.inuse, elision.flushing || elision.disableSpanElision)
  {
    hide Thinned, Stripe, Represented, Descending, OnePerStripe, SpansShaped, Searchable;
    spans := [];
    NoSpans(fs, snaps, elision.inuse, elision.flushing || elision.disableSpanElision);
    ThinnedNothing(snaps, elision);
    assert fs[..0] == [];
    for i := 0 to |fs|
      invariant Thinned(fs[..i], spans, snaps, elision)
      invariant Searchable(fs, elision.inuse) ==>
                  SpansShaped(fs, spans, snaps, elision.inuse, elision.flushing || elision.disableSpanElision)
    {
      var f := fs[i];
      var keys := EmitRangeDelChunk(f, snaps, elision.ElideRangeTombstone(f.start, f.end));
      if Searchable(fs, elision.inuse) { MoreSpans(fs, f, spans, keys, snaps, elision); }
      ThinnedStep(fs[..i], f, spans, keys, snaps, elision);
      assert fs[..i + 1] == fs[..i] + [f];
      if |keys| > 0 {
        spans := spans + [Fragment(f.start, f.end, keys)];
      }
    }
    assert fs[..|fs|] == fs;
  }

  /** A tombstone over [start, end) of the last stripe may have something to delete. */
  ghost predicate MayMatter(inuse: seq<KeyRange>, keep: bool, start: Key, end: Key) {
    keep || exists k: Key :: start <= k <= end && InUse(inuse, k)
  }

  /** What is written for a fragment: some of its tombstones, no two of one stripe, and
      of the last stripe only where something may lie below. */
  ghost predicate SpanOf(f: Fragment, span: Fragment, snaps: seq<nat>, inuse: seq<KeyRange>, keep: bool) {
    && span.start == f.start && span.end == f.end && span.seqs != [] && OnePerStripe(span.seqs, snaps)
    && forall y | y in span.seqs :: y in f.seqs && (Stripe(y, snaps) == 0 ==> MayMatter(inuse, keep, f.start, f.end))
  }

  /** Ranges in order, and no fragment that ends before it starts. */
  ghost predicate Searchable(fs: seq<Fragment>, inuse: seq<KeyRange>) {
    SortedRanges(inuse) && forall i | 0 <= i < |fs| :: fs[i].start <= fs[i].end
  }

  ghost predicate SpansShaped(fs: seq<Fragment>, spans: seq<Fragment>, snaps: seq<nat>, inuse: seq<KeyRange>, keep: bool) {
    forall span | span in spans :: exists f :: f in fs && SpanOf(f, span, snaps, inuse, keep)
  }

  lemma NoSpans(fs: seq<Fragment>, snaps: seq<nat>, inuse: seq<KeyRange>, keep: bool)
    ensures SpansShaped(fs, [], snaps, inuse, keep)
  {
  }

  lemma MoreSpans(fs: seq<Fragment>, f: Fragment, spans: seq<Fragment>, keys: seq<nat>, snaps: seq<nat>, elision: Elision)
    requires Searchable(fs, elision.inuse) && f in fs && OnePerStripe(keys, snaps)
    requires ThinnedOne(f, keys, snaps, elision.ElideRangeTombstone(f.start, f.end))
    requires SpansShaped(fs, spans, snaps, elision.inuse, elision.flushing || elision.disableSpanElision)
    ensures SpansShaped(fs, AddSpan(spans, f, keys), snaps, elision.inuse, elision.flushing || elision.disableSpanElision)
  {
    hide OnePerStripe, Stripe, Represented, SortedRanges, NoneMeets;
    elision.RangeElisionIsExact(f.start, f.end);
    var keep := elision.flushing || elision.disableSpanElision;
    assert elision.ElideRangeTombstone(f.start, f.end) || MayMatter(elision.inuse, keep, f.start, f.end);
    assert keys != [] ==> SpanOf(f, Fragment(f.start, f.end, keys), snaps, elision.inuse, keep);
  }

  lemma ThinnedNothing(snaps: seq<nat>, elision: Elision)
    ensures Thinned([], [], snaps, elision)
  {
  }

  // ---------------------------------------------------------------------
  // Coverage before and after
  // ---------------------------------------------------------------------

  lemma SpanSetOver(fs: seq<Fragment>, k: Key, x: nat)
    ensures OverKey(SpanSet(fs), k, x) <==> FragmentOver(fs, k, x)
  {
    if FragmentOver(fs, k, x) {
      var i :| 0 <= i < |fs| && fs[i].start <= k < fs[i].end && x in fs[i].seqs;
      var j :| 0 <= j < |fs[i].seqs| && fs[i].seqs[j] == x;
      assert Tombstone(fs[i].start, fs[i].end, fs[i].seqs[j]) in SpanSet(fs);
    }
  }

  lemma CoversUnion(a: set<Tombstone>, b: set<Tombstone>, k: Key, sn: nat, s: nat)
    ensures Covers(a + b, k, sn, s) <==> Covers(a, k, sn, s) || Covers(b, k, sn, s)
  {
  }

  /** The setting of the theorem: fragments of the input's tombstones, and what
      was written for them. */
  ghost predicate Emission(w: World, fs: seq<Fragment>, spans: seq<Fragment>, elision: Elision) {
    && ValidWorld(w) && FragmentsOf(Tombstones(w.inp), fs) && Thinned(fs, spans, w.snaps, elision)
    && SortedRanges(elision.inuse) && Bounded(w, elision.inuse, elision.smallest, elision.largest)
  }

  /** Tombstones are only dropped, never made up. */
  lemma WrittenWasThere(w: World, fs: seq<Fragment>, spans: seq<Fragment>, elision: Elision, k: Key, sn: nat, s: nat)
    requires Emission(w, fs, spans, elision) && Covers(SpanSet(spans), k, sn, s)
    ensures exists y: nat :: OverKey(Tombstones(w.inp), k, y) && FragmentOver(spans, k, y) && sn < y < s
  {
    CoversBy(SpanSet(spans), k, sn, s);
    var y: nat :| OverKey(SpanSet(spans), k, y) && sn < y < s;
    SpanSetOver(spans, k, y);
    assert FragmentOver(fs, k, y);
  }

  /** A tombstone visible at an open snapshot leaves a representative, except in
      the last stripe over keys it may be elided for. */
  lemma CoverKept(w: World, fs: seq<Fragment>, spans: seq<Fragment>, elision: Elision, k: Key, x: nat, s: nat)
    requires Emission(w, fs, spans, elision) && Open(w, s) && x < s && OverKey(Tombstones(w.inp), k, x)
    ensures (exists y: nat :: x <= y < s && OverKey(SpanSet(spans), k, y))
            || (Stripe(x, w.snaps) == 0 && ElidedAt(fs, elision, k))
  {
    assert FragmentOver(fs, k, x);
    if RepresentedAt(spans, k, x, w.snaps) {
      var y: nat :| x <= y && Stripe(y, w.snaps) == Stripe(x, w.snaps) && FragmentOver(spans, k, y);
      SpanSetOver(spans, k, y);
      assert OverKey(Tombstones(w.inp), k, y);
      var t :| t in Tombstones(w.inp) && t.start <= k < t.end && t.sn == y;
      InputTombstoneBelowTop(w, t);
      StripeVisibility(w, x, y, s);
    }
  }

  lemma FragmentsWithinBounds(w: World, fs: seq<Fragment>, elision: Elision, i: nat)
    requires FragmentsOf(Tombstones(w.inp), fs) && i < |fs|
    requires Bounded(w, elision.inuse, elision.smallest, elision.largest)
    ensures elision.smallest <= fs[i].start && fs[i].end <= elision.largest
  {
    var f := fs[i];
    var a := CoveringSpan(w, fs, i, f.start);
    if elision.largest < f.end {
      var b := CoveringSpan(w, fs, i, if elision.largest < f.start then f.start else elision.largest);
    }
  }

  lemma CoveringSpan(w: World, fs: seq<Fragment>, i: nat, k: Key) returns (j: nat)
    requires FragmentsOf(Tombstones(w.inp), fs) && i < |fs| && fs[i].start <= k < fs[i].end
    ensures j < |w.inp| && w.inp[j].kind.RangeDelete? && w.inp[j].key <= k < w.inp[j].kind.end
  {
    assert FragmentOver(fs, k, fs[i].seqs[0]);
    assert OverKey(Tombstones(w.inp), k, fs[i].seqs[0]);
    var t :| t in Tombstones(w.inp) && t.start <= k < t.end && t.sn == fs[i].seqs[0];
    j := TombstoneSource(w.inp, t);
  }

  /** Where a tombstone is elided nothing lies below. */
  lemma ElidedOverNothing(w: World, fs: seq<Fragment>, spans: seq<Fragment>, elision: Elision, k: Key)
    requires Emission(w, fs, spans, elision) && ElidedAt(fs, elision, k)
    ensures NoPoints(w.low, k)
  {
    var i :| 0 <= i < |fs| && fs[i].start <= k < fs[i].end && elision.ElideRangeTombstone(fs[i].start, fs[i].end);
    FragmentsWithinBounds(w, fs, elision, i);
    elision.RangeElisionIsSound(fs[i].start, fs[i].end, k);
  }

  /** Zeroing is allowed only when every tombstone of the last stripe goes. */
  lemma ZeroingElidesAll(w: World, fs: seq<Fragment>, spans: seq<Fragment>, elision: Elision)
    requires Emission(w, fs, spans, elision) && elision.AllowZeroSeqNum()
    ensures AllElidable(fs, elision)
  {
    forall i | 0 <= i < |fs| ensures elision.ElideRangeTombstone(fs[i].start, fs[i].end) {
      FragmentsWithinBounds(w, fs, elision, i);
      elision.ZeroingForcesElision(fs[i].start, fs[i].end);
    }
  }

  /** Data below the compaction is deleted by the same readers' tombstones. */
  lemma LowLiveness(w: World, fs: seq<Fragment>, spans: seq<Fragment>, elision: Elision, j: nat, k: Key, s: nat)
    requires Emission(w, fs, spans, elision) && Open(w, s) && j < |w.low|
    ensures Live(w.low[j], k, AllTombstones(w), s) <==> Live(w.low[j], k, SpanSet(spans) + w.lowTombs, s)
  {
    hide ValidWorld, Emission, Tombstones, SpanSet, OverKey, FragmentOver, Covers, ElidedAt, Stripe;
    var e := w.low[j];
    CoversUnion(Tombstones(w.inp), w.lowTombs, k, e.sn, s);
    CoversUnion(SpanSet(spans), w.lowTombs, k, e.sn, s);
    if Covers(SpanSet(spans), k, e.sn, s) {
      WrittenWasThere(w, fs, spans, elision, k, e.sn, s);
      CoversBy(Tombstones(w.inp), k, e.sn, s);
    }
    if e.key == k && e.IsPoint() && Covers(Tombstones(w.inp), k, e.sn, s) {
      CoversBy(Tombstones(w.inp), k, e.sn, s);
      var x: nat :| OverKey(Tombstones(w.inp), k, x) && e.sn < x < s;
      CoverKept(w, fs, spans, elision, k, x, s);
      if ElidedAt(fs, elision, k) { ElidedOverNothing(w, fs, spans, elision, k); }
      CoversBy(SpanSet(spans), k, e.sn, s);
    }
  }

  /** out is what goes to disk for o, an entry the iterator handed out. */
  ghost predicate Written(w: World, elision: Elision, o: Entry, out: Entry) {
    && o.IsPoint() && o.sn < w.top && elision.smallest <= o.key <= elision.largest
    && AboveLow(w, o) && !VisiblyCovered(w, o)
    && (out == o || (out == o.(sn := 0) && elision.AllowZeroSeqNum() && Stripe(o.sn, w.snaps) == 0))
  }

  /** Keeping one tombstone per stripe, eliding the last stripe and zeroing
      sequence numbers together leave every written point as alive as it was. */
  lemma OutLiveness(w: World, fs: seq<Fragment>, spans: seq<Fragment>, elision: Elision, o: Entry, out: Entry, k: Key, s: nat)
    requires Emission(w, fs, spans, elision) && Open(w, s) && Written(w, elision, o, out)
    ensures Live(o, k, AllTombstones(w), s) <==> Live(out, k, SpanSet(spans) + w.lowTombs, s)
  {
    hide ValidWorld, Emission, Tombstones, SpanSet, OverKey, FragmentOver, Covers, ElidedAt, Stripe, VisiblyCovered, AboveLow;
    CoversUnion(Tombstones(w.inp), w.lowTombs, k, o.sn, s);
    CoversUnion(SpanSet(spans), w.lowTombs, k, out.sn, s);
    if o.key == k {
      LowSpares(w, fs, spans, elision, o, out, s);
      if o.sn < s {
        KeptCover(w, fs, spans, elision, o, out, s);
        MadeCover(w, fs, spans, elision, o, out, s);
      }
    }
  }

  lemma LowSpares(w: World, fs: seq<Fragment>, spans: seq<Fragment>, elision: Elision, o: Entry, out: Entry, s: nat)
    requires Emission(w, fs, spans, elision) && Open(w, s) && Written(w, elision, o, out)
    ensures !Covers(w.lowTombs, o.key, o.sn, s) && !Covers(w.lowTombs, o.key, out.sn, s)
    ensures out.sn < s <==> o.sn < s
  {
    hide Tombstones, Thinned, FragmentsOf;
    if out != o {
      NoneMeetsExact(elision.inuse, elision.smallest, elision.largest);
      elision.RangeElisionIsSound(elision.smallest, elision.largest, o.key);
      if s in w.snaps {
        var j :| 0 <= j < |w.snaps| && w.snaps[j] == s;
        StripeSees(o.sn, w.snaps, j);
      }
    }
  }

  lemma KeptCover(w: World, fs: seq<Fragment>, spans: seq<Fragment>, elision: Elision, o: Entry, out: Entry, s: nat)
    requires Emission(w, fs, spans, elision) && Open(w, s) && Written(w, elision, o, out) && o.sn < s
    ensures Covers(Tombstones(w.inp), o.key, o.sn, s) ==> Covers(SpanSet(spans), o.key, out.sn, s)
  {
    hide Tombstones, SpanSet, OverKey, FragmentOver, ElidedAt, Stripe, Thinned, FragmentsOf, Bounded, SortedRanges;
    if Covers(Tombstones(w.inp), o.key, o.sn, s) {
      CoversBy(Tombstones(w.inp), o.key, o.sn, s);
      var x: nat :| OverKey(Tombstones(w.inp), o.key, x) && o.sn < x < s;
      CoverKept(w, fs, spans, elision, o.key, x, s);
      if Stripe(x, w.snaps) == 0 {
        StripeMonotone(o.sn, x, w.snaps);
        CoversBy(Tombstones(w.inp), o.key, o.sn, StripeBound(Stripe(o.sn, w.snaps), w.snaps));
        BoundOf(w, x, o.key);
      }
      CoversBy(SpanSet(spans), o.key, out.sn, s);
    }
  }

  lemma BoundOf(w: World, x: nat, k: Key)
    requires ValidWorld(w) && OverKey(Tombstones(w.inp), k, x)
    ensures x < StripeBound(Stripe(x, w.snaps), w.snaps)
  {
    var t :| t in Tombstones(w.inp) && t.start <= k < t.end && t.sn == x;
    InputTombstoneBelowTop(w, t);
  }

  lemma MadeCover(w: World, fs: seq<Fragment>, spans: seq<Fragment>, elision: Elision, o: Entry, out: Entry, s: nat)
    requires Emission(w, fs, spans, elision) && Open(w, s) && Written(w, elision, o, out)
    ensures Covers(SpanSet(spans), o.key, out.sn, s) ==> Covers(Tombstones(w.inp), o.key, o.sn, s)
  {
    hide Tombstones, SpanSet, OverKey, ElidedAt, Stripe, FragmentsOf, Bounded, SortedRanges, VisiblyCovered, FragmentOver;
    if Covers(SpanSet(spans), o.key, out.sn, s) {
      WrittenWasThere(w, fs, spans, elision, o.key, out.sn, s);
      var y: nat :| OverKey(Tombstones(w.inp), o.key, y) && FragmentOver(spans, o.key, y) && out.sn < y < s;
      if out != o {
        ZeroingElidesAll(w, fs, spans, elision);
        assert Stripe(y, w.snaps) != 0;
        if y <= o.sn { StripeMonotone(y, o.sn, w.snaps); }
      }
      CoversBy(Tombstones(w.inp), o.key, o.sn, s);
    }
  }

  // ---------------------------------------------------------------------
  // Draining the iterator
  // ---------------------------------------------------------------------

  /** Entries handed out so far as the iterator understood them (orig) and as
      written (out); ats gives the input entries they stem from. */
  ghost predicate Drained(w: World, elision: Elision, orig: seq<Entry>, out: seq<Entry>, ats: seq<nat>,
                          horizon: nat, rest: seq<Entry>) {
    && |orig| == |out| == |ats|
    && SameReads(w, orig + rest, w.inp)
    && (forall i | 0 <= i < |out| :: Written(w, elision, orig[i], out[i]) && StemsFrom(w, orig[i], ats[i]) && ats[i] < horizon)
    && (forall i, j | 0 <= i < j < |ats| :: ats[i] < ats[j])
    && (forall i | 0 <= i < |out| && out[i] != orig[i] :: NoPoints(rest, out[i].key))
    && (forall i, j | 0 <= i < j < |out| && out[i] != orig[i] :: out[j].key != out[i].key)
  }

  predicate StemsFrom(w: World, e: Entry, at: nat) {
    at < |w.inp| && w.inp[at].IsPoint() && e.key == w.inp[at].key && e.sn == w.inp[at].sn
  }

  lemma DrainStart(w: World, elision: Elision, horizon: nat)
    ensures Drained(w, elision, [], [], [], horizon, w.inp)
  {
    assert [] + w.inp == w.inp;
  }

  lemma HandedOutIsWritten(c: Config, w: World, elision: Elision, t: State, at: nat, before: nat, rest: seq<Entry>)
    requires HandedOut(c, w, t, t.key, at, before, rest) && t.key.IsPoint()
    requires c.allowZeroSeqNum == elision.AllowZeroSeqNum() && Bounded(w, elision.inuse, elision.smallest, elision.largest)
    ensures Written(w, elision, Original(t), t.key) && StemsFrom(w, Original(t), at)
    ensures t.key != Original(t) ==> NoPoints(Rest(c, w, t), t.key.key)
  {
    hide SameReads, Stripe, DropStripe, Within, Passed, Tombstones, Covers;
    Facts(c, w);
  }

  lemma DrainPoint(c: Config, w: World, elision: Elision, t: State, at: nat, before: nat,
                   orig: seq<Entry>, out: seq<Entry>, ats: seq<nat>, rest: seq<Entry>)
    requires Drained(w, elision, orig, out, ats, before, rest)
    requires HandedOut(c, w, t, t.key, at, before, rest) && t.key.IsPoint()
    requires c.allowZeroSeqNum == elision.AllowZeroSeqNum() && Bounded(w, elision.inuse, elision.smallest, elision.largest)
    ensures Drained(w, elision, orig + [Original(t)], out + [t.key], ats + [at], Horizon(t), Rest(c, w, t))
  {
    hide Written, ReadOver, Open, Bounded, Ready, Base, ZeroedSoundly, VisiblyCovered, Rest, NoPoints, AtCandidate;
    HandedOutIsWritten(c, w, elision, t, at, before, rest);
    BaseFacts(c, w, t);
    var o, rest' := Original(t), Rest(c, w, t);
    SamePrefix(w, orig, [o] + rest', rest);
    assert orig + ([o] + rest') == orig + [o] + rest';
    forall i | 0 <= i < |out| && out[i] != orig[i] ensures NoPoints(rest', out[i].key) && t.key.key != out[i].key {
      NoPointsWithin(rest', rest, out[i].key);
      PointInRest(rest, w.inp[at], out[i].key);
    }
  }

  lemma NoPointsWithin(a: seq<Entry>, b: seq<Entry>, k: Key)
    requires Within(a, b) && NoPoints(b, k)
    ensures NoPoints(a, k)
  {
    forall i | 0 <= i < |a| ensures a[i].key == k ==> !a[i].IsPoint() {
      assert a[i] in b;
    }
  }

  lemma PointInRest(rest: seq<Entry>, e: Entry, k: Key)
    requires e in rest && e.IsPoint() && NoPoints(rest, k)
    ensures e.key != k
  {
  }

  lemma DrainSpan(c: Config, w: World, elision: Elision, t: State, at: nat, before: nat,
                  orig: seq<Entry>, out: seq<Entry>, ats: seq<nat>, rest: seq<Entry>)
    requires Drained(w, elision, orig, out, ats, before, rest)
    requires HandedOut(c, w, t, t.key, at, before, rest) && !t.key.IsPoint()
    ensures Drained(w, elision, orig, out, ats, Horizon(t), Rest(c, w, t))
  {
    hide Written, ReadOver, Open, Base, Rest, NoPoints;
    BaseFacts(c, w, t);
    var o, rest' := Original(t), Rest(c, w, t);
    DropDead(w, o, rest');
    SamePrefix(w, orig, rest', rest);
    forall i | 0 <= i < |out| && out[i] != orig[i] ensures NoPoints(rest', out[i].key) {
      NoPointsWithin(rest', rest, out[i].key);
    }
  }

  lemma BaseFacts(c: Config, w: World, t: State)
    requires Base(c, w, t)
    ensures w.inp == c.inp && t.p <= |c.inp| && ValidWorld(w)
  {
  }

  lemma HandedOutFacts(c: Config, w: World, t: State, o: Entry, at: nat, before: nat, rest: seq<Entry>)
    requires HandedOut(c, w, t, o, at, before, rest)
    ensures o == t.key && before < Horizon(t) && w.inp == c.inp && t.p <= |c.inp| && !t.err
    ensures o.IsPoint() ==> Ready(c, w, t)
    ensures Horizon(t) <= |c.inp|
  {
    hide SameReads, Fixed, Stripe, VisiblyCovered, Rest, Passed;
  }

  lemma DrainEnd(w: World, elision: Elision, orig: seq<Entry>, out: seq<Entry>, ats: seq<nat>, horizon: nat, rest: seq<Entry>)
    requires Drained(w, elision, orig, out, ats, horizon, rest) && SameReads(w, [], rest)
    ensures Drained(w, elision, orig, out, ats, horizon, [])
  {
    hide ReadOver, Open, Written;
    SamePrefix(w, orig, [], rest);
  }

  lemma FragmentsDescend(ts: set<Tombstone>, fs: seq<Fragment>)
    requires FragmentsOf(ts, fs)
    ensures forall i | 0 <= i < |fs| :: Descending(fs[i].seqs) && fs[i].start <= fs[i].end
  {
    hide OverKey, FragmentOver;
  }

  /** A tombstone of the last stripe is over a key that may be in use. */
  predicate Needed(c: Config, inuse: seq<KeyRange>, keepAll: bool, p: nat)
    requires p < |c.inp|
  {
    c.inp[p].IsTombstone() && Stripe(c.inp[p].sn, c.snaps) == 0 ==> keepAll || InUse(inuse, c.inp[p].key)
  }

  /** A range tombstone comes between entries p and q of a stripe, and the entry at p is one
      that waits for it. */
  predicate KeptApart(c: Config, p: nat, q: nat)
    requires p < |c.inp|
  {
    (c.inp[p].kind.Merge? || c.inp[p].kind.SingleDelete?) && exists k: nat :: p < k < q && Under(c, p, k) && !c.inp[k].IsPoint()
  }

  /** Points written so far, for the input entries at ats: each is what should go out for
      its entry, none is a tombstone over nothing, and there is one for each user key and
      stripe, unless a range tombstone keeps them apart. */
  ghost predicate Shaped(c: Config, w: World, inuse: seq<KeyRange>, keepAll: bool, out: seq<Entry>, ats: seq<nat>) {
    && |out| == |ats|
    && (forall i | 0 <= i < |ats| ::
          && ats[i] < |c.inp| && c.inp[ats[i]].IsPoint() && !VisiblyCovered(w, c.inp[ats[i]])
          && GoesOut(c, w, ats[i], out[i]) && Needed(c, inuse, keepAll, ats[i]))
    && (forall i, j | 0 <= i < j < |ats| && Under(c, ats[i], ats[j]) :: KeptApart(c, ats[i], ats[j]))
  }

  ghost predicate ShapedSoFar(c: Config, w: World, inuse: seq<KeyRange>, keepAll: bool, out: seq<Entry>, ats: seq<nat>, rest: seq<Entry>) {
    Shaped(c, w, inuse, keepAll, out, ats) && forall i | 0 <= i < |ats| :: Collapsed(c, ats[i], rest)
  }

  lemma CollapsedMore(c: Config, p: nat, rest: seq<Entry>, rest': seq<Entry>)
    requires p < |c.inp| && Collapsed(c, p, rest) && Within(rest', rest)
    ensures Collapsed(c, p, rest')
  {
    hide Under;
  }

  lemma HandedOutPoint(c: Config, w: World, t: State, at: nat, before: nat, rest: seq<Entry>)
    requires HandedOut(c, w, t, t.key, at, before, rest)
    ensures at < |c.inp| && w.inp == c.inp && t.p <= |c.inp| && Within(Rest(c, w, t), rest)
    ensures t.key.IsPoint() ==> c.inp[at].IsPoint() && !VisiblyCovered(w, c.inp[at]) && c.inp[at] in rest
                                && GoesOut(c, w, at, t.key) && Collapsed(c, at, Rest(c, w, t))
  {
    hide SameReads, Fixed, Stripe, VisiblyCovered, Rest, Passed, GoesOut, Collapsed, Within, Ready, ZeroedSoundly;
  }

  lemma ShapeStep(c: Config, w: World, inuse: seq<KeyRange>, keepAll: bool, t: State, at: nat, before: nat, out: seq<Entry>, ats: seq<nat>, rest: seq<Entry>)
    requires ShapedSoFar(c, w, inuse, keepAll, out, ats, rest) && HandedOut(c, w, t, t.key, at, before, rest)
    requires at < |c.inp| && Needed(c, inuse, keepAll, at)
    ensures w.inp == c.inp && t.p <= |c.inp|
    ensures if t.key.IsPoint() then ShapedSoFar(c, w, inuse, keepAll, out + [t.key], ats + [at], Rest(c, w, t))
            else ShapedSoFar(c, w, inuse, keepAll, out, ats, Rest(c, w, t))
  {
    hide HandedOut, Under, GoesOut, VisiblyCovered, Needed, Rest, Within, KeptApart, Collapsed;
    HandedOutPoint(c, w, t, at, before, rest);
    forall i | 0 <= i < |ats| ensures Collapsed(c, ats[i], Rest(c, w, t)) { CollapsedMore(c, ats[i], rest, Rest(c, w, t)); }
    if t.key.IsPoint() {
      var out', ats' := out + [t.key], ats + [at];
      forall i, j | 0 <= i < j < |ats'| && Under(c, ats'[i], ats'[j]) ensures KeptApart(c, ats'[i], ats'[j]) {
        if j == |ats| { IsKeptApart(c, ats[i], at, rest); }
      }
    }
  }

  lemma IsKeptApart(c: Config, p: nat, q: nat, rest: seq<Entry>)
    requires p < |c.inp| && Collapsed(c, p, rest) && Under(c, p, q) && c.inp[q].IsPoint() && c.inp[q] in rest
    ensures KeptApart(c, p, q)
  {
    hide Under;
  }

  lemma ShapeEnd(c: Config, w: World, inuse: seq<KeyRange>, keepAll: bool, out: seq<Entry>, ats: seq<nat>, rest: seq<Entry>)
    requires ShapedSoFar(c, w, inuse, keepAll, out, ats, rest)
    ensures Shaped(c, w, inuse, keepAll, out, ats)
  {
  }

  lemma ShapeStart(c: Config, w: World, inuse: seq<KeyRange>, keepAll: bool, rest: seq<Entry>)
    ensures ShapedSoFar(c, w, inuse, keepAll, [], [], rest)
  {
  }

  /** After a span was handed out and added, the iterator is ready again. */
  lemma SpanAdded(c: Config, w: World, t: State, at: nat, before: nat, rest: seq<Entry>)
    requires HandedOut(c, w, t, t.key, at, before, rest) && !t.key.IsPoint()
    ensures Ready(c, w, t.(frag := t.frag + SpanTombstones(t.key)))
    ensures Rest(c, w, t.(frag := t.frag + SpanTombstones(t.key))) == Rest(c, w, t)
  {
    hide SameReads, Stripe, DropStripe, Within, Passed, Fixed, VisiblyCovered;
    PassSpan(w, at);
    assert SavedAt(c, t.(frag := t.frag + SpanTombstones(t.key)), at);
  }

  /** Strict internal key order: no key is written twice. */
  predicate StrictlySorted(es: seq<Entry>) {
    forall i, j | 0 <= i < j < |es| :: es[i].key < es[j].key || (es[i].key == es[j].key && es[j].sn < es[i].sn)
  }

  lemma DrainedSorted(w: World, elision: Elision, orig: seq<Entry>, out: seq<Entry>, ats: seq<nat>, horizon: nat, rest: seq<Entry>)
    requires ValidWorld(w) && Drained(w, elision, orig, out, ats, horizon, rest)
    ensures StrictlySorted(out)
  {
    hide SameReads, NoPoints, AboveLow, VisiblyCovered, Stripe;
    forall i, j | 0 <= i < j < |out| ensures out[i].key < out[j].key || (out[i].key == out[j].key && out[j].sn < out[i].sn) {
      assert Written(w, elision, orig[i], out[i]) && StemsFrom(w, orig[i], ats[i]);
      assert Written(w, elision, orig[j], out[j]) && StemsFrom(w, orig[j], ats[j]);
      InOrder(w, ats[i], ats[j]);
    }
  }

  // ---------------------------------------------------------------------
  // The theorem
  // ---------------------------------------------------------------------

  /** The output of a compaction: points in order, and range tombstones. */
  datatype Output = Output(points: seq<Entry>, spans: seq<Fragment>)

  /** A read over the output and the data below it. */
  ghost function ReadAfter(w: World, r: Output, k: Key, s: nat): Option<Value> {
    Read(r.points + w.low, k, SpanSet(r.spans) + w.lowTombs, s)
  }

  lemma {:induction false} SameRead(a: seq<Entry>, b: seq<Entry>, k: Key, ta: set<Tombstone>, tb: set<Tombstone>, s: nat)
    requires |a| == |b|
    requires forall i | 0 <= i < |a| :: (Live(a[i], k, ta, s) <==> Live(b[i], k, tb, s)) && a[i].kind == b[i].kind && a[i].value == b[i].value
    ensures Read(a, k, ta, s) == Read(b, k, tb, s)
  {
    if a != [] {
      SameRead(a[1..], b[1..], k, ta, tb, s);
    }
  }

  lemma OutputReadsTheSame(w: World, fs: seq<Fragment>, r: Output, elision: Elision, orig: seq<Entry>, ats: seq<nat>, horizon: nat,
                           k: Key, s: nat)
    requires Emission(w, fs, r.spans, elision) && Drained(w, elision, orig, r.points, ats, horizon, []) && Open(w, s)
    ensures ReadAfter(w, r, k, s) == ReadOver(w, w.inp, k, s)
  {
    hide Emission, Written, NoPoints, Live, SpanSet, AllTombstones, StemsFrom, Read;
    var a, b := r.points + w.low, orig + w.low;
    forall i | 0 <= i < |a|
      ensures Live(a[i], k, SpanSet(r.spans) + w.lowTombs, s) <==> Live(b[i], k, AllTombstones(w), s)
      ensures a[i].kind == b[i].kind && a[i].value == b[i].value
    {
      if i < |r.points| {
        OutLiveness(w, fs, r.spans, elision, orig[i], r.points[i], k, s);
        WrittenKeeps(w, elision, orig[i], r.points[i]);
      } else {
        LowLiveness(w, fs, r.spans, elision, i - |r.points|, k, s);
      }
    }
    SameRead(a, b, k, SpanSet(r.spans) + w.lowTombs, AllTombstones(w), s);
    assert orig + [] == orig;
    assert ReadOver(w, orig, k, s) == ReadOver(w, w.inp, k, s);
  }

  lemma WrittenKeeps(w: World, elision: Elision, o: Entry, out: Entry)
    requires Written(w, elision, o, out)
    ensures out.kind == o.kind && out.value == o.value
  {
  }

  /** Nothing written is newer than what it was made from. */
  ghost predicate Derived(w: World, r: Output) {
    && (forall i | 0 <= i < |r.points| :: exists j :: 0 <= j < |w.inp| && MadeFrom(r.points[i], w.inp[j]))
    && (forall k: Key, y: nat | FragmentOver(r.spans, k, y) :: OverKey(Tombstones(w.inp), k, y))
  }

  predicate MadeFrom(o: Entry, e: Entry) {
    o.IsPoint() && e.IsPoint() && o.key == e.key && o.sn <= e.sn
  }

  lemma OutputDerived(w: World, fs: seq<Fragment>, r: Output, elision: Elision, orig: seq<Entry>, ats: seq<nat>, horizon: nat)
    requires FragmentsOf(Tombstones(w.inp), fs) && Thinned(fs, r.spans, w.snaps, elision)
    requires Drained(w, elision, orig, r.points, ats, horizon, [])
    ensures Derived(w, r)
  {
    hide SameReads, NoPoints, AboveLow, VisiblyCovered, Stripe, OverKey, FragmentOver, RepresentedAt, ElidedAt, AllElidable;
    forall i | 0 <= i < |r.points| ensures exists j :: 0 <= j < |w.inp| && MadeFrom(r.points[i], w.inp[j]) {
      assert MadeFrom(r.points[i], w.inp[ats[i]]);
    }
  }

  /** A compaction of input c.inp against the ranges in use below it. The
      fragments fs are what the span fragmenter makes of the input's range
      tombstones. The result is missing only when a DELSIZED is corrupt. What is written
      for which entries (ats) follows the rules for each kind, with one point for each
      user key and stripe that range tombstones do not keep apart. */
  method Compact(c: Config, inuse: seq<KeyRange>, smallest: Key, largest: Key, flushing: bool, disableSpanElision: bool,
                 fs: seq<Fragment>, ghost w: World)
    returns (r: Option<Output>, ghost ats: seq<nat>)
    requires Fixed(c, w) && SortedRanges(inuse) && Bounded(w, inuse, smallest, largest)
    requires c.allowZeroSeqNum == (!disableSpanElision && !flushing && NoneMeets(inuse, smallest, largest))
    requires FragmentsOf(Tombstones(c.inp), fs)
    ensures r.Some? ==> forall k: Key, s: nat | Open(w, s) :: ReadAfter(w, r.value, k, s) == ReadOver(w, w.inp, k, s)
    ensures r.Some? ==> StrictlySorted(r.value.points) && Derived(w, r.value)
    ensures r.Some? ==> SpansShaped(fs, r.value.spans, c.snaps, inuse, flushing || disableSpanElision)
    ensures r.Some? ==> Shaped(c, w, inuse, flushing || (inuse != [] && inuse[0].start <= smallest && largest <= inuse[0].end), r.value.points, ats)
    ensures r.None? ==> Malformed(c.inp)
  {
    hide Shaped, ShapedSoFar, SpansShaped, GoesOut, Collapsed, VisiblyCovered, ValidWorld, SingleDeleteSafe, Drained, HandedOut, SameReads, Bounded, Ready, Rest, Base, FragmentsOf, Tombstones,
      SpanTombstones, StrictlySorted, Thinned, NoneMeets, Malformed, ReadAfter, ReadOver, Open;
    Facts(c, w);
    var elision := new Elision(inuse, smallest, largest, flushing, disableSpanElision);
    var iter := new CompactionIter(c, elision, w);
    var out: seq<Entry> := [];
    ghost var orig: seq<Entry> := [];
    ats := [];
    ghost var keepAll := flushing || (inuse != [] && inuse[0].start <= smallest && largest <= inuse[0].end);
    ghost var horizon := 0;
    DrainStart(w, elision, Horizon(iter.st));
    ShapeStart(c, w, inuse, keepAll, Rest(c, w, iter.st));
    while true
      invariant iter.c == c && iter.w == w && iter.elision == elision && fresh(iter) && fresh(elision)
      invariant elision.inuse == inuse && elision.smallest == smallest && elision.largest == largest
      invariant iter.Valid() && !iter.st.err && iter.st.p <= |c.inp|
      invariant Drained(w, elision, orig, out, ats, Horizon(iter.st), Rest(c, w, iter.st))
      invariant elision.flushing == flushing && ShapedSoFar(c, w, inuse, keepAll, out, ats, Rest(c, w, iter.st))
      decreases |c.inp| + 1 - Horizon(iter.st)
    {
      ghost var before, rest := Horizon(iter.st), Rest(c, w, iter.st);
      var o, at := iter.Next();
      if iter.st.err {
        return None, ats;
      }
      if o.None? {
        ShapeEnd(c, w, inuse, keepAll, out, ats, rest);
        DrainEnd(w, elision, orig, out, ats, before, rest);
        horizon := before;
        break;
      }
      HandedOutFacts(c, w, iter.st, o.value, at, before, rest);
      ShapeStep(c, w, inuse, keepAll, iter.st, at, before, out, ats, rest);
      if o.value.kind.RangeDelete? {
        DrainSpan(c, w, elision, iter.st, at, before, orig, out, ats, rest);
        SpanAdded(c, w, iter.st, at, before, rest);
        iter.st := iter.st.(frag := iter.st.frag + SpanTombstones(o.value));
      } else {
        DrainPoint(c, w, elision, iter.st, at, before, orig, out, ats, rest);
        orig, out, ats := orig + [Original(iter.st)], out + [o.value], ats + [at];
      }
    }
    FragmentsDescend(Tombstones(c.inp), fs);
    assert Searchable(fs, inuse);
    Ascends(w);
    var spans := EmitSpans(fs, c.snaps, elision);
    r := Some(Output(out, spans));
    forall k: Key, s: nat | Open(w, s) ensures ReadAfter(w, r.value, k, s) == ReadOver(w, w.inp, k, s) {
      OutputReadsTheSame(w, fs, r.value, elision, orig, ats, horizon, k, s);
    }
    DrainedSorted(w, elision, orig, out, ats, horizon, []);
    OutputDerived(w, fs, r.value, elision, orig, ats, horizon);
  }

  // ---------------------------------------------------------------------
  // The whole store
  // ---------------------------------------------------------------------

  /** Data above the compaction is newer than what it shares keys with. */
  ghost predicate Newer(w: World, up: seq<Entry>, upTombs: set<Tombstone>) {
    && (forall t, j | t in upTombs && 0 <= j < |w.inp| && t.start <= w.inp[j].key < t.end :: w.inp[j].sn < t.sn)
    && (forall t, j | t in upTombs && 0 <= j < |w.low| && t.start <= w.low[j].key < t.end :: w.low[j].sn < t.sn)
    && (forall t, j | t in AllTombstones(w) && 0 <= j < |up| && t.start <= up[j].key < t.end :: t.sn <= up[j].sn)
  }

  /** Newer tombstones hide all of an older part of a history, or none of it. */
  lemma {:induction false} OlderPart(es: seq<Entry>, k: Key, ts: set<Tombstone>, upTombs: set<Tombstone>, s: nat)
    requires forall t, j | t in upTombs && 0 <= j < |es| && es[j].IsPoint() && t.start <= es[j].key < t.end :: es[j].sn < t.sn
    ensures Read(es, k, ts + upTombs, s) ==
            if exists t :: t in upTombs && t.start <= k < t.end && t.sn < s then None else Read(es, k, ts, s)
  {
    if es != [] {
      OlderPart(es[1..], k, ts, upTombs, s);
      CoversUnion(ts, upTombs, k, es[0].sn, s);
    }
  }

  /** A newer part reads an older part only through the older part's result, and
      takes no notice of its tombstones. */
  lemma {:induction false} NewerPart(up: seq<Entry>, a: seq<Entry>, b: seq<Entry>, k: Key,
                                     ta: set<Tombstone>, tb: set<Tombstone>, upTombs: set<Tombstone>, s: nat)
    requires forall t, j | t in ta + tb && 0 <= j < |up| && t.start <= up[j].key < t.end :: t.sn <= up[j].sn
    requires Read(a, k, ta + upTombs, s) == Read(b, k, tb + upTombs, s)
    ensures Read(up + a, k, ta + upTombs, s) == Read(up + b, k, tb + upTombs, s)
  {
    if up == [] {
      assert up + a == a && up + b == b;
    } else {
      NewerPart(up[1..], a, b, k, ta, tb, upTombs, s);
      assert (up + a)[1..] == up[1..] + a && (up + b)[1..] == up[1..] + b;
      CoversUnion(ta, upTombs, k, up[0].sn, s);
      CoversUnion(tb, upTombs, k, up[0].sn, s);
    }
  }

  /** Installing a compaction's output changes no read of the whole store. */
  lemma StoreReadsUnchanged(w: World, r: Output, up: seq<Entry>, upTombs: set<Tombstone>, k: Key, s: nat)
    requires Newer(w, up, upTombs) && Derived(w, r)
    requires ReadAfter(w, r, k, s) == ReadOver(w, w.inp, k, s)
    ensures Read(up + (r.points + w.low), k, SpanSet(r.spans) + w.lowTombs + upTombs, s)
            == Read(up + (w.inp + w.low), k, AllTombstones(w) + upTombs, s)
  {
    var ta, tb := SpanSet(r.spans) + w.lowTombs, AllTombstones(w);
    OlderOutput(w, r, upTombs);
    OlderPart(r.points + w.low, k, ta, upTombs, s);
    OlderPart(w.inp + w.low, k, tb, upTombs, s);
    SpansSpareNewer(w, r, up, upTombs);
    NewerPart(up, r.points + w.low, w.inp + w.low, k, ta, tb, upTombs, s);
  }

  lemma OlderOutput(w: World, r: Output, upTombs: set<Tombstone>)
    requires Newer(w, [], upTombs) && Derived(w, r)
    ensures forall t, j | t in upTombs && 0 <= j < |r.points + w.low| && t.start <= (r.points + w.low)[j].key < t.end ::
              (r.points + w.low)[j].sn < t.sn
  {
    var es := r.points + w.low;
    forall t, j | t in upTombs && 0 <= j < |es| && t.start <= es[j].key < t.end ensures es[j].sn < t.sn {
      if j < |r.points| {
        var i :| 0 <= i < |w.inp| && MadeFrom(r.points[j], w.inp[i]);
      } else {
        assert es[j] == w.low[j - |r.points|];
      }
    }
  }

  lemma SpansSpareNewer(w: World, r: Output, up: seq<Entry>, upTombs: set<Tombstone>)
    requires Newer(w, up, upTombs) && Derived(w, r)
    ensures forall t, j | t in SpanSet(r.spans) + w.lowTombs + AllTombstones(w) && 0 <= j < |up| && t.start <= up[j].key < t.end ::
              t.sn <= up[j].sn
  {
    forall t, j | t in SpanSet(r.spans) + w.lowTombs + AllTombstones(w) && 0 <= j < |up| && t.start <= up[j].key < t.end
      ensures t.sn <= up[j].sn
    {
      if t in SpanSet(r.spans) {
        SpanSetOver(r.spans, up[j].key, t.sn);
        var u :| u in Tombstones(w.inp) && u.start <= up[j].key < u.end && u.sn == t.sn;
        assert u in AllTombstones(w);
      }
    }
  }

  /** The data below lies in tables of the levels that are scanned for ranges in
      use; a table's bounds take in its range tombstones. */
  ghost predicate Held(w: World, levels: seq<seq<Table>>, from: nat) {
    && (forall j | 0 <= j < |w.low| :: exists l, i :: from <= l < |levels| && 0 <= i < |levels[l]| && levels[l][i].Contains(w.low[j].key))
    && (forall t | t in w.lowTombs :: exists l, i :: from <= l < |levels| && 0 <= i < |levels[l]|
                                                    && levels[l][i].smallest <= t.start && t.end <= levels[l][i].largest)
  }

  /** The ranges that CalculateInUseKeyRanges returns bound the data below, as
      Compact needs. */
  lemma RangesInUseBound(w: World, levels: seq<seq<Table>>, from: nat, inuse: seq<KeyRange>, lo: Key, hi: Key)
    requires 1 <= from <= |levels| && Held(w, levels, from)
    requires forall k: Key | lo <= k :: InUse(inuse, k) <==> SomeTable(levels, from, |levels|, lo, hi, k)
    requires forall i | 0 <= i < |w.inp| :: lo <= w.inp[i].key <= hi && (w.inp[i].kind.RangeDelete? ==> w.inp[i].kind.end <= hi)
    ensures Bounded(w, inuse, lo, hi)
  {
    forall j | 0 <= j < |w.low| && lo <= w.low[j].key <= hi ensures InUse(inuse, w.low[j].key) {
      var l, i :| from <= l < |levels| && 0 <= i < |levels[l]| && levels[l][i].Contains(w.low[j].key);
      OverlapsComplete(levels[l], lo, hi, w.low[j].key, i);
      assert SomeTable(levels, from, |levels|, lo, hi, w.low[j].key);
    }
    forall t, k: Key | t in w.lowTombs && t.start <= k < t.end && lo <= k <= hi ensures InUse(inuse, k) {
      var l, i :| from <= l < |levels| && 0 <= i < |levels[l]| && levels[l][i].smallest <= t.start && t.end <= levels[l][i].largest;
      OverlapsComplete(levels[l], lo, hi, k, i);
      assert SomeTable(levels, from, |levels|, lo, hi, k);
    }
  }
}
