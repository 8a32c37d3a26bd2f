/**
Rewriting a history without changing what is read from it.

A compaction reads a sorted input, while other levels hold older data, and it
may replace the input by anything that reads the same at every open snapshot.
This module defines that equivalence and the rewrites that keep it.
*/
module History {
  import opened Options
  import opened Lsm

  /** What one compaction runs against: its sorted input, the open snapshots,
      the next sequence number when it started, and the older data below it. */
  datatype World = World(inp: seq<Entry>, snaps: seq<nat>, top: nat, low: seq<Entry>, lowTombs: set<Tombstone>)

  /** Internal key order. A range tombstone may share its sequence number with a
      point of the same user key; two points may not. */
  predicate Before(a: Entry, b: Entry) {
    a.key < b.key
    || (a.key == b.key && (b.sn < a.sn || (a.sn == b.sn && (!a.IsPoint() || !b.IsPoint()))))
  }

  predicate Sorted(es: seq<Entry>) {
    forall i, j | 0 <= i < j < |es| :: Before(es[i], es[j])
  }

  /** A range tombstone span is interleaved at its newest sequence number. */
  predicate SpanOk(e: Entry) {
    e.kind.RangeDelete? ==> forall j | 0 <= j < |e.kind.seqs| :: e.kind.seqs[j] <= e.sn
  }

  /** Data below the compaction is older than the input it shares keys with. */
  ghost predicate LevelInvariant(w: World) {
    forall i, t | 0 <= i < |w.inp| && t in w.lowTombs ::
      w.inp[i].IsPoint() && t.start <= w.inp[i].key < t.end ==> t.sn <= w.inp[i].sn
  }

  ghost predicate ValidWorld(w: World) {
    && Ascending(w.snaps)
    && w.top <= SEQ_MAX
    && Sorted(w.inp)
    && (forall i | 0 <= i < |w.inp| :: SpanOk(w.inp[i]) && w.inp[i].sn < w.top)
    && LevelInvariant(w)
  }

  /** The sequence numbers at which reads are protected: every open snapshot,
      and every number from the current one on. */
  ghost predicate Open(w: World, s: nat) {
    s in w.snaps || w.top <= s
  }

  ghost function AllTombstones(w: World): set<Tombstone> {
    Tombstones(w.inp) + w.lowTombs
  }

  lemma {:induction false} NoTombstones(es: seq<Entry>)
    requires forall i | 0 <= i < |es| :: es[i].IsPoint()
    ensures Tombstones(es) == {}
  {
    if es != [] { NoTombstones(es[..|es| - 1]); }
  }

  /** A read of k at s when es takes the place of the compaction's input. */
  ghost function ReadOver(w: World, es: seq<Entry>, k: Key, s: nat): Option<Value> {
    Read(es + w.low, k, AllTombstones(w), s)
  }

  ghost predicate SameReads(w: World, a: seq<Entry>, b: seq<Entry>) {
    forall k: Key, s: nat | Open(w, s) :: ReadOver(w, a, k, s) == ReadOver(w, b, k, s)
  }

  ghost predicate LiveAt(w: World, e: Entry, s: nat) {
    Live(e, e.key, AllTombstones(w), s)
  }

  predicate SameStripe(w: World, a: nat, b: nat) {
    a < w.top && b < w.top && Stripe(a, w.snaps) == Stripe(b, w.snaps)
  }

  /** Deleted by a range tombstone of the input that is in the entry's stripe. */
  ghost predicate VisiblyCovered(w: World, e: Entry) {
    Covers(Tombstones(w.inp), e.key, e.sn, StripeBound(Stripe(e.sn, w.snaps), w.snaps))
  }

  /** No range tombstone below the compaction reaches a point of e's age. */
  ghost predicate AboveLow(w: World, e: Entry) {
    forall t | t in w.lowTombs && t.start <= e.key < t.end :: t.sn <= e.sn
  }

  // ---------------------------------------------------------------------
  // The equivalence
  // ---------------------------------------------------------------------

  lemma SamePrefix(w: World, x: seq<Entry>, a: seq<Entry>, b: seq<Entry>)
    requires SameReads(w, a, b)
    ensures SameReads(w, x + a, x + b)
  {
    forall k: Key, s: nat | Open(w, s) ensures ReadOver(w, x + a, k, s) == ReadOver(w, x + b, k, s) {
      assert ReadOver(w, a, k, s) == ReadOver(w, b, k, s);
      ReadCongruence(x, a + w.low, b + w.low, k, AllTombstones(w), s);
      assert x + a + w.low == x + (a + w.low) && x + b + w.low == x + (b + w.low);
    }
  }

  lemma ReadHead(w: World, e: Entry, rest: seq<Entry>, k: Key, s: nat)
    ensures ReadOver(w, [e] + rest, k, s) ==
            (if e.key == k && LiveAt(w, e, s) then Over(e, ReadOver(w, rest, k, s)) else ReadOver(w, rest, k, s))
  {
    assert ([e] + rest + w.low)[1..] == rest + w.low;
  }

  lemma ReadTwo(w: World, e: Entry, x: Entry, rest: seq<Entry>, k: Key, s: nat)
    ensures ReadOver(w, [e, x] + rest, k, s) ==
            (var r := ReadOver(w, rest, k, s);
             var r1 := if x.key == k && LiveAt(w, x, s) then Over(x, r) else r;
             if e.key == k && LiveAt(w, e, s) then Over(e, r1) else r1)
  {
    ReadHead(w, x, rest, k, s);
    ReadHead(w, e, [x] + rest, k, s);
    assert [e] + ([x] + rest) == [e, x] + rest;
  }

  // ---------------------------------------------------------------------
  // Visibility within a stripe
  // ---------------------------------------------------------------------

  lemma StripeVisibility(w: World, a: nat, b: nat, s: nat)
    requires ValidWorld(w) && SameStripe(w, a, b) && Open(w, s)
    ensures a < s <==> b < s
  {
    if s in w.snaps {
      SameStripeSameVisibility(a, b, w.snaps, s);
    }
  }

  lemma InputTombstoneBelowTop(w: World, t: Tombstone)
    requires ValidWorld(w) && t in Tombstones(w.inp)
    ensures t.sn < w.top
  {
    var i := TombstoneSource(w.inp, t);
    assert SpanOk(w.inp[i]);
  }

  lemma VisiblyCoveredIsDead(w: World, e: Entry, s: nat)
    requires ValidWorld(w) && e.sn < w.top && VisiblyCovered(w, e) && Open(w, s)
    ensures !LiveAt(w, e, s)
  {
    var b := StripeBound(Stripe(e.sn, w.snaps), w.snaps);
    var t :| t in Tombstones(w.inp) && t.start <= e.key < t.end && e.sn < t.sn < b;
    InputTombstoneBelowTop(w, t);
    BelowBoundSameStripe(e.sn, t.sn, w.snaps);
    StripeVisibility(w, e.sn, t.sn, s);
    assert t in AllTombstones(w);
  }

  /** Within a stripe, an older entry that the stripe's own tombstones spare is
      deleted by exactly the tombstones that delete a newer one. */
  lemma SameLiveness(w: World, e: Entry, x: Entry, s: nat)
    requires ValidWorld(w) && Open(w, s)
    requires e.key == x.key && e.IsPoint() && x.IsPoint() && x.sn <= e.sn && SameStripe(w, e.sn, x.sn)
    requires !VisiblyCovered(w, x) && AboveLow(w, x)
    ensures LiveAt(w, e, s) <==> LiveAt(w, x, s)
  {
    StripeVisibility(w, e.sn, x.sn, s);
    var b := StripeBound(Stripe(x.sn, w.snaps), w.snaps);
    assert e.sn < b;
  }

  lemma DeadBelow(w: World, e: Entry, x: Entry, s: nat)
    requires ValidWorld(w) && Open(w, s)
    requires e.key == x.key && e.IsPoint() && x.sn <= e.sn && SameStripe(w, e.sn, x.sn)
    requires !LiveAt(w, e, s)
    ensures !LiveAt(w, x, s)
  {
    StripeVisibility(w, e.sn, x.sn, s);
    var ts := AllTombstones(w);
    if Covers(ts, e.key, e.sn, s) {
      var t :| t in ts && t.start <= e.key < t.end && e.sn < t.sn < s;
      assert x.sn < t.sn;
    }
  }

  // ---------------------------------------------------------------------
  // Rewrites
  // ---------------------------------------------------------------------

  /** Entries that hide every older entry of their key and stripe. */
  ghost predicate Hides(w: World, e: Entry) {
    e.IsPoint() && (e.IsSet() || e.IsTombstone() || VisiblyCovered(w, e))
  }

  lemma DropDead(w: World, e: Entry, rest: seq<Entry>)
    requires ValidWorld(w) && (!e.IsPoint() || (e.sn < w.top && VisiblyCovered(w, e)))
    ensures SameReads(w, [e] + rest, rest)
  {
    forall k: Key, s: nat | Open(w, s) ensures ReadOver(w, [e] + rest, k, s) == ReadOver(w, rest, k, s) {
      ReadHead(w, e, rest, k, s);
      if e.IsPoint() { VisiblyCoveredIsDead(w, e, s); }
    }
  }

  lemma DropHidden(w: World, e: Entry, x: Entry, rest: seq<Entry>)
    requires ValidWorld(w) && Hides(w, e)
    requires x.key == e.key && x.sn <= e.sn && SameStripe(w, e.sn, x.sn)
    ensures SameReads(w, [e, x] + rest, [e] + rest)
  {
    forall k: Key, s: nat | Open(w, s) ensures ReadOver(w, [e, x] + rest, k, s) == ReadOver(w, [e] + rest, k, s) {
      ReadTwo(w, e, x, rest, k, s);
      ReadHead(w, e, rest, k, s);
      if VisiblyCovered(w, e) { VisiblyCoveredIsDead(w, e, s); }
      if !LiveAt(w, e, s) { DeadBelow(w, e, x, s); }
    }
  }

  /** What a MERGE becomes when it meets an older entry of its stripe. */
  function MergeWith(e: Entry, x: Entry): Entry {
    if x.IsTombstone() then e.(kind := SetWithDelete)
    else e.(kind := if x.IsSet() then Set else Merge, value := x.value + e.value)
  }

  lemma CombineMerge(w: World, e: Entry, x: Entry, rest: seq<Entry>)
    requires ValidWorld(w) && e.kind.Merge? && x.IsPoint()
    requires x.key == e.key && x.sn <= e.sn && SameStripe(w, e.sn, x.sn)
    requires !VisiblyCovered(w, x) && AboveLow(w, x)
    ensures SameReads(w, [e, x] + rest, [MergeWith(e, x)] + rest)
  {
    var o := MergeWith(e, x);
    forall k: Key, s: nat | Open(w, s) ensures ReadOver(w, [e, x] + rest, k, s) == ReadOver(w, [o] + rest, k, s) {
      ReadTwo(w, e, x, rest, k, s);
      ReadHead(w, o, rest, k, s);
      SameLiveness(w, e, x, s);
      var r := ReadOver(w, rest, k, s);
      if r.Some? { assert r.value + x.value + e.value == r.value + (x.value + e.value); }
    }
  }

  ghost predicate NoPoints(es: seq<Entry>, k: Key) {
    forall i | 0 <= i < |es| :: es[i].key == k ==> !es[i].IsPoint()
  }

  /** A tombstone with nothing left to delete may go. */
  lemma DropLoneTombstone(w: World, e: Entry, rest: seq<Entry>)
    requires ValidWorld(w) && e.IsTombstone()
    requires NoPoints(rest, e.key) && NoPoints(w.low, e.key)
    ensures SameReads(w, [e] + rest, rest)
  {
    forall k: Key, s: nat | Open(w, s) ensures ReadOver(w, [e] + rest, k, s) == ReadOver(w, rest, k, s) {
      ReadHead(w, e, rest, k, s);
      if e.key == k {
        ReadNothing(rest + w.low, k, AllTombstones(w), s);
      }
    }
  }

  /** Nothing in rest can be read where the SINGLEDEL e is seen. */
  ghost predicate NothingBelow(w: World, e: Entry, rest: seq<Entry>) {
    forall s: nat | Open(w, s) && LiveAt(w, e, s) :: ReadOver(w, rest, e.key, s) == None
  }

  /** A SINGLEDEL and the write it meets may go together exactly when nothing
      below the write can be read where the SINGLEDEL is seen. */
  lemma CancelPair(w: World, e: Entry, x: Entry, rest: seq<Entry>)
    requires ValidWorld(w) && e.kind.SingleDelete? && x.IsPoint()
    requires x.key == e.key && x.sn <= e.sn && SameStripe(w, e.sn, x.sn)
    ensures SameReads(w, [e, x] + rest, rest) <==> NothingBelow(w, e, rest)
  {
    forall k: Key, s: nat | Open(w, s)
      ensures ReadOver(w, [e, x] + rest, k, s) ==
              if k == e.key && LiveAt(w, e, s) then None else ReadOver(w, rest, k, s)
    {
      ReadTwo(w, e, x, rest, k, s);
      if !LiveAt(w, e, s) { DeadBelow(w, e, x, s); }
    }
    if SameReads(w, [e, x] + rest, rest) {
      forall s: nat | Open(w, s) && LiveAt(w, e, s) ensures ReadOver(w, rest, e.key, s) == None {
        assert ReadOver(w, [e, x] + rest, e.key, s) == ReadOver(w, rest, e.key, s);
      }
    }
  }

  /** A key written twice and then deleted with SINGLEDEL: cancelling the pair
      brings the first write back. */
  lemma SingleDeleteMisuse()
    ensures var e, x, y := Entry(0.0, 3, SingleDelete, []), Entry(0.0, 2, Set, [7]), Entry(0.0, 1, Set, [8]);
            var w := World([e, x, y], [], 4, [], {});
            && ValidWorld(w) && Cancels(w, 0, 1)
            && ReadOver(w, w.inp, 0.0, 4) == None && ReadOver(w, w.inp[2..], 0.0, 4) == Some([8])
            && !SameReads(w, w.inp, w.inp[2..])
  {
    var e, x, y := Entry(0.0, 3, SingleDelete, []), Entry(0.0, 2, Set, [7]), Entry(0.0, 1, Set, [8]);
    var w := World([e, x, y], [], 4, [], {});
    NoTombstones(w.inp);
    hide Tombstones;
    assert w.inp[2..] == [y] && w.inp + w.low == [e, x] + [y];
    ReadTwo(w, e, x, [y], 0.0, 4);
    ReadHead(w, y, [], 0.0, 4);
    assert [y] + [] == [y] && [e, x] + [y] == w.inp;
    assert Read([] + w.low, 0.0, AllTombstones(w), 4) == None;
    assert ReadOver(w, [y], 0.0, 4) == Some([8]);
  }

  // ---------------------------------------------------------------------
  // Dropping the rest of a stripe
  // ---------------------------------------------------------------------

  /** es without the leading points of one user key and stripe. */
  ghost function DropStripe(w: World, es: seq<Entry>, k: Key, i: nat): (r: seq<Entry>)
    ensures |r| <= |es|
  {
    if es == [] || es[0].key != k || Stripe(es[0].sn, w.snaps) != i then es
    else if es[0].IsPoint() then DropStripe(w, es[1..], k, i)
    else [es[0]] + DropStripe(w, es[1..], k, i)
  }

  ghost predicate Below(w: World, e: Entry, rest: seq<Entry>) {
    forall i | 0 <= i < |rest| :: Before(e, rest[i]) && rest[i].sn < w.top
  }

  lemma {:induction false} DropHiddenStripe(w: World, e: Entry, rest: seq<Entry>)
    requires ValidWorld(w) && Hides(w, e) && e.sn < w.top && Below(w, e, rest)
    ensures SameReads(w, [e] + rest, [e] + DropStripe(w, rest, e.key, Stripe(e.sn, w.snaps)))
  {
    var i := Stripe(e.sn, w.snaps);
    if rest == [] || rest[0].key != e.key || Stripe(rest[0].sn, w.snaps) != i {
    } else {
      var x, tail := rest[0], rest[1..];
      assert rest == [x] + tail;
      DropHiddenStripe(w, e, tail);
      var dropped := DropStripe(w, tail, e.key, i);
      DropHidden(w, e, x, tail);
      assert [e] + rest == [e, x] + tail;
      if !x.IsPoint() {
        DropHidden(w, e, x, dropped);
        assert [e] + ([x] + dropped) == [e, x] + dropped;
      }
    }
  }

  /** In the last stripe, dropping the stripe drops every point of the key. */
  lemma {:induction false} DropLastStripe(w: World, e: Entry, rest: seq<Entry>)
    requires ValidWorld(w) && Sorted(rest) && Below(w, e, rest) && Stripe(e.sn, w.snaps) == 0
    ensures NoPoints(DropStripe(w, rest, e.key, 0), e.key)
  {
    if rest != [] {
      assert Before(e, rest[0]);
      if rest[0].key == e.key {
        StripeMonotone(rest[0].sn, e.sn, w.snaps);
        DropLastStripe(w, e, rest[1..]);
      } else {
        forall j | 0 <= j < |rest| ensures rest[j].key != e.key {
          assert j > 0 ==> Before(rest[0], rest[j]);
        }
      }
    }
  }

  lemma {:induction false} DropStripeKeeps(w: World, rest: seq<Entry>, k: Key, i: nat, x: Entry)
    requires x in DropStripe(w, rest, k, i)
    ensures x in rest
  {
    if rest == [] || rest[0].key != k || Stripe(rest[0].sn, w.snaps) != i {
    } else if rest[0].IsPoint() || x != rest[0] {
      DropStripeKeeps(w, rest[1..], k, i, x);
    }
  }

  // ---------------------------------------------------------------------
  // SINGLEDEL
  // ---------------------------------------------------------------------

  /** The situation in which a compaction cancels a SINGLEDEL at q against the
      write at p: one stripe, nothing else spared in between. */
  ghost predicate Cancels(w: World, q: nat, p: nat)
    requires q < p < |w.inp|
  {
    && w.inp[q].kind.SingleDelete? && (w.inp[p].kind.Set? || w.inp[p].kind.Merge?)
    && w.inp[q].key == w.inp[p].key && SameStripe(w, w.inp[q].sn, w.inp[p].sn)
    && (forall j | q < j < p :: w.inp[j].kind.SingleDelete? || VisiblyCovered(w, w.inp[j]))
    && !VisiblyCovered(w, w.inp[p])
  }

  /** Whenever a SINGLEDEL is cancelled against a write, nothing below that
      write can be read by those who saw the SINGLEDEL. */
  ghost predicate SingleDeleteSafe(w: World) {
    forall q, p | 0 <= q < p < |w.inp| && Cancels(w, q, p) :: NothingBelow(w, w.inp[q], w.inp[p + 1..])
  }

  /** The documented usage rule on the whole history of a key: below a
      SINGLEDEL, two writes never follow each other without a deletion between
      them. A SETWITHDEL records that such a deletion was compacted into it. */
  ghost predicate WrittenOnceDeletedOnce(h: seq<Entry>) {
    forall q, p, m | 0 <= q < p < m < |h| && h[q].key == h[p].key == h[m].key
                     && h[q].kind.SingleDelete? && (h[p].kind.Set? || h[p].kind.Merge?)
                     && (h[m].IsSet() || h[m].kind.Merge?) ::
      exists d :: p < d < m && h[d].key == h[q].key && h[d].IsTombstone()
  }

  /** Data below the compaction is older, point by point. */
  ghost predicate PointsOlder(w: World) {
    forall i, j | 0 <= i < |w.inp| && 0 <= j < |w.low| && w.inp[i].key == w.low[j].key ::
      w.low[j].sn < w.inp[i].sn
  }

  lemma UsageRuleIsSafe(w: World)
    requires ValidWorld(w) && PointsOlder(w) && Sorted(w.low)
    requires WrittenOnceDeletedOnce(w.inp + w.low)
    ensures SingleDeleteSafe(w)
  {
    forall q, p | 0 <= q < p < |w.inp| && Cancels(w, q, p)
      ensures NothingBelow(w, w.inp[q], w.inp[p + 1..])
    {
      assert (w.inp + w.low)[p + 1..] == w.inp[p + 1..] + w.low;
      forall s: nat | Open(w, s) && LiveAt(w, w.inp[q], s) ensures ReadOver(w, w.inp[p + 1..], w.inp[q].key, s) == None {
        BelowCancelled(w, q, p, p + 1, s);
      }
    }
  }

  /** No write is reached below a cancelled write without first meeting a
      tombstone of the same key. */
  lemma {:induction false} BelowCancelled(w: World, q: nat, p: nat, m: nat, s: nat)
    requires ValidWorld(w) && PointsOlder(w) && Sorted(w.low)
    requires WrittenOnceDeletedOnce(w.inp + w.low)
    requires q < p < |w.inp| && Cancels(w, q, p) && p < m <= |w.inp + w.low|
    requires forall d | p < d < m :: (w.inp + w.low)[d].key == w.inp[q].key ==> !(w.inp + w.low)[d].IsTombstone()
    requires Open(w, s) && w.inp[q].sn < s
    ensures Read((w.inp + w.low)[m..], w.inp[q].key, AllTombstones(w), s) == None
    decreases |w.inp + w.low| - m
  {
    hide Stripe, VisiblyCovered, Covers, LevelInvariant, AllTombstones;
    var h := w.inp + w.low;
    var k, ts := w.inp[q].key, AllTombstones(w);
    if m < |h| {
      assert h[m..][1..] == h[m + 1..];
      if h[m].key == k && h[m].IsTombstone() {
        assert m < |w.inp| ==> Before(w.inp[q], w.inp[m]);
        if !Live(h[m], k, ts, s) { DeadTail(w, k, m, s); }
      } else {
        BelowCancelled(w, q, p, m + 1, s);
        assert h[q] == w.inp[q] && h[p] == w.inp[p];
      }
    }
  }

  /** Whatever hides a tombstone from a reader hides everything older. */
  lemma DeadTail(w: World, k: Key, m: nat, s: nat)
    requires ValidWorld(w) && PointsOlder(w) && Sorted(w.low)
    requires m < |w.inp + w.low| && (w.inp + w.low)[m].key == k && (w.inp + w.low)[m].IsPoint()
    requires !Live((w.inp + w.low)[m], k, AllTombstones(w), s)
    requires (w.inp + w.low)[m].sn < s
    ensures Read((w.inp + w.low)[m + 1..], k, AllTombstones(w), s) == None
  {
    var h := w.inp + w.low;
    var ts := AllTombstones(w);
    var t :| t in ts && t.start <= k < t.end && h[m].sn < t.sn < s;
    var tail := h[m + 1..];
    forall i | 0 <= i < |tail| ensures !Live(tail[i], k, ts, s) {
      if tail[i].key == k && tail[i].IsPoint() {
        assert tail[i].sn < h[m].sn;
      }
    }
    ReadNothing(tail, k, ts, s);
  }
}
