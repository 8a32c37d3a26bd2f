/**
The vocabulary shared by the models of the store: user keys, internal keys,
range tombstones, snapshot stripes, and what a read at a sequence number
returns.

User keys are modelled by real numbers. The store only ever compares them, and
every countable total order (byte strings under any comparer included) embeds
in the reals, so nothing below depends on more than the order.

Merging is concatenation, older operand first. This is the store's default
merger, and concatenation is the free associative operation: what holds for it
holds for every associative merger.
*/
module Lsm {
  import opened Options

  type Key = real
  type Byte = x: int | 0 <= x < 256
  type Value = seq<Byte>

  /** InternalKeySeqNumMax: larger than the sequence number of any stored key. */
  const SEQ_MAX: nat := 0xFF_FFFF_FFFF_FFFF


  /** The point kinds, and the interleaved form of a range tombstone span: its
      end key and the sequence numbers it carries, newest first. */
  datatype Kind =
    | Delete
    | Set
    | Merge
    | SingleDelete
    | SetWithDelete
    | DeleteSized
    | RangeDelete(end: Key, seqs: seq<nat>)

  datatype Entry = Entry(key: Key, sn: nat, kind: Kind, value: Value) {
    predicate IsPoint() { !kind.RangeDelete? }
    predicate IsTombstone() { kind.Delete? || kind.SingleDelete? || kind.DeleteSized? }
    predicate IsSet() { kind.Set? || kind.SetWithDelete? }
  }

  datatype Tombstone = Tombstone(start: Key, end: Key, sn: nat)

  // ---------------------------------------------------------------------
  // Range tombstones
  // ---------------------------------------------------------------------

  function SpanTombstones(e: Entry): set<Tombstone> {
    if e.kind.RangeDelete? then
      set i | 0 <= i < |e.kind.seqs| :: Tombstone(e.key, e.kind.end, e.kind.seqs[i])
    else {}
  }

  ghost function Tombstones(es: seq<Entry>): set<Tombstone> {
    if es == [] then {} else Tombstones(es[..|es| - 1]) + SpanTombstones(es[|es| - 1])
  }

  /** Some tombstone of ts over k is newer than sn and visible at s. */
  predicate Covers(ts: set<Tombstone>, k: Key, sn: nat, s: nat) {
    exists t :: t in ts && t.start <= k < t.end && sn < t.sn < s
  }

  lemma {:induction false} TombstoneOf(es: seq<Entry>, i: nat)
    requires i < |es|
    ensures SpanTombstones(es[i]) <= Tombstones(es)
  {
    if i < |es| - 1 {
      TombstoneOf(es[..|es| - 1], i);
    }
  }

  lemma {:induction false} TombstoneSource(es: seq<Entry>, t: Tombstone) returns (i: nat)
    requires t in Tombstones(es)
    ensures i < |es| && t in SpanTombstones(es[i])
  {
    if t in SpanTombstones(es[|es| - 1]) {
      i := |es| - 1;
    } else {
      i := TombstoneSource(es[..|es| - 1], t);
    }
  }

  /** A fragment of the key space and the sequence numbers of the range
      tombstones over it, newest first. */
  datatype Fragment = Fragment(start: Key, end: Key, seqs: seq<nat>)

  predicate Descending(s: seq<nat>) {
    forall i, j | 0 <= i < j < |s| :: s[j] <= s[i]
  }

  /** A tombstone of ts with number sn is over k. */
  predicate OverKey(ts: set<Tombstone>, k: Key, sn: nat) {
    exists t :: t in ts && t.start <= k < t.end && t.sn == sn
  }

  predicate FragmentOver(fs: seq<Fragment>, k: Key, sn: nat) {
    exists i :: 0 <= i < |fs| && fs[i].start <= k < fs[i].end && sn in fs[i].seqs
  }

  lemma CoversBy(ts: set<Tombstone>, k: Key, sn: nat, s: nat)
    ensures Covers(ts, k, sn, s) <==> exists x: nat :: OverKey(ts, k, x) && sn < x < s
  {
    if Covers(ts, k, sn, s) {
      var t :| t in ts && t.start <= k < t.end && sn < t.sn < s;
      assert OverKey(ts, k, t.sn);
    }
  }

  // ---------------------------------------------------------------------
  // Snapshot stripes
  // ---------------------------------------------------------------------

  predicate Ascending(snaps: seq<nat>) {
    forall i, j | 0 <= i < j < |snaps| :: snaps[i] <= snaps[j]
  }

  /** The stripe of a sequence number: the index of the first snapshot that is
      strictly greater, which is the first snapshot that sees it. */
  function Stripe(sn: nat, snaps: seq<nat>): (i: nat)
    ensures i <= |snaps|
    ensures forall j | 0 <= j < i :: snaps[j] <= sn
    ensures i < |snaps| ==> sn < snaps[i]
  {
    if snaps == [] || sn < snaps[0] then 0
    else 1 + Stripe(sn, snaps[1..])
  }

  /** The sequence number of the snapshot that bounds a stripe from above. */
  function StripeBound(i: nat, snaps: seq<nat>): nat {
    if i < |snaps| then snaps[i] else SEQ_MAX
  }

  /** Two sequence numbers of one stripe are seen by the same snapshots. */
  lemma SameStripeSameVisibility(a: nat, b: nat, snaps: seq<nat>, s: nat)
    requires Ascending(snaps) && s in snaps
    requires Stripe(a, snaps) == Stripe(b, snaps)
    ensures a < s <==> b < s
  {
    var j :| 0 <= j < |snaps| && snaps[j] == s;
    StripeSees(a, snaps, j);
    StripeSees(b, snaps, j);
  }

  lemma StripeSees(a: nat, snaps: seq<nat>, j: nat)
    requires Ascending(snaps) && j < |snaps|
    ensures a < snaps[j] <==> Stripe(a, snaps) <= j
  {
    var i := Stripe(a, snaps);
    if i < j { assert snaps[i] <= snaps[j]; }
  }

  lemma StripeMonotone(a: nat, b: nat, snaps: seq<nat>)
    requires Ascending(snaps) && a <= b
    ensures Stripe(a, snaps) <= Stripe(b, snaps)
  {
    var i := Stripe(b, snaps);
    if i < |snaps| { StripeSees(a, snaps, i); }
  }

  /** A number between a key and the bound of the key's stripe is in that stripe. */
  lemma BelowBoundSameStripe(a: nat, t: nat, snaps: seq<nat>)
    requires Ascending(snaps) && a <= t < StripeBound(Stripe(a, snaps), snaps)
    ensures Stripe(t, snaps) == Stripe(a, snaps)
  {
    StripeMonotone(a, t, snaps);
    var i := Stripe(a, snaps);
    if i < |snaps| { StripeSees(t, snaps, i); }
  }

  // ---------------------------------------------------------------------
  // Reads
  // ---------------------------------------------------------------------

  /** Whether entry e takes part in a read of k at s under tombstones ts. */
  predicate Live(e: Entry, k: Key, ts: set<Tombstone>, s: nat) {
    e.key == k && e.IsPoint() && e.sn < s && !Covers(ts, k, e.sn, s)
  }

  /** The value after entry e is laid over an older value. Readers treat every
      point tombstone alike. */
  function Over(e: Entry, older: Option<Value>): Option<Value> {
    match e.kind
    case Set => Some(e.value)
    case SetWithDelete => Some(e.value)
    case Merge => if older.Some? then Some(older.value + e.value) else Some(e.value)
    case Delete => None
    case SingleDelete => None
    case DeleteSized => None
    case RangeDelete(_, _) => older
  }

  /** What a read of k at s returns from a history listed newest first. */
  function Read(es: seq<Entry>, k: Key, ts: set<Tombstone>, s: nat): Option<Value> {
    if es == [] then None
    else
      var older := Read(es[1..], k, ts, s);
      if Live(es[0], k, ts, s) then Over(es[0], older) else older
  }

  /** A read looks at an older part of the history only through its result. */
  lemma {:induction false} ReadCongruence(a: seq<Entry>, b: seq<Entry>, c: seq<Entry>, k: Key, ts: set<Tombstone>, s: nat)
    requires Read(b, k, ts, s) == Read(c, k, ts, s)
    ensures Read(a + b, k, ts, s) == Read(a + c, k, ts, s)
  {
    if a == [] {
      assert a + b == b && a + c == c;
    } else {
      ReadCongruence(a[1..], b, c, k, ts, s);
      assert (a + b)[1..] == a[1..] + b && (a + c)[1..] == a[1..] + c;
    }
  }

  lemma {:induction false} ReadNothing(es: seq<Entry>, k: Key, ts: set<Tombstone>, s: nat)
    requires forall i | 0 <= i < |es| :: !Live(es[i], k, ts, s)
    ensures Read(es, k, ts, s) == None
  {
    if es != [] {
      ReadNothing(es[1..], k, ts, s);
    }
  }
}
