/**
Ingestion (ingest.go): whether a table to be ingested overlaps the points and range
tombstones of a level, and what becomes of the order of sequence numbers when a
table is put into a level. Range keys come in with module Tables.
*/
module Ingestion {
  import opened Options
  import opened Lsm
  import opened History
  import opened InUseRanges
  import opened PointReads

  // ---------------------------------------------------------------------
  // Overlap
  // ---------------------------------------------------------------------

  predicate ProperBounds(m: Table) {
    if m.sentinel then m.smallest < m.largest else m.smallest <= m.largest
  }

  /** A fragment and a table's bounds have a key in common. */
  predicate SpanMeets(f: Fragment, m: Table) {
    m.smallest < f.end && (f.start < m.largest || (f.start == m.largest && !m.sentinel))
  }

  /** A table has a point or a range tombstone within bounds. */
  predicate FileOverlap(f: File, m: Table) {
    || (exists i :: 0 <= i < |f.points| && m.Contains(f.points[i].key))
    || (exists i :: 0 <= i < |f.spans| && SpanMeets(f.spans[i], m))
  }

  predicate DataOverlap(s: Source, m: Table) {
    exists f :: 0 <= f < |s.files| && FileOverlap(s.files[f], m)
  }

  /** The first fragment to look at: the last that starts before a key. */
  function SeekLT(fs: seq<Fragment>, k: Key): (i: nat)
    ensures i <= |fs|
    ensures i < |fs| && fs[i].start >= k ==> i == 0
    ensures 0 < i < |fs| ==> fs[i].start < k
    ensures i == |fs| ==> fs == []
    ensures forall j | i < j < |fs| && SpansOk(fs) :: k <= fs[j].start
  {
    if fs == [] then 0
    else if |fs| == 1 || fs[1].start >= k then 0
    else 1 + SeekLT(fs[1..], k)
  }

  /** computeOverlapWithSpans. */
  method SpansOverlap(fs: seq<Fragment>, m: Table) returns (r: bool)
    requires SpansOk(fs) && ProperBounds(m)
    ensures r <==> exists i :: 0 <= i < |fs| && SpanMeets(fs[i], m)
  {
    var i := SeekLT(fs, m.smallest);
    assert forall j | 0 <= j < i && i < |fs| :: fs[j].end <= fs[i].start;
    while i < |fs|
      invariant i <= |fs| && forall j | 0 <= j < i :: !SpanMeets(fs[j], m)
    {
      if m.largest < fs[i].start || (m.largest == fs[i].start && m.sentinel) {
        assert forall j | i < j < |fs| :: fs[i].end <= fs[j].start;
        return false;
      }
      if m.smallest < fs[i].end { return true; }
      i := i + 1;
    }
    r := false;
  }

  /** Tables that a seek passes over have nothing within bounds. */
  lemma PassedIsClear(s: Source, m: Table, f: nat)
    requires SourceOk(s) && !s.mem && f <= |s.files| && forall j | 0 <= j < f :: !ReachesTo(s.files[j], m.smallest)
    ensures forall j | 0 <= j < f :: !FileOverlap(s.files[j], m)
  {
    forall j | 0 <= j < f ensures !FileOverlap(s.files[j], m) {
      assert Bounded(s.files[j]);
    }
  }

  /** Tables after one that ends past the bounds have nothing within them. */
  lemma LaterIsClear(s: Source, m: Table, f: nat)
    requires SourceOk(s) && !s.mem && f < |s.files|
    requires m.largest < s.files[f].bounds.largest || (m.largest == s.files[f].bounds.largest && m.sentinel)
    ensures forall j | f < j < |s.files| :: !FileOverlap(s.files[j], m)
  {
    forall j | f < j < |s.files| ensures !FileOverlap(s.files[j], m) {
      assert Follows(s.files[f], s.files[j]) && Bounded(s.files[j]);
    }
  }

  /** overlapWithIterator on a level: true exactly when some point or range tombstone
      of the level lies within the bounds. One seek is enough: when it does not
      settle the question, only the table it stopped in can have a tombstone there. */
  method OverlapWithLevel(s: Source, m: Table) returns (r: bool)
    requires SourceOk(s) && !s.mem && ProperBounds(m)
    ensures r <==> DataOverlap(s, m)
  {
    hide SourceOk, FileOverlap;
    var f := FindFileGE(s.files, m.smallest);
    PassedIsClear(s, m, f);
    if f == |s.files| { return false; }
    var file := s.files[f];
    assert FileOk(file) && Bounded(file) by { FilesAreOk(s, f); }
    var i := SeekGE(file.points, m.smallest);
    if i < |file.points| {
      var key := file.points[i].key;
      if key < m.largest || (key == m.largest && !m.sentinel) {
        PointWithin(file, m, i);
        return true;
      }
    } else if file.bounds.largest <= m.largest {
      EndsWithin(file, m);
      return true;
    }
    LaterIsClear(s, m, f);
    r := SpansOverlap(file.spans, m);
    NoPointWithin(file, m, i);
  }

  lemma FilesAreOk(s: Source, f: nat)
    requires SourceOk(s) && !s.mem && f < |s.files|
    ensures FileOk(s.files[f]) && Bounded(s.files[f])
  {
  }

  lemma PointWithin(file: File, m: Table, i: nat)
    requires i < |file.points| && m.Contains(file.points[i].key)
    ensures FileOverlap(file, m)
  {
  }

  /** A table that ends with a range tombstone within the bounds, and after their start. */
  lemma EndsWithin(file: File, m: Table)
    requires FileOk(file) && Bounded(file) && file.bounds.sentinel && m.smallest < file.bounds.largest <= m.largest
    ensures FileOverlap(file, m)
  {
    var i :| 0 <= i < |file.spans| && file.spans[i].end == file.bounds.largest;
    assert SpanMeets(file.spans[i], m);
  }

  lemma NoPointWithin(file: File, m: Table, i: nat)
    requires FileOk(file) && i == SeekGE(file.points, m.smallest)
    requires i < |file.points| ==> m.largest < file.points[i].key || (m.largest == file.points[i].key && m.sentinel)
    ensures FileOverlap(file, m) <==> exists j :: 0 <= j < |file.spans| && SpanMeets(file.spans[j], m)
  {
    forall j | 0 <= j < |file.points| ensures !m.Contains(file.points[j].key) {
      if i < j { assert Before(file.points[i], file.points[j]); }
    }
  }

  // ---------------------------------------------------------------------
  // The store after an ingestion
  // ---------------------------------------------------------------------

  /** Table a ends before table b begins, in user keys. */
  predicate Ends(a: Table, b: Table) {
    a.largest < b.smallest || (a.largest == b.smallest && a.sentinel)
  }

  function Insert(fs: seq<File>, p: nat, g: File): seq<File>
    requires p <= |fs|
  {
    fs[..p] + [g] + fs[p..]
  }

  lemma EndsFollows(a: File, b: File)
    requires FileOk(a) && FileOk(b) && Bounded(a) && Bounded(b) && Ends(a.bounds, b.bounds)
    ensures Follows(a, b)
  {
    hide SpansOk, Sorted;
    forall i, j | 0 <= i < |a.points| && 0 <= j < |b.points| ensures a.points[i].key < b.points[j].key {
      assert a.bounds.Contains(a.points[i].key) && b.bounds.Contains(b.points[j].key);
    }
  }

  /** Place p of a level is one for a table: what is before it ends before the table, and
      what is after it begins after the table. */
  predicate Fits(fs: seq<File>, p: nat, m: Table) {
    && p <= |fs| && (forall i | 0 <= i < p :: Ends(fs[i].bounds, m)) && (forall i | p <= i < |fs| :: Ends(m, fs[i].bounds))
  }

  /** A level with a table put into its place is a level. */
  lemma InsertKeepsLevel(s: Source, p: nat, g: File)
    requires SourceOk(s) && !s.mem && FileOk(g) && Bounded(g) && Fits(s.files, p, g.bounds)
    ensures SourceOk(s.(files := Insert(s.files, p, g)))
  {
    hide FileOk, Bounded, Follows, Ends;
    var fs := s.files;
    var r := Insert(fs, p, g);
    forall i | 0 <= i < |r| ensures FileOk(r[i]) && Bounded(r[i]) {
      assert r[i] == if i < p then fs[i] else if i == p then g else fs[i - 1];
    }
    forall i, j | 0 <= i < j < |r| ensures Follows(r[i], r[j]) {
      if i == p {
        EndsFollows(g, r[j]);
      } else if j == p {
        EndsFollows(r[i], g);
      } else {
        assert r[i] == fs[if i < p then i else i - 1] && r[j] == fs[if j < p then j else j - 1];
      }
    }
  }

  /** All of a table's sequence numbers are the one it was ingested with. */
  predicate HasNumber(g: File, sn: nat) {
    && (forall i | 0 <= i < |g.points| :: g.points[i].sn == sn)
    && (forall i, x | 0 <= i < |g.spans| && x in g.spans[i].seqs :: x == sn)
  }

  ghost predicate Older(s: Source, sn: nat) {
    forall k: Key, x: nat | HoldsPoint(s, k, x) || HoldsSpan(s, k, x) :: x < sn
  }

  /** Anything about a key within bounds is data within them. */
  lemma HoldsOverlap(s: Source, m: Table, k: Key, x: nat)
    requires m.Contains(k)
    ensures HoldsPoint(s, k, x) || HoldsSpan(s, k, x) ==> DataOverlap(s, m)
  {
    if HoldsPoint(s, k, x) {
      var f, i :| 0 <= f < |s.files| && 0 <= i < |s.files[f].points| && s.files[f].points[i].key == k;
      assert FileOverlap(s.files[f], m);
    }
    if HoldsSpan(s, k, x) {
      var f :| 0 <= f < |s.files| && FragmentOver(s.files[f].spans, k, x);
      var i :| 0 <= i < |s.files[f].spans| && s.files[f].spans[i].start <= k < s.files[f].spans[i].end;
      assert SpanMeets(s.files[f].spans[i], m);
      assert FileOverlap(s.files[f], m);
    }
  }

  /** A key of the table: one of its points, or under one of its tombstones. */
  predicate About(g: File, k: Key) {
    || (exists i :: 0 <= i < |g.points| && g.points[i].key == k)
    || (exists i :: 0 <= i < |g.spans| && g.spans[i].start <= k < g.spans[i].end)
  }

  lemma AboutWithin(g: File, k: Key)
    requires Bounded(g) && About(g, k)
    ensures g.bounds.Contains(k)
  {
  }

  /** What a source with an additional table holds. */
  lemma HoldsAfter(fs: seq<File>, p: nat, g: File, mem: bool, k: Key, x: nat)
    requires p <= |fs|
    ensures HoldsPoint(Source(Insert(fs, p, g), mem, 0), k, x) ==>
              HoldsPoint(Source(fs, mem, 0), k, x) || exists i :: 0 <= i < |g.points| && g.points[i].key == k && g.points[i].sn == x
    ensures HoldsSpan(Source(Insert(fs, p, g), mem, 0), k, x) ==>
              HoldsSpan(Source(fs, mem, 0), k, x) || FragmentOver(g.spans, k, x)
  {
    hide FragmentOver;
    var r := Insert(fs, p, g);
    if HoldsPoint(Source(r, mem, 0), k, x) {
      var f, i :| 0 <= f < |r| && 0 <= i < |r[f].points| && r[f].points[i].key == k && r[f].points[i].sn == x;
      if f != p { assert r[f] == fs[if f < p then f else f - 1]; }
    }
    if HoldsSpan(Source(r, mem, 0), k, x) {
      var f :| 0 <= f < |r| && FragmentOver(r[f].spans, k, x);
      if f != p { assert r[f] == fs[if f < p then f else f - 1]; }
    }
  }

  lemma NumberHolds(g: File, sn: nat, k: Key, x: nat)
    requires HasNumber(g, sn)
    requires FragmentOver(g.spans, k, x) || exists i :: 0 <= i < |g.points| && g.points[i].key == k && g.points[i].sn == x
    ensures x == sn && About(g, k)
  {
  }

  lemma SameHolds(s: Source, t: Source, k: Key, x: nat)
    requires s.files == t.files
    ensures HoldsPoint(s, k, x) == HoldsPoint(t, k, x) && HoldsSpan(s, k, x) == HoldsSpan(t, k, x)
  {
  }

  /** What the level with the table holds is what it held, or the table's. */
  lemma InsertHolds(s: Source, p: nat, g: File, sn: nat, k: Key, x: nat)
    requires HasNumber(g, sn) && p <= |s.files|
    ensures var t := s.(files := Insert(s.files, p, g));
            && (HoldsPoint(t, k, x) ==> HoldsPoint(s, k, x) || (x == sn && About(g, k)))
            && (HoldsSpan(t, k, x) ==> HoldsSpan(s, k, x) || (x == sn && About(g, k)))
  {
    hide HoldsPoint, HoldsSpan, Insert, About, HasNumber;
    var r := Insert(s.files, p, g);
    HoldsAfter(s.files, p, g, s.mem, k, x);
    SameHolds(s, Source(s.files, s.mem, 0), k, x);
    SameHolds(s.(files := r), Source(r, s.mem, 0), k, x);
    var inPoints := exists i :: 0 <= i < |g.points| && g.points[i].key == k && g.points[i].sn == x;
    if FragmentOver(g.spans, k, x) || inPoints { NumberHolds(g, sn, k, x); }
  }

  /** A newer source without data within the table's bounds stays newer than the
      level with the table. */
  lemma NewerAbove(a: Source, s: Source, p: nat, g: File, sn: nat)
    requires Newer(a, s) && p <= |s.files| && Bounded(g) && HasNumber(g, sn) && !DataOverlap(a, g.bounds)
    ensures Newer(a, s.(files := Insert(s.files, p, g)))
  {
    hide HoldsPoint, HoldsSpan, Insert, About, HasNumber, DataOverlap;
    var t := s.(files := Insert(s.files, p, g));
    forall k: Key, x, y | HoldsPoint(a, k, x) && HoldsPoint(t, k, y) ensures y < x { InsertHolds(s, p, g, sn, k, y); NotAbout(a, g, k, x); }
    forall k: Key, x, y | HoldsPoint(a, k, x) && HoldsSpan(t, k, y) ensures y <= x { InsertHolds(s, p, g, sn, k, y); NotAbout(a, g, k, x); }
    forall k: Key, x, y | HoldsSpan(a, k, x) && HoldsPoint(t, k, y) ensures y < x { InsertHolds(s, p, g, sn, k, y); NotAbout(a, g, k, x); }
  }

  lemma NotAbout(a: Source, g: File, k: Key, x: nat)
    requires Bounded(g) && !DataOverlap(a, g.bounds) && (HoldsPoint(a, k, x) || HoldsSpan(a, k, x))
    ensures !About(g, k)
  {
    hide HoldsPoint, HoldsSpan, DataOverlap, Bounded, About;
    if About(g, k) {
      AboutWithin(g, k);
      HoldsOverlap(a, g.bounds, k, x);
    }
  }

  /** The level with the table is newer than what was older than both. */
  lemma NewerBelow(s: Source, b: Source, p: nat, g: File, sn: nat)
    requires Newer(s, b) && p <= |s.files| && HasNumber(g, sn) && Older(b, sn)
    ensures Newer(s.(files := Insert(s.files, p, g)), b)
  {
    hide HoldsPoint, HoldsSpan, Insert, About, HasNumber;
    var t := s.(files := Insert(s.files, p, g));
    forall k: Key, x, y | HoldsPoint(t, k, x) && HoldsPoint(b, k, y) ensures y < x { InsertHolds(s, p, g, sn, k, x); }
    forall k: Key, x, y | HoldsPoint(t, k, x) && HoldsSpan(b, k, y) ensures y <= x { InsertHolds(s, p, g, sn, k, x); }
    forall k: Key, x, y | HoldsSpan(t, k, x) && HoldsPoint(b, k, y) ensures y < x { InsertHolds(s, p, g, sn, k, x); }
  }

  /** Putting an ingested table into source n of the store keeps the order of
      sequence numbers, when nothing down to n lies within its bounds. */
  lemma IngestKeepsStore(all: seq<Source>, n: nat, p: nat, g: File, sn: nat)
    requires StoreOk(all) && n < |all| && !all[n].mem && FileOk(g) && Bounded(g) && HasNumber(g, sn) && Fits(all[n].files, p, g.bounds)
    requires forall i | 0 <= i <= n :: !DataOverlap(all[i], g.bounds)
    requires forall i | 0 <= i < |all| :: Older(all[i], sn)
    ensures StoreOk(all[n := all[n].(files := Insert(all[n].files, p, g))])
  {
    hide SourceOk, Newer, Insert, DataOverlap, Older, HasNumber, FileOk, Bounded;
    InsertKeepsLevel(all[n], p, g);
    forall i | 0 <= i < n ensures Newer(all[i], all[n].(files := Insert(all[n].files, p, g))) {
      NewerAbove(all[i], all[n], p, g, sn);
    }
    forall j | n < j < |all| ensures Newer(all[n].(files := Insert(all[n].files, p, g)), all[j]) {
      NewerBelow(all[n], all[j], p, g, sn);
    }
  }
}
