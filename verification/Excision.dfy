/**
Cutting a table in two (excise in ingest.go): a table is replaced by virtual tables
for the parts of it before and after a span, points, range tombstones and range
keys alike, each kind with bounds of its own.
*/
module Excision {
  import opened Options
  import opened Lsm
  import opened History
  import opened InUseRanges
  import opened PointReads
  import opened Ingestion
  import opened Tables

  /** Span [start, end) overlaps a table. */
  predicate SpanOverlaps(start: Key, end: Key, m: Table) {
    (start < m.largest || (start == m.largest && !m.sentinel)) && m.smallest < end
  }

  /** Span [start, end) contains a table's largest bound. */
  predicate ContainsLargest(start: Key, end: Key, m: Table) {
    (m.largest < end || (m.largest == end && m.sentinel)) && start <= m.largest
  }

  /** Of two upper bounds, a point's key and the end of a tombstone, the later one. A
      point is after a sentinel of the same key. */
  function Later(key: Option<Key>, end: Option<Key>): (Key, bool)
    requires key.Some? || end.Some?
  {
    if end.None? || (key.Some? && end.value <= key.value) then (key.value, false) else (end.value, true)
  }

  function LastKey(ps: seq<Entry>): Option<Key> {
    if ps == [] then None else Some(ps[|ps| - 1].key)
  }

  function LastEnd(fs: seq<Fragment>): Option<Key> {
    if fs == [] then None else Some(fs[|fs| - 1].end)
  }

  /** The number of fragments that start before a key. */
  function StartingBefore(fs: seq<Fragment>, k: Key): (n: nat)
    ensures n <= |fs| && (forall i | 0 <= i < n :: fs[i].start < k) && (n < |fs| ==> k <= fs[n].start)
  {
    if fs == [] || k <= fs[0].start then 0 else 1 + StartingBefore(fs[1..], k)
  }

  /** The number of fragments that end at or before a key. */
  function EndingBy(fs: seq<Fragment>, k: Key): (n: nat)
    ensures n <= |fs| && (forall i | 0 <= i < n :: fs[i].end <= k) && (n < |fs| ==> k < fs[n].end)
  {
    if fs == [] || k < fs[0].end then 0 else 1 + EndingBy(fs[1..], k)
  }

  /** Fragments up to a key: the last one may be cut short. */
  function SpansBefore(fs: seq<Fragment>, k: Key): seq<Fragment> {
    var n := StartingBefore(fs, k);
    if n == 0 then []
    else
      var f := fs[n - 1];
      fs[..n - 1] + [Fragment(f.start, if f.end < k then f.end else k, f.seqs)]
  }

  /** Fragments from a key on: the first one may be cut short. */
  function SpansFrom(fs: seq<Fragment>, k: Key): seq<Fragment> {
    var n := EndingBy(fs, k);
    if n == |fs| then []
    else
      var f := fs[n];
      fs[n..][0 := Fragment(if f.start < k then k else f.start, f.end, f.seqs)]
  }

  /** What is to the left of a key of one part of a table: the part's points and spans
      before the key. */
  function LeftFile(f: File, k: Key): (r: Option<File>)
  {
    var points, spans := f.points[..SeekGE(f.points, k)], SpansBefore(f.spans, k);
    if points == [] && spans == [] then None
    else
      var (largest, sentinel) := Later(LastKey(points), LastEnd(spans));
      Some(File(points, spans, Table(f.bounds.smallest, largest, sentinel), f.absent))
  }

  /** What there is from a key on. */
  function RightFile(f: File, k: Key): (r: Option<File>)
  {
    var points, spans := f.points[SeekGE(f.points, k)..], SpansFrom(f.spans, k);
    if points == [] && spans == [] then None
    else
      var smallest := if points == [] || (spans != [] && spans[0].start < points[0].key) then spans[0].start else points[0].key;
      Some(File(points, spans, Table(smallest, f.bounds.largest, f.bounds.sentinel), f.absent))
  }

  // ---------------------------------------------------------------------
  // Cutting sorted fragments
  // ---------------------------------------------------------------------

  predicate SpanWithin(f: Fragment, fs: seq<Fragment>) {
    exists j :: 0 <= j < |fs| && fs[j].start <= f.start && f.end <= fs[j].end
  }

  predicate SpansWithin(a: seq<Fragment>, b: seq<Fragment>) {
    forall i | 0 <= i < |a| :: SpanWithin(a[i], b)
  }

  /** Fragment a is fragment b, perhaps cut short at either end. */
  predicate Piece(a: Fragment, b: Fragment) {
    b.start <= a.start < a.end <= b.end && a.seqs == b.seqs
  }

  predicate Pieces(r: seq<Fragment>, fs: seq<Fragment>, n: nat) {
    n + |r| <= |fs| && forall i | 0 <= i < |r| :: Piece(r[i], fs[n + i])
  }

  /** Pieces of consecutive fragments are fragments in order. */
  lemma PiecesAreSorted(r: seq<Fragment>, fs: seq<Fragment>, n: nat)
    requires SpansOk(fs) && Pieces(r, fs, n)
    ensures SpansOk(r) && SpansWithin(r, fs)
  {
    forall i | 0 <= i < |r|
      ensures r[i].start < r[i].end && r[i].seqs != [] && Descending(r[i].seqs) && SpanWithin(r[i], fs)
    {
      assert Piece(r[i], fs[n + i]);
    }
    forall i, j | 0 <= i < j < |r| ensures r[i].end <= r[j].start {
      assert Piece(r[i], fs[n + i]) && Piece(r[j], fs[n + j]);
    }
    forall i, j | 0 <= i < |r| && 0 <= j < |r[i].seqs| ensures r[i].seqs[j] < SEQ_MAX {
      assert Piece(r[i], fs[n + i]);
    }
  }

  /** A key under a piece is under the whole, and under its number. */
  lemma PiecesCover(r: seq<Fragment>, fs: seq<Fragment>, n: nat, x: Key, sn: nat)
    requires Pieces(r, fs, n) && FragmentOver(r, x, sn)
    ensures FragmentOver(fs, x, sn)
  {
    var i :| 0 <= i < |r| && r[i].start <= x < r[i].end && sn in r[i].seqs;
    assert Piece(r[i], fs[n + i]);
  }

  lemma BeforePieces(fs: seq<Fragment>, k: Key)
    requires SpansOk(fs)
    ensures var r := SpansBefore(fs, k); Pieces(r, fs, 0) && forall i | 0 <= i < |r| :: r[i].end <= k
  {
    hide Descending;
    var r := SpansBefore(fs, k);
    forall i | 0 <= i < |r| ensures Piece(r[i], fs[i]) && r[i].end <= k {
      if i < |r| - 1 { assert fs[i].end <= fs[|r| - 1].start; }
    }
  }

  lemma FromPieces(fs: seq<Fragment>, k: Key)
    requires SpansOk(fs)
    ensures var r := SpansFrom(fs, k); Pieces(r, fs, EndingBy(fs, k)) && forall i | 0 <= i < |r| :: k <= r[i].start
  {
    var n, r := EndingBy(fs, k), SpansFrom(fs, k);
    hide Descending, EndingBy;
    forall i | 0 <= i < |r| ensures Piece(r[i], fs[n + i]) && k <= r[i].start {
      FromAt(fs, k, i);
    }
  }

  lemma FromAt(fs: seq<Fragment>, k: Key, i: nat)
    requires SpansOk(fs) && EndingBy(fs, k) + i < |fs|
    ensures |SpansFrom(fs, k)| == |fs| - EndingBy(fs, k)
    ensures Piece(SpansFrom(fs, k)[i], fs[EndingBy(fs, k) + i]) && k <= SpansFrom(fs, k)[i].start
    ensures SpansFrom(fs, k)[i].end == fs[EndingBy(fs, k) + i].end
    ensures SpansFrom(fs, k)[i].start == k || SpansFrom(fs, k)[i].start == fs[EndingBy(fs, k) + i].start
  {
  }

  /** A cut loses no coverage on its side of the key, and keeps none of the other. */
  lemma BeforeCovers(fs: seq<Fragment>, k: Key, x: Key, sn: nat)
    requires SpansOk(fs)
    ensures FragmentOver(SpansBefore(fs, k), x, sn) <==> FragmentOver(fs, x, sn) && x < k
  {
    var r := SpansBefore(fs, k);
    BeforePieces(fs, k);
    if FragmentOver(r, x, sn) { PiecesCover(r, fs, 0, x, sn); }
    if FragmentOver(fs, x, sn) && x < k {
      var i :| 0 <= i < |fs| && fs[i].start <= x < fs[i].end && sn in fs[i].seqs;
      StartsBefore(fs, k, i);
      assert r[i].start <= x < r[i].end && sn in r[i].seqs;
    }
  }

  lemma StartsBefore(fs: seq<Fragment>, k: Key, i: nat)
    requires SpansOk(fs) && i < |fs| && fs[i].start < k
    ensures i < StartingBefore(fs, k)
  {
  }

  lemma FromCovers(fs: seq<Fragment>, k: Key, x: Key, sn: nat)
    requires SpansOk(fs)
    ensures FragmentOver(SpansFrom(fs, k), x, sn) <==> FragmentOver(fs, x, sn) && k <= x
  {
    hide SpansOk, SpansFrom, EndingBy, Pieces;
    var n, r := EndingBy(fs, k), SpansFrom(fs, k);
    FromPieces(fs, k);
    if FragmentOver(r, x, sn) { PiecesCover(r, fs, n, x, sn); }
    if FragmentOver(fs, x, sn) && k <= x {
      var i :| 0 <= i < |fs| && fs[i].start <= x < fs[i].end && sn in fs[i].seqs;
      var j := i - n;
      FromAt(fs, k, j);
      assert r[j].start <= x < r[j].end && sn in r[j].seqs;
    }
  }

  // ---------------------------------------------------------------------
  // The two virtual tables
  // ---------------------------------------------------------------------

  /** Table a is a part of table b: its bounds, points and tombstones lie within b's. */
  predicate Part(a: File, b: File) {
    && b.bounds.smallest <= a.bounds.smallest
    && (a.bounds.largest < b.bounds.largest || (a.bounds.largest == b.bounds.largest && (b.bounds.sentinel ==> a.bounds.sentinel)))
    && (forall i | 0 <= i < |a.points| :: a.points[i] in b.points)
    && SpansWithin(a.spans, b.spans)
  }

  lemma LeftIsATable(f: File, k: Key)
    requires FileOk(f) && Bounded(f) && LeftFile(f, k).Some?
    ensures FileOk(LeftFile(f, k).value) && Bounded(LeftFile(f, k).value) && Part(LeftFile(f, k).value, f)
  {
    var r := LeftFile(f, k).value;
    BeforePieces(f.spans, k);
    PiecesAreSorted(r.spans, f.spans, 0);
    assert r.points <= f.points;
    LeftTight(f, k, r);
  }

  lemma LeftTight(f: File, k: Key, r: File)
    requires FileOk(f) && Bounded(f) && LeftFile(f, k) == Some(r)
    ensures Bounded(r)
  {
  }

  /** With tight bounds, there is something before the key exactly when the table
      begins before it. */
  lemma LeftExists(f: File, k: Key)
    requires FileOk(f) && Bounded(f)
    ensures LeftFile(f, k).Some? <==> f.bounds.smallest < k
    ensures LeftFile(f, k).Some? ==> Ends(LeftFile(f, k).value.bounds, Table(k, k, false))
  {
  }

  lemma RightIsATable(f: File, k: Key)
    requires FileOk(f) && Bounded(f) && RightFile(f, k).Some?
    ensures FileOk(RightFile(f, k).value) && Bounded(RightFile(f, k).value) && Part(RightFile(f, k).value, f)
    ensures k <= RightFile(f, k).value.bounds.smallest
  {
    var r := RightFile(f, k).value;
    FromPieces(f.spans, k);
    PiecesAreSorted(r.spans, f.spans, EndingBy(f.spans, k));
    SuffixSorted(f, k);
    RightFrom(f, k, r);
    RightTight(f, k, r);
  }

  lemma SuffixSorted(f: File, k: Key)
    requires FileOk(f)
    ensures var r := f.points[SeekGE(f.points, k)..];
            Sorted(r) && forall i | 0 <= i < |r| :: r[i] in f.points && k <= r[i].key
  {
    hide SpansOk, SeekGE;
    var n := SeekGE(f.points, k);
    var r := f.points[n..];
    forall i | 0 <= i < |r| ensures r[i] in f.points && k <= r[i].key {
      assert r[i] == f.points[n + i];
      if 0 < i { assert Before(f.points[n], f.points[n + i]); }
    }
  }

  lemma RightFrom(f: File, k: Key, r: File)
    requires FileOk(f) && Bounded(f) && RightFile(f, k) == Some(r)
    requires forall i | 0 <= i < |r.points| :: r.points[i] in f.points && k <= r.points[i].key
    requires SpansWithin(r.spans, f.spans) && forall i | 0 <= i < |r.spans| :: k <= r.spans[i].start
    ensures k <= r.bounds.smallest && Part(r, f)
  {
    hide FileOk, SpansFrom, SeekGE, Sorted;
  }

  lemma RightTight(f: File, k: Key, r: File)
    requires FileOk(f) && Bounded(f) && RightFile(f, k) == Some(r) && FileOk(r) && Part(r, f)
    ensures Bounded(r)
  {
    RightLargest(f, k, r);
    hide SpansFrom, SeekGE, Descending, FileOk;
    forall i | 0 <= i < |r.points| ensures r.bounds.Contains(r.points[i].key) {
      FirstPoint(r, i);
      assert f.bounds.Contains(r.points[i].key);
    }
    forall i | 0 <= i < |r.spans| ensures r.bounds.smallest <= r.spans[i].start && r.spans[i].end <= r.bounds.largest {
      FirstSpan(r, i);
      assert SpanWithin(r.spans[i], f.spans);
    }
  }

  lemma FirstPoint(r: File, i: nat)
    requires FileOk(r) && i < |r.points|
    ensures r.points[0].key <= r.points[i].key
  {
    if 0 < i { assert Before(r.points[0], r.points[i]); }
  }

  lemma FirstSpan(r: File, i: nat)
    requires FileOk(r) && i < |r.spans|
    ensures r.spans[0].start <= r.spans[i].start < r.spans[i].end
  {
  }

  lemma RightLargest(f: File, k: Key, r: File)
    requires FileOk(f) && Bounded(f) && RightFile(f, k) == Some(r)
    ensures if f.bounds.sentinel then exists i :: 0 <= i < |r.spans| && r.spans[i].end == f.bounds.largest
            else r.points != [] && r.points[|r.points| - 1].key == f.bounds.largest
  {
    RightExists(f, k);
    hide SpansFrom, SeekGE, Sorted, SpansOk;
    if f.bounds.sentinel {
      var i :| 0 <= i < |f.spans| && f.spans[i].end == f.bounds.largest;
      var j := EndKept(f.spans, k, i);
      assert r.spans[j].end == f.bounds.largest;
    }
  }

  lemma EndKept(fs: seq<Fragment>, k: Key, i: nat) returns (j: nat)
    requires SpansOk(fs) && i < |fs| && k < fs[i].end
    ensures j < |SpansFrom(fs, k)| && SpansFrom(fs, k)[j].end == fs[i].end
  {
    j := i - EndingBy(fs, k);
    FromAt(fs, k, j);
  }

  lemma RightExists(f: File, k: Key)
    requires FileOk(f) && Bounded(f)
    ensures RightFile(f, k).Some? <==> k < f.bounds.largest || (k == f.bounds.largest && !f.bounds.sentinel)
  {
  }

  // ---------------------------------------------------------------------
  // What the two sides hold
  // ---------------------------------------------------------------------

  lemma LeftPoints(f: File, k: Key, e: Entry)
    requires FileOk(f)
    ensures e in f.points[..SeekGE(f.points, k)] <==> e in f.points && e.key < k
  {
    hide SpansOk;
    var n := SeekGE(f.points, k);
    if e in f.points && e.key < k {
      var i :| 0 <= i < |f.points| && f.points[i] == e;
      assert f.points[..n][i] == e;
    }
  }

  lemma RightPoints(f: File, k: Key, e: Entry)
    requires FileOk(f)
    ensures e in f.points[SeekGE(f.points, k)..] <==> e in f.points && k <= e.key
  {
    hide SpansOk, SeekGE;
    var n := SeekGE(f.points, k);
    SuffixSorted(f, k);
    if e in f.points && k <= e.key {
      var i :| 0 <= i < |f.points| && f.points[i] == e;
      assert f.points[n..][i - n] == e;
    }
  }

  lemma LeftHas(f: File, k: Key, e: Entry, x: Key, sn: nat)
    requires FileOk(f)
    ensures (LeftFile(f, k).Some? && e in LeftFile(f, k).value.points) <==> e in f.points && e.key < k
    ensures (LeftFile(f, k).Some? && FragmentOver(LeftFile(f, k).value.spans, x, sn)) <==> FragmentOver(f.spans, x, sn) && x < k
  {
    LeftPoints(f, k, e);
    BeforeCovers(f.spans, k, x, sn);
    hide FileOk, SeekGE, SpansBefore;
  }

  lemma RightHas(f: File, k: Key, e: Entry, x: Key, sn: nat)
    requires FileOk(f)
    ensures (RightFile(f, k).Some? && e in RightFile(f, k).value.points) <==> e in f.points && k <= e.key
    ensures (RightFile(f, k).Some? && FragmentOver(RightFile(f, k).value.spans, x, sn)) <==> FragmentOver(f.spans, x, sn) && k <= x
  {
    RightPoints(f, k, e);
    FromCovers(f.spans, k, x, sn);
    hide FileOk, SeekGE, SpansFrom;
  }

  // ---------------------------------------------------------------------
  // Excising a span
  // ---------------------------------------------------------------------

  /** The left part for points, or for range keys, unless the part begins within the span. */
  function LeftPart(p: Option<File>, start: Key, end: Key): Option<File> {
    if p.None? || start <= p.value.bounds.smallest < end then None else LeftFile(p.value, start)
  }

  /** The right part, unless the part ends within the span. */
  function RightPart(p: Option<File>, start: Key, end: Key): Option<File> {
    if p.None? || ContainsLargest(start, end, p.value.bounds) then None else RightFile(p.value, end)
  }

  function Keep(pts: Option<File>, rks: Option<File>): seq<Sst> {
    if pts.None? && rks.None? then [] else [Sst(pts, rks)]
  }

  /** excise: None when the span does not touch the table, and otherwise the tables
      that replace it. */
  function Excise(t: Sst, start: Key, end: Key): (r: Option<seq<Sst>>) {
    var m := BoundsOf(t);
    if !SpanOverlaps(start, end, m) then None
    else
      Some((if m.smallest < start then Keep(LeftPart(t.pts, start, end), LeftPart(t.rks, start, end)) else [])
           + (if ContainsLargest(start, end, m) then [] else Keep(RightPart(t.pts, start, end), RightPart(t.rks, start, end))))
  }

  predicate HasEntry(t: Sst, e: Entry) { t.pts.Some? && e in t.pts.value.points }

  /** A range tombstone of the table with number sn is over key x. */
  predicate DelOver(t: Sst, x: Key, sn: nat) { t.pts.Some? && FragmentOver(t.pts.value.spans, x, sn) }

  /** A range key of the table with number sn is over key x. */
  predicate RangeOver(t: Sst, x: Key, sn: nat) { t.rks.Some? && FragmentOver(t.rks.value.spans, x, sn) }

  predicate HasPoint(ts: seq<Sst>, e: Entry) { exists i :: 0 <= i < |ts| && HasEntry(ts[i], e) }

  predicate HasDel(ts: seq<Sst>, x: Key, sn: nat) { exists i :: 0 <= i < |ts| && DelOver(ts[i], x, sn) }

  predicate HasRange(ts: seq<Sst>, x: Key, sn: nat) { exists i :: 0 <= i < |ts| && RangeOver(ts[i], x, sn) }

  predicate BoundsWithin(a: Table, b: Table) {
    && b.smallest <= a.smallest
    && (a.largest < b.largest || (a.largest == b.largest && (b.sentinel ==> a.sentinel)))
  }

  predicate PartOfPart(a: Option<File>, b: Option<File>) {
    a.Some? ==> b.Some? && Part(a.value, b.value)
  }

  /** Table a is a part of table b: its bounds and all it holds lie within b's. */
  predicate SstPart(a: Sst, b: Sst) {
    PartOfPart(a.pts, b.pts) && PartOfPart(a.rks, b.rks) && BoundsWithin(BoundsOf(a), BoundsOf(b))
  }

  // The parts without the gates

  function LeftOf(p: Option<File>, k: Key): Option<File> { if p.None? then None else LeftFile(p.value, k) }

  function RightOf(p: Option<File>, k: Key): Option<File> { if p.None? then None else RightFile(p.value, k) }

  function Left(t: Sst, k: Key): seq<Sst> { Keep(LeftOf(t.pts, k), LeftOf(t.rks, k)) }

  function Right(t: Sst, k: Key): seq<Sst> { Keep(RightOf(t.pts, k), RightOf(t.rks, k)) }

  lemma LeftGate(p: Option<File>, start: Key, end: Key)
    requires PartOk(p)
    ensures LeftPart(p, start, end) == LeftOf(p, start) && (LeftOf(p, start).Some? <==> p.Some? && p.value.bounds.smallest < start)
  {
    hide FileOk, Bounded, LeftFile;
    if p.Some? { LeftExists(p.value, start); }
  }

  lemma RightGate(p: Option<File>, start: Key, end: Key)
    requires PartOk(p)
    ensures RightPart(p, start, end) == RightOf(p, end)
    ensures RightOf(p, end).Some? <==> p.Some? && (end < p.value.bounds.largest || (end == p.value.bounds.largest && !p.value.bounds.sentinel))
  {
    hide FileOk, Bounded, RightFile;
    if p.Some? { RightExists(p.value, end); }
  }

  /** The gates agree with what the two sides hold: there is a table on a side exactly
      when the gate for the whole table lets one be made. */
  lemma Gates(t: Sst, start: Key, end: Key)
    requires SstOk(t) && start <= end && SpanOverlaps(start, end, BoundsOf(t))
    ensures Excise(t, start, end) == Some(Left(t, start) + Right(t, end))
    ensures |Left(t, start)| == (if BoundsOf(t).smallest < start then 1 else 0)
    ensures |Right(t, end)| == (if ContainsLargest(start, end, BoundsOf(t)) then 0 else 1)
  {
    hide PartOk, LeftPart, RightPart, LeftOf, RightOf;
    LeftGate(t.pts, start, end);
    LeftGate(t.rks, start, end);
    RightGate(t.pts, start, end);
    RightGate(t.rks, start, end);
  }

  lemma LeftOfOk(p: Option<File>, k: Key)
    requires PartOk(p)
    ensures PartOk(LeftOf(p, k)) && PartOfPart(LeftOf(p, k), p)
    ensures LeftOf(p, k).Some? ==> Ends(LeftOf(p, k).value.bounds, Table(k, k, false)) && (p.value.points == [] ==> LeftOf(p, k).value.points == [])
    ensures LeftOf(p, k).Some? ==> BoundsWithin(LeftOf(p, k).value.bounds, p.value.bounds)
  {
    if p.Some? {
      LeftExists(p.value, k);
      if LeftFile(p.value, k).Some? { LeftIsATable(p.value, k); }
    }
    hide FileOk, Bounded, SpansWithin;
  }

  lemma RightOfOk(p: Option<File>, k: Key)
    requires PartOk(p)
    ensures PartOk(RightOf(p, k)) && PartOfPart(RightOf(p, k), p)
    ensures RightOf(p, k).Some? ==> k <= RightOf(p, k).value.bounds.smallest && (p.value.points == [] ==> RightOf(p, k).value.points == [])
    ensures RightOf(p, k).Some? ==> BoundsWithin(RightOf(p, k).value.bounds, p.value.bounds)
  {
    if p.Some? && RightFile(p.value, k).Some? { RightIsATable(p.value, k); }
    hide FileOk, Bounded, SpansWithin;
  }

  lemma PartBounds(a: Sst, b: Sst)
    requires a.pts.Some? || a.rks.Some?
    requires a.pts.Some? ==> b.pts.Some? && BoundsWithin(a.pts.value.bounds, b.pts.value.bounds)
    requires a.rks.Some? ==> b.rks.Some? && BoundsWithin(a.rks.value.bounds, b.rks.value.bounds)
    ensures BoundsWithin(BoundsOf(a), BoundsOf(b))
  {
  }

  lemma LeftSst(t: Sst, k: Key)
    requires SstOk(t) && Left(t, k) != []
    ensures var r := Left(t, k)[0]; SstOk(r) && SstPart(r, t) && Ends(BoundsOf(r), Table(k, k, false))
  {
    hide PartOk, LeftOf, Part, FileOk, Bounded;
    LeftOfOk(t.pts, k);
    LeftOfOk(t.rks, k);
    PartBounds(Left(t, k)[0], t);
  }

  lemma RightSst(t: Sst, k: Key)
    requires SstOk(t) && Right(t, k) != []
    ensures var r := Right(t, k)[0]; SstOk(r) && SstPart(r, t) && k <= BoundsOf(r).smallest
  {
    hide PartOk, RightOf, Part, FileOk, Bounded;
    RightOfOk(t.pts, k);
    RightOfOk(t.rks, k);
    PartBounds(Right(t, k)[0], t);
  }

  lemma LeftData(t: Sst, k: Key, e: Entry, x: Key, sn: nat)
    requires SstOk(t)
    ensures HasPoint(Left(t, k), e) <==> HasEntry(t, e) && e.key < k
    ensures HasDel(Left(t, k), x, sn) <==> DelOver(t, x, sn) && x < k
    ensures HasRange(Left(t, k), x, sn) <==> RangeOver(t, x, sn) && x < k
  {
    if t.pts.Some? { LeftHas(t.pts.value, k, e, x, sn); }
    if t.rks.Some? { LeftHas(t.rks.value, k, e, x, sn); }
    hide FileOk, Bounded, LeftFile, FragmentOver;
    var r := Left(t, k);
    if r != [] { assert r[0] == Sst(LeftOf(t.pts, k), LeftOf(t.rks, k)); }
  }

  lemma RightData(t: Sst, k: Key, e: Entry, x: Key, sn: nat)
    requires SstOk(t)
    ensures HasPoint(Right(t, k), e) <==> HasEntry(t, e) && k <= e.key
    ensures HasDel(Right(t, k), x, sn) <==> DelOver(t, x, sn) && k <= x
    ensures HasRange(Right(t, k), x, sn) <==> RangeOver(t, x, sn) && k <= x
  {
    if t.pts.Some? { RightHas(t.pts.value, k, e, x, sn); }
    if t.rks.Some? { RightHas(t.rks.value, k, e, x, sn); }
    hide FileOk, Bounded, RightFile, FragmentOver;
    var r := Right(t, k);
    if r != [] { assert r[0] == Sst(RightOf(t.pts, k), RightOf(t.rks, k)); }
  }

  lemma HasEither(a: seq<Sst>, b: seq<Sst>, e: Entry, x: Key, sn: nat)
    ensures HasPoint(a + b, e) <==> HasPoint(a, e) || HasPoint(b, e)
    ensures HasDel(a + b, x, sn) <==> HasDel(a, x, sn) || HasDel(b, x, sn)
    ensures HasRange(a + b, x, sn) <==> HasRange(a, x, sn) || HasRange(b, x, sn)
  {
    hide HasEntry, DelOver, RangeOver;
    var r := a + b;
    assert forall i | 0 <= i < |a| :: r[i] == a[i];
    assert forall i | 0 <= i < |b| :: r[|a| + i] == b[i];
  }

  lemma ExciseHas(t: Sst, start: Key, end: Key, rs: seq<Sst>, e: Entry, x: Key, sn: nat)
    requires SstOk(t) && start <= end && Excise(t, start, end) == Some(rs)
    ensures HasPoint(rs, e) <==> HasEntry(t, e) && !(start <= e.key < end)
    ensures HasDel(rs, x, sn) <==> DelOver(t, x, sn) && !(start <= x < end)
    ensures HasRange(rs, x, sn) <==> RangeOver(t, x, sn) && !(start <= x < end)
  {
    hide SstOk, Left, Right, HasPoint, HasDel, HasRange, HasEntry, DelOver, RangeOver;
    Gates(t, start, end);
    HasEither(Left(t, start), Right(t, end), e, x, sn);
    LeftData(t, start, e, x, sn);
    RightData(t, end, e, x, sn);
  }

  /** What tables rs are in place of table t after a span was excised. */
  ghost predicate Excised(t: Sst, start: Key, end: Key, rs: seq<Sst>) {
    && (forall e :: HasPoint(rs, e) <==> HasEntry(t, e) && !(start <= e.key < end))
    && (forall x: Key, sn: nat :: HasDel(rs, x, sn) <==> DelOver(t, x, sn) && !(start <= x < end))
    && (forall x: Key, sn: nat :: HasRange(rs, x, sn) <==> RangeOver(t, x, sn) && !(start <= x < end))
  }

  /** excise. The table is replaced by at most two, whose bounds avoid the span, in
      order: one on the left exactly if the table begins before the span, and one on
      the right exactly if it does not end within it, so that a right table is never
      left empty. They are tables with tight bounds for either kind of key, parts of
      the old one; together they hold exactly its points outside the span, and over
      the keys outside the span exactly its range tombstones and range keys. */
  lemma ExciseIsExact(t: Sst, start: Key, end: Key, rs: seq<Sst>)
    requires SstOk(t) && start <= end && Excise(t, start, end) == Some(rs)
    ensures |rs| == (if BoundsOf(t).smallest < start then 1 else 0) + (if ContainsLargest(start, end, BoundsOf(t)) then 0 else 1)
    ensures |rs| == 2 ==> Ends(BoundsOf(rs[0]), BoundsOf(rs[1]))
    ensures forall i | 0 <= i < |rs| :: SstOk(rs[i]) && SstPart(rs[i], t) && !SpanOverlaps(start, end, BoundsOf(rs[i]))
    ensures Excised(t, start, end, rs)
  {
    hide SstOk, SstPart, Left, Right, BoundsOf, Ends, SpanOverlaps, ContainsLargest, Excise, Excised;
    assert SpanOverlaps(start, end, BoundsOf(t)) by { MustOverlap(t, start, end, rs); }
    Gates(t, start, end);
    if Left(t, start) != [] {
      LeftSst(t, start);
      Sides(BoundsOf(Left(t, start)[0]), BoundsOf(Left(t, start)[0]), start, end);
    }
    if Right(t, end) != [] {
      RightSst(t, end);
      Sides(BoundsOf(rs[0]), BoundsOf(Right(t, end)[0]), start, end);
    }
    ExciseData(t, start, end, rs);
  }

  lemma MustOverlap(t: Sst, start: Key, end: Key, rs: seq<Sst>)
    requires Excise(t, start, end) == Some(rs)
    ensures SpanOverlaps(start, end, BoundsOf(t))
  {
  }

  /** What is left and what is right of a span. */
  lemma Sides(a: Table, b: Table, start: Key, end: Key)
    requires start <= end
    ensures Ends(a, Table(start, start, false)) ==> !SpanOverlaps(start, end, a)
    ensures end <= b.smallest ==> !SpanOverlaps(start, end, b)
    ensures Ends(a, Table(start, start, false)) && end <= b.smallest ==> Ends(a, b)
  {
  }

  lemma ExciseData(t: Sst, start: Key, end: Key, rs: seq<Sst>)
    requires SstOk(t) && start <= end && Excise(t, start, end) == Some(rs)
    ensures Excised(t, start, end, rs)
  {
    hide SstOk, Excise, HasPoint, HasDel, HasRange, HasEntry, DelOver, RangeOver;
    forall e ensures HasPoint(rs, e) <==> HasEntry(t, e) && !(start <= e.key < end) {
      ExciseHas(t, start, end, rs, e, 0.0, 0);
    }
    forall x: Key, sn: nat
      ensures HasDel(rs, x, sn) <==> DelOver(t, x, sn) && !(start <= x < end)
      ensures HasRange(rs, x, sn) <==> RangeOver(t, x, sn) && !(start <= x < end)
    {
      ExciseHas(t, start, end, rs, Entry(0.0, 0, Set, []), x, sn);
    }
  }

  // ---------------------------------------------------------------------
  // Making room for an ingested table
  // ---------------------------------------------------------------------

  /** A part without data within bounds does not begin or end within them: its own
      bounds are tight. */
  lemma PartStraddles(f: File, m: Table)
    requires FileOk(f) && Bounded(f) && ProperBounds(m) && !FileOverlap(f, m)
    ensures f.bounds.smallest < m.smallest || m.largest < f.bounds.smallest || (m.largest == f.bounds.smallest && m.sentinel)
    ensures f.bounds.largest < m.smallest || (f.bounds.largest == m.smallest && f.bounds.sentinel)
            || m.largest < f.bounds.largest || (m.largest == f.bounds.largest && m.sentinel && !f.bounds.sentinel)
  {
    hide Sorted, Descending;
    if f.bounds.sentinel {
      var i :| 0 <= i < |f.spans| && f.spans[i].end == f.bounds.largest;
      assert !SpanMeets(f.spans[i], m);
    } else {
      assert !m.Contains(f.points[|f.points| - 1].key);
    }
  }

  /** So a table that bounds meet, but that has no data within them, begins before them
      and ends after them. */
  lemma Straddles(t: Sst, m: Table)
    requires SstOk(t) && ProperBounds(m) && BoundsMeet(BoundsOf(t), m) && !SstOverlap(t, m)
    ensures BoundsOf(t).smallest < m.smallest
    ensures m.largest < BoundsOf(t).largest || (m.largest == BoundsOf(t).largest && m.sentinel && !BoundsOf(t).sentinel)
  {
    hide FileOk, Bounded, FileOverlap;
    if t.pts.Some? { PartStraddles(t.pts.value, m); }
    if t.rks.Some? { PartStraddles(t.rks.value, m); }
  }

  /** Tables rs hold what table t held. */
  ghost predicate SameHeld(t: Sst, rs: seq<Sst>) {
    && (forall e :: HasPoint(rs, e) <==> HasEntry(t, e))
    && (forall x: Key, sn: nat :: HasDel(rs, x, sn) <==> DelOver(t, x, sn))
    && (forall x: Key, sn: nat :: HasRange(rs, x, sn) <==> RangeOver(t, x, sn))
  }

  /** ingestSplit's use of excise: the table is always split, into two tables on
      either side of the bounds that together hold what it held. */
  lemma SplitMakesRoom(t: Sst, m: Table) returns (rs: seq<Sst>)
    requires SstOk(t) && ProperBounds(m) && BoundsMeet(BoundsOf(t), m) && !SstOverlap(t, m)
    ensures Excise(t, m.smallest, m.largest) == Some(rs) && |rs| == 2
    ensures Ends(BoundsOf(rs[0]), m) && Ends(m, BoundsOf(rs[1]))
    ensures SameHeld(t, rs)
  {
    hide SstOk, Left, Right, SstOverlap, Excise, Excised, SameHeld, BoundsOf, Ends, BoundsMeet, SpanOverlaps, ContainsLargest, SstPart;
    assert SpanOverlaps(m.smallest, m.largest, BoundsOf(t)) && BoundsOf(t).smallest < m.smallest && !ContainsLargest(m.smallest, m.largest, BoundsOf(t)) && m.smallest <= m.largest by {
      Straddling(t, m);
    }
    Gates(t, m.smallest, m.largest);
    rs := Left(t, m.smallest) + Right(t, m.largest);
    ExciseData(t, m.smallest, m.largest, rs);
    HeldAll(t, m, rs);
    LeftSst(t, m.smallest);
    assert Ends(BoundsOf(rs[0]), m) by { EndsBefore(BoundsOf(rs[0]), m); }
    RightPast(t, m);
  }

  lemma Straddling(t: Sst, m: Table)
    requires SstOk(t) && ProperBounds(m) && BoundsMeet(BoundsOf(t), m) && !SstOverlap(t, m)
    ensures SpanOverlaps(m.smallest, m.largest, BoundsOf(t)) && BoundsOf(t).smallest < m.smallest && !ContainsLargest(m.smallest, m.largest, BoundsOf(t))
    ensures m.smallest <= m.largest
  {
    hide SstOk, SstOverlap, BoundsOf;
    Straddles(t, m);
  }

  lemma EndsBefore(a: Table, m: Table)
    requires Ends(a, Table(m.smallest, m.smallest, false))
    ensures Ends(a, m)
  {
  }

  lemma HeldAll(t: Sst, m: Table, rs: seq<Sst>)
    requires !SstOverlap(t, m) && Excised(t, m.smallest, m.largest, rs)
    ensures SameHeld(t, rs)
  {
    hide SstOverlap, HasPoint, HasDel, HasRange, HasEntry, DelOver, RangeOver;
    NoneWithin(t, m);
  }

  lemma NoneWithin(t: Sst, m: Table)
    requires !SstOverlap(t, m)
    ensures forall e | HasEntry(t, e) :: !(m.smallest <= e.key < m.largest)
    ensures forall x: Key, sn: nat | DelOver(t, x, sn) || RangeOver(t, x, sn) :: !(m.smallest <= x < m.largest)
  {
    hide FileOverlap, FragmentOver;
    if t.pts.Some? { NoneWithinPart(t.pts.value, m); }
    if t.rks.Some? { NoneWithinPart(t.rks.value, m); }
  }

  lemma NoneWithinPart(f: File, m: Table)
    requires !FileOverlap(f, m)
    ensures forall e | e in f.points :: !(m.smallest <= e.key < m.largest)
    ensures forall x: Key, sn: nat | FragmentOver(f.spans, x, sn) :: !(m.smallest <= x < m.largest)
  {
    forall x: Key, sn: nat | FragmentOver(f.spans, x, sn) ensures !(m.smallest <= x < m.largest) {
      var i :| 0 <= i < |f.spans| && f.spans[i].start <= x < f.spans[i].end;
      assert !SpanMeets(f.spans[i], m);
    }
  }

  lemma RightPast(t: Sst, m: Table)
    requires SstOk(t) && ProperBounds(m) && !SstOverlap(t, m) && Right(t, m.largest) != []
    ensures Ends(m, BoundsOf(Right(t, m.largest)[0]))
  {
    hide FileOk, Bounded, Part, RightFile, FileOverlap;
    RightOfOk(t.pts, m.largest);
    RightOfOk(t.rks, m.largest);
    if RightOf(t.pts, m.largest).Some? { RightIsPast(t.pts.value, m, RightOf(t.pts, m.largest).value); }
    if RightOf(t.rks, m.largest).Some? { RightIsPast(t.rks.value, m, RightOf(t.rks, m.largest).value); }
  }

  lemma RightIsPast(f: File, m: Table, r: File)
    requires Bounded(r) && Part(r, f) && FileOk(r) && ProperBounds(m) && !FileOverlap(f, m) && m.largest <= r.bounds.smallest
    ensures Ends(m, r.bounds)
  {
    hide Sorted, Descending;
    if r.spans != [] { assert SpanWithin(r.spans[0], f.spans); }
    if r.points != [] { assert r.points[0] in f.points; }
  }

  lemma PartOverlaps(a: File, b: File, m: Table)
    requires Part(a, b) && FileOverlap(a, m)
    ensures FileOverlap(b, m)
  {
    if i :| 0 <= i < |a.points| && m.Contains(a.points[i].key) {
      assert a.points[i] in b.points;
    } else {
      var i :| 0 <= i < |a.spans| && SpanMeets(a.spans[i], m);
      assert SpanWithin(a.spans[i], b.spans);
      var j :| 0 <= j < |b.spans| && b.spans[j].start <= a.spans[i].start && a.spans[i].end <= b.spans[j].end;
      assert SpanMeets(b.spans[j], m);
    }
  }

  lemma SstPartOverlaps(a: Sst, b: Sst, m: Table)
    requires SstPart(a, b) && SstOverlap(a, m)
    ensures SstOverlap(b, m)
  {
    hide Part, FileOverlap;
    if PartOverlap(a.pts, m) { PartOverlaps(a.pts.value, b.pts.value, m); }
    if PartOverlap(a.rks, m) { PartOverlaps(a.rks.value, b.rks.value, m); }
  }
}
