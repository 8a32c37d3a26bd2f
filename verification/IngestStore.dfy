/**
The store after an ingestion (ingest.go): a table put into the level that was chosen
for it, after the split that this asks for, keeps reads newest first, for points,
range tombstones and range keys.
*/
module IngestStore {
  import opened Options
  import opened Lsm
  import opened History
  import opened InUseRanges
  import opened PointReads
  import opened Ingestion
  import opened Tables
  import opened Excision

  // ---------------------------------------------------------------------
  // A file replaced by its parts
  // ---------------------------------------------------------------------

  ghost predicate FilePoint(hs: seq<File>, e: Entry) { exists i :: 0 <= i < |hs| && e in hs[i].points }

  ghost predicate FileSpan(hs: seq<File>, x: Key, sn: nat) { exists i :: 0 <= i < |hs| && FragmentOver(hs[i].spans, x, sn) }

  /** Files hs are parts of f, in order, that hold what it held. */
  ghost predicate Refines(hs: seq<File>, f: File) {
    && (forall h | 0 <= h < |hs| :: FileOk(hs[h]) && Bounded(hs[h]) && Part(hs[h], f))
    && (forall g, h | 0 <= g < h < |hs| :: Ends(hs[g].bounds, hs[h].bounds))
    && (forall e :: FilePoint(hs, e) <==> e in f.points)
    && (forall x: Key, sn: nat :: FileSpan(hs, x, sn) <==> FragmentOver(f.spans, x, sn))
  }

  function Swap(fs: seq<File>, i: nat, hs: seq<File>): seq<File>
    requires i < |fs|
  {
    fs[..i] + hs + fs[i + 1..]
  }

  lemma SwapAt(fs: seq<File>, i: nat, hs: seq<File>, k: nat)
    requires i < |fs| && k < |fs| - 1 + |hs|
    ensures |Swap(fs, i, hs)| == |fs| - 1 + |hs|
    ensures Swap(fs, i, hs)[k] == if k < i then fs[k] else if k < i + |hs| then hs[k - i] else fs[k - |hs| + 1]
  {
  }

  /** Tables before the one that is replaced are before its parts. */
  lemma BeforeHalf(a: File, f: File, r: File)
    requires FileOk(a) && FileOk(f) && FileOk(r) && Bounded(a) && Bounded(f) && Bounded(r) && Follows(a, f) && Part(r, f)
    requires forall x: Key, sn: nat | FragmentOver(r.spans, x, sn) :: FragmentOver(f.spans, x, sn)
    ensures Follows(a, r)
  {
    hide Sorted, SpansWithin;
    forall i, j | 0 <= i < |a.points| && 0 <= j < |r.points| ensures Before(a.points[i], r.points[j]) {
      assert r.points[j] in f.points;
    }
    forall i, j, x | 0 <= i < |a.points| && 0 <= j < |r.spans| && x in r.spans[j].seqs && r.spans[j].start == a.points[i].key
      ensures x <= a.points[i].sn
    {
      var k := a.points[i].key;
      assert FragmentOver(r.spans, k, x);
      var l :| 0 <= l < |f.spans| && f.spans[l].start <= k < f.spans[l].end && x in f.spans[l].seqs;
      assert a.bounds.Contains(k);
    }
  }

  /** And those after it are after its parts. */
  lemma AfterHalf(f: File, r: File, b: File)
    requires Follows(f, b) && Part(r, f)
    ensures Follows(r, b)
  {
    hide SpansWithin;
    forall i, j | 0 <= i < |r.points| && 0 <= j < |b.points| ensures Before(r.points[i], b.points[j]) {
      assert r.points[i] in f.points;
    }
    forall i, j, x | 0 <= i < |r.points| && 0 <= j < |b.spans| && x in b.spans[j].seqs && b.spans[j].start == r.points[i].key
      ensures x <= r.points[i].sn
    {
      assert r.points[i] in f.points;
    }
  }

  lemma SwapFollows(s: Source, i: nat, hs: seq<File>, j: nat, h: nat)
    requires SourceOk(s) && !s.mem && i < |s.files| && Refines(hs, s.files[i]) && j < |s.files| && h < |hs|
    ensures j < i ==> Follows(s.files[j], hs[h])
    ensures i < j ==> Follows(hs[h], s.files[j])
  {
    hide SourceOk, FileOk, Bounded, Follows, Part, FilePoint, FragmentOver;
    FilesAreOk(s, i);
    FilesAreOk(s, j);
    if j < i {
      FilesFollow(s, j, i);
      forall x: Key, sn: nat | FragmentOver(hs[h].spans, x, sn) ensures FragmentOver(s.files[i].spans, x, sn) {
        assert FileSpan(hs, x, sn);
      }
      BeforeHalf(s.files[j], s.files[i], hs[h]);
    } else if i < j {
      FilesFollow(s, i, j);
      AfterHalf(s.files[i], hs[h], s.files[j]);
    }
  }

  lemma FilesFollow(s: Source, i: nat, j: nat)
    requires SourceOk(s) && !s.mem && i < j < |s.files|
    ensures Follows(s.files[i], s.files[j])
  {
  }

  /** The level with the parts in place of the file is a level. */
  lemma SwapKeepsLevel(s: Source, i: nat, hs: seq<File>)
    requires SourceOk(s) && !s.mem && i < |s.files| && Refines(hs, s.files[i])
    ensures SourceOk(s.(files := Swap(s.files, i, hs)))
  {
    hide FileOk, Bounded, Follows, Part, FilePoint, FileSpan, FragmentOver, Ends, Swap;
    var fs, r := s.files, Swap(s.files, i, hs);
    assert |r| == |fs| - 1 + |hs| by { SwapLength(fs, i, hs); }
    forall k | 0 <= k < |r| ensures FileOk(r[k]) && Bounded(r[k]) {
      SwapAt(fs, i, hs, k);
    }
    forall j, k | 0 <= j < k < |r| ensures Follows(r[j], r[k]) {
      SwapAt(fs, i, hs, j);
      SwapAt(fs, i, hs, k);
      if i <= j < i + |hs| && i <= k < i + |hs| {
        EndsFollows(hs[j - i], hs[k - i]);
      } else if i <= j < i + |hs| {
        SwapFollows(s, i, hs, k - |hs| + 1, j - i);
      } else if i <= k < i + |hs| {
        SwapFollows(s, i, hs, j, k - i);
      } else {
        FilesFollow(s, if j < i then j else j - |hs| + 1, if k < i then k else k - |hs| + 1);
      }
    }
  }

  lemma SwapLength(fs: seq<File>, i: nat, hs: seq<File>)
    requires i < |fs|
    ensures |Swap(fs, i, hs)| == |fs| - 1 + |hs|
  {
  }

  /** And holds what it held. */
  lemma SwapHolds(s: Source, i: nat, hs: seq<File>, k: Key, x: nat)
    requires i < |s.files| && Refines(hs, s.files[i])
    ensures var t := s.(files := Swap(s.files, i, hs));
            (HoldsPoint(t, k, x) <==> HoldsPoint(s, k, x)) && (HoldsSpan(t, k, x) <==> HoldsSpan(s, k, x))
  {
    hide Refines, Swap, HoldsPoint, HoldsSpan;
    SwapHoldsPoint(s, i, hs, k, x);
    SwapHoldsSpan(s, i, hs, k, x);
  }

  lemma SwapHoldsSpan(s: Source, i: nat, hs: seq<File>, k: Key, x: nat)
    requires i < |s.files| && Refines(hs, s.files[i])
    ensures HoldsSpan(s.(files := Swap(s.files, i, hs)), k, x) <==> HoldsSpan(s, k, x)
  {
    hide Refines, FragmentOver, Swap;
    var fs, r := s.files, Swap(s.files, i, hs);
    assert FileSpan(hs, k, x) <==> FragmentOver(fs[i].spans, k, x) by { RefinesSpan(hs, fs[i], k, x); }
    SwapLength(fs, i, hs);
    if HoldsSpan(s.(files := r), k, x) {
      var f :| 0 <= f < |r| && FragmentOver(r[f].spans, k, x);
      SwapAt(fs, i, hs, f);
    }
    if HoldsSpan(s, k, x) {
      var f :| 0 <= f < |fs| && FragmentOver(fs[f].spans, k, x);
      if f == i {
        var h :| 0 <= h < |hs| && FragmentOver(hs[h].spans, k, x);
        SwapAt(fs, i, hs, i + h);
      } else {
        SwapAt(fs, i, hs, if f < i then f else f + |hs| - 1);
      }
    }
  }

  lemma RefinesSpan(hs: seq<File>, f: File, k: Key, x: nat)
    requires Refines(hs, f)
    ensures FileSpan(hs, k, x) <==> FragmentOver(f.spans, k, x)
  {
  }

  lemma SwapHoldsPoint(s: Source, i: nat, hs: seq<File>, k: Key, x: nat)
    requires i < |s.files| && Refines(hs, s.files[i])
    ensures HoldsPoint(s.(files := Swap(s.files, i, hs)), k, x) <==> HoldsPoint(s, k, x)
  {
    hide FileOk, Bounded, Part, FragmentOver, Swap, FileSpan, Ends;
    var fs, r := s.files, Swap(s.files, i, hs);
    SwapLength(fs, i, hs);
    if HoldsPoint(s.(files := r), k, x) {
      var f, p :| 0 <= f < |r| && 0 <= p < |r[f].points| && r[f].points[p].key == k && r[f].points[p].sn == x;
      SwapAt(fs, i, hs, f);
      if i <= f < i + |hs| {
        assert FilePoint(hs, r[f].points[p]);
        assert r[f].points[p] in fs[i].points;
      }
    }
    if HoldsPoint(s, k, x) {
      var f, p :| 0 <= f < |fs| && 0 <= p < |fs[f].points| && fs[f].points[p].key == k && fs[f].points[p].sn == x;
      if f == i {
        assert FilePoint(hs, fs[f].points[p]);
        var h :| 0 <= h < |hs| && fs[f].points[p] in hs[h].points;
        SwapAt(fs, i, hs, i + h);
      } else {
        SwapAt(fs, i, hs, if f < i then f else f + |hs| - 1);
      }
    }
  }

  // ---------------------------------------------------------------------
  // A level with a table split
  // ---------------------------------------------------------------------

  lemma {:induction false} PointFilesOf(a: seq<Sst>, b: seq<Sst>)
    ensures PointFiles(a + b) == PointFiles(a) + PointFiles(b)
  {
    hide PointFiles, PointFile;
    if b == [] {
      PointFilesNone();
      assert a + b == a;
    } else {
      var n, l := |b| - 1, PointFile(b[|b| - 1]);
      PointFilesOf(a, b[..n]);
      PointFilesLast(a + b);
      PointFilesLast(b);
      assert (a + b)[..|a + b| - 1] == a + b[..n] && (a + b)[|a + b| - 1] == b[n];
      Associate(PointFiles(a), PointFiles(b[..n]), l);
    }
  }

  lemma Associate(a: seq<File>, b: seq<File>, c: seq<File>)
    ensures a + (b + c) == a + b + c
  {
  }

  lemma PointFilesNone()
    ensures PointFiles([]) == []
  {
  }

  lemma PointFilesLast(ts: seq<Sst>)
    requires ts != []
    ensures PointFiles(ts) == PointFiles(ts[..|ts| - 1]) + PointFile(ts[|ts| - 1])
  {
  }

  lemma PointFilesOne(t: Sst)
    ensures PointFiles([t]) == PointFile(t)
  {
    assert [t][..0] == [];
  }

  function SplitTables(ts: seq<Sst>, i: nat, m: Table): seq<Sst>
    requires i < |ts|
  {
    var rs := Excise(ts[i], m.smallest, m.largest);
    ts[..i] + (if rs.Some? then rs.value else [ts[i]]) + ts[i + 1..]
  }

  /** What holds when table i of a level, with no data within the bounds, is split. */
  ghost predicate SplitAt(ts: seq<Sst>, i: nat, m: Table, rs: seq<Sst>) {
    && LevelOk(ts) && i < |ts| && |rs| == 2 && Excise(ts[i], m.smallest, m.largest) == Some(rs)
    && SstOk(rs[0]) && SstPart(rs[0], ts[i]) && SstOk(rs[1]) && SstPart(rs[1], ts[i])
    && Ends(BoundsOf(rs[0]), m) && Ends(m, BoundsOf(rs[1])) && ProperBounds(m) && SameHeld(ts[i], rs)
  }

  lemma LevelSplits(ts: seq<Sst>, i: nat, m: Table) returns (rs: seq<Sst>)
    requires LevelOk(ts) && ProperBounds(m) && !LayerOverlap(LayerOf(ts), m) && i < |ts| && BoundsMeet(BoundsOf(ts[i]), m)
    ensures SplitAt(ts, i, m, rs)
  {
    hide SstOk, SstPart, Excise, BoundsMeet, SstOverlap, LayerOverlap, SameHeld, BoundsOf, Ends, Excised, SourceOk;
    assert SstOk(ts[i]) && !SstOverlap(ts[i], m) by { LevelOverlap(ts, m); }
    rs := SplitMakesRoom(ts[i], m);
    assert m.smallest <= m.largest;
    ExciseIsExact(ts[i], m.smallest, m.largest, rs);
  }

  lemma SplitIndex(ts: seq<Sst>, i: nat, m: Table, rs: seq<Sst>, k: nat)
    requires SplitAt(ts, i, m, rs) && k < |ts| + 1
    ensures |SplitTables(ts, i, m)| == |ts| + 1
    ensures SplitTables(ts, i, m)[k] == if k < i then ts[k] else if k < i + 2 then rs[k - i] else ts[k - 1]
  {
    hide LevelOk, SstOk, SstPart, Excise, Ends, SameHeld, BoundsOf;
  }

  /** The points of the halves, in place of those of the table. */
  lemma SplitPointFiles(ts: seq<Sst>, i: nat, m: Table, rs: seq<Sst>)
    requires SplitAt(ts, i, m, rs)
    ensures PointFiles(SplitTables(ts, i, m)) == PointFiles(ts[..i]) + PointFiles(rs) + PointFiles(ts[i + 1..])
    ensures PointFiles(ts) == PointFiles(ts[..i]) + PointFile(ts[i]) + PointFiles(ts[i + 1..])
  {
    hide LevelOk, SstOk, SstPart, Excise, Ends, SameHeld, BoundsOf, PointFiles, PointFile;
    PointFilesOf(ts[..i] + rs, ts[i + 1..]);
    PointFilesOf(ts[..i], rs);
    assert ts == ts[..i] + [ts[i]] + ts[i + 1..];
    PointFilesOf(ts[..i] + [ts[i]], ts[i + 1..]);
    PointFilesOf(ts[..i], [ts[i]]);
    PointFilesOne(ts[i]);
  }

  lemma TwoPointFiles(rs: seq<Sst>)
    requires |rs| == 2
    ensures PointFiles(rs) == PointFile(rs[0]) + PointFile(rs[1])
  {
    hide PointFile;
    assert rs == [rs[0]] + [rs[1]];
    PointFilesOf([rs[0]], [rs[1]]);
    PointFilesOne(rs[0]);
    PointFilesOne(rs[1]);
  }

  /** The points of the halves refine those of the table, if it has any. */
  lemma HalvesRefine(ts: seq<Sst>, i: nat, m: Table, rs: seq<Sst>)
    requires SplitAt(ts, i, m, rs)
    ensures ts[i].pts.Some? ==> Refines(PointFiles(rs), ts[i].pts.value)
    ensures ts[i].pts.None? ==> PointFiles(rs) == []
  {
    hide LevelOk, FileOk, Bounded, Part, Excise, SameHeld, FragmentOver, PointFiles, FilePoint, FileSpan, BoundsOf, Ends, PartsRefine;
    var hs := PointFiles(rs);
    TwoPointFiles(rs);
    if ts[i].pts.Some? {
      var f := ts[i].pts.value;
      assert PartsRefine(hs, f) by { PartsAreParts(ts[i], m, rs, hs); }
      forall e ensures FilePoint(hs, e) <==> e in f.points { HalvesPoint(ts[i], rs, hs, e); }
      forall x: Key, sn: nat ensures FileSpan(hs, x, sn) <==> FragmentOver(f.spans, x, sn) { HalvesDel(ts[i], rs, hs, x, sn); }
      assert Refines(hs, f) by { RefinesIs(hs, f); }
    }
  }

  predicate PartsRefine(hs: seq<File>, f: File) {
    && (forall h | 0 <= h < |hs| :: FileOk(hs[h]) && Bounded(hs[h]) && Part(hs[h], f))
    && (forall g, h | 0 <= g < h < |hs| :: Ends(hs[g].bounds, hs[h].bounds))
  }

  lemma RefinesIs(hs: seq<File>, f: File)
    requires PartsRefine(hs, f) && (forall e :: FilePoint(hs, e) <==> e in f.points)
    requires forall x: Key, sn: nat :: FileSpan(hs, x, sn) <==> FragmentOver(f.spans, x, sn)
    ensures Refines(hs, f)
  {
  }

  lemma PartsAreParts(t: Sst, m: Table, rs: seq<Sst>, hs: seq<File>)
    requires t.pts.Some? && |rs| == 2 && hs == PointFile(rs[0]) + PointFile(rs[1]) && ProperBounds(m)
    requires SstOk(rs[0]) && SstPart(rs[0], t) && SstOk(rs[1]) && SstPart(rs[1], t) && Ends(BoundsOf(rs[0]), m) && Ends(m, BoundsOf(rs[1]))
    ensures PartsRefine(hs, t.pts.value)
  {
    hide FileOk, Bounded, Part, BoundsOf, Ends, BoundsWithin;
    if rs[0].pts.Some? && rs[1].pts.Some? { PartsEnd(rs[0], m, rs[1]); }
  }

  lemma HalvesPoint(t: Sst, rs: seq<Sst>, hs: seq<File>, e: Entry)
    requires t.pts.Some? && |rs| == 2 && hs == PointFile(rs[0]) + PointFile(rs[1]) && SameHeld(t, rs)
    ensures FilePoint(hs, e) <==> e in t.pts.value.points
  {
    hide HasDel, HasRange, DelOver, RangeOver;
    assert HasPoint(rs, e) <==> HasEntry(t, e);
    assert HasPoint(rs, e) <==> HasEntry(rs[0], e) || HasEntry(rs[1], e);
    if HasEntry(rs[0], e) { assert hs[0] == rs[0].pts.value; }
    if HasEntry(rs[1], e) { assert hs[|hs| - 1] == rs[1].pts.value; }
  }

  lemma HalvesDel(t: Sst, rs: seq<Sst>, hs: seq<File>, x: Key, sn: nat)
    requires t.pts.Some? && |rs| == 2 && hs == PointFile(rs[0]) + PointFile(rs[1]) && SameHeld(t, rs)
    ensures FileSpan(hs, x, sn) <==> FragmentOver(t.pts.value.spans, x, sn)
  {
    hide HasPoint, HasRange, HasEntry, RangeOver, FragmentOver;
    assert HasDel(rs, x, sn) <==> DelOver(t, x, sn);
    assert HasDel(rs, x, sn) <==> DelOver(rs[0], x, sn) || DelOver(rs[1], x, sn);
    if DelOver(rs[0], x, sn) { assert hs[0] == rs[0].pts.value; }
    if DelOver(rs[1], x, sn) { assert hs[|hs| - 1] == rs[1].pts.value; }
  }

  lemma PartsEnd(a: Sst, m: Table, b: Sst)
    requires SstOk(a) && SstOk(b) && a.pts.Some? && b.pts.Some? && Ends(BoundsOf(a), m) && Ends(m, BoundsOf(b)) && ProperBounds(m)
    ensures Ends(a.pts.value.bounds, b.pts.value.bounds)
  {
    hide FileOk, Bounded;
  }

  /** The points of the level after the split are a level, and hold what they held. */
  lemma SplitSource(ts: seq<Sst>, i: nat, m: Table, rs: seq<Sst>)
    requires SplitAt(ts, i, m, rs)
    ensures var s, t := LayerOf(ts).points, LayerOf(SplitTables(ts, i, m)).points;
            SourceOk(t) && forall k: Key, x :: (HoldsPoint(t, k, x) <==> HoldsPoint(s, k, x)) && (HoldsSpan(t, k, x) <==> HoldsSpan(s, k, x))
  {
    hide SstOk, SstPart, Excise, Ends, SameHeld, BoundsOf, PointFiles, Refines, SourceOk, HoldsPoint, HoldsSpan, SplitTables, RangeKeys;
    var s, t := LayerOf(ts).points, LayerOf(SplitTables(ts, i, m)).points;
    SplitPointFiles(ts, i, m, rs);
    HalvesRefine(ts, i, m, rs);
    var n, hs := |PointFiles(ts[..i])|, PointFiles(rs);
    if ts[i].pts.Some? {
      assert s.files[n] == ts[i].pts.value && t.files == Swap(s.files, n, hs);
      SwapKeepsLevel(s, n, hs);
      forall k: Key, x ensures (HoldsPoint(t, k, x) <==> HoldsPoint(s, k, x)) && (HoldsSpan(t, k, x) <==> HoldsSpan(s, k, x)) {
        SwapHolds(s, n, hs, k, x);
      }
    } else {
      assert t == s;
    }
  }

  /** Range keys over a key are those of some table. */
  ghost predicate LevelRange(ts: seq<Sst>, k: Key, x: nat) {
    exists j :: 0 <= j < |ts| && RangeOver(ts[j], k, x)
  }

  lemma RangesOver(ts: seq<Sst>, k: Key, x: nat)
    ensures FragmentOver(RangeKeys(ts), k, x) <==> LevelRange(ts, k, x)
  {
    hide RangeKeys;
    var r := RangeKeys(ts);
    if FragmentOver(r, k, x) {
      var i :| 0 <= i < |r| && r[i].start <= k < r[i].end && x in r[i].seqs;
      assert r[i] in r;
      var j :| 0 <= j < |ts| && r[i] in RangeSpans(ts[j]);
      assert RangeOver(ts[j], k, x);
    }
    if LevelRange(ts, k, x) {
      var j :| 0 <= j < |ts| && RangeOver(ts[j], k, x);
      var spans := RangeSpans(ts[j]);
      var i :| 0 <= i < |spans| && spans[i].start <= k < spans[i].end && x in spans[i].seqs;
      assert spans[i] in r;
    }
  }

  lemma SplitRanges(ts: seq<Sst>, i: nat, m: Table, rs: seq<Sst>, k: Key, x: nat)
    requires SplitAt(ts, i, m, rs)
    ensures LevelRange(SplitTables(ts, i, m), k, x) <==> LevelRange(ts, k, x)
  {
    hide LevelOk, SstOk, SstPart, Excise, Ends, BoundsOf, SplitTables, HasPoint, HasDel, RangeOver, HasEntry, DelOver;
    var r := SplitTables(ts, i, m);
    SplitIndex(ts, i, m, rs, i);
    SplitIndex(ts, i, m, rs, i + 1);
    assert HasRange(rs, k, x) <==> RangeOver(ts[i], k, x);
    if LevelRange(r, k, x) {
      var j :| 0 <= j < |r| && RangeOver(r[j], k, x);
      SplitIndex(ts, i, m, rs, j);
    }
    if LevelRange(ts, k, x) {
      var j :| 0 <= j < |ts| && RangeOver(ts[j], k, x);
      if j == i {
        var h :| 0 <= h < |rs| && RangeOver(rs[h], k, x);
        assert r[i + h] == rs[h];
      } else {
        SplitIndex(ts, i, m, rs, if j < i then j else j + 1);
      }
    }
  }

  lemma SplitOrdered(ts: seq<Sst>, i: nat, m: Table, rs: seq<Sst>, a: nat, b: nat)
    requires SplitAt(ts, i, m, rs) && a < b < |ts| + 1
    ensures |SplitTables(ts, i, m)| == |ts| + 1
    ensures BoundsOf(SplitTables(ts, i, m)[a]).largest <= BoundsOf(SplitTables(ts, i, m)[b]).smallest
  {
    hide SstOk, Excise, SameHeld, BoundsOf, SplitTables, SourceOk, LayerOf, PartOfPart;
    SplitIndex(ts, i, m, rs, a);
    SplitIndex(ts, i, m, rs, b);
  }

  /** The split leaves a level, without a table whose bounds or data meet the ingested one's. */
  lemma SplitLevel(ts: seq<Sst>, i: nat, m: Table, rs: seq<Sst>)
    requires SplitAt(ts, i, m, rs) && !LayerOverlap(LayerOf(ts), m) && forall k | 0 <= k < |ts| && BoundsMeet(BoundsOf(ts[k]), m) :: k == i
    ensures var r := SplitTables(ts, i, m);
            && LevelOk(r) && !LayerOverlap(LayerOf(r), m)
            && forall k | 0 <= k < |r| :: !BoundsMeet(BoundsOf(r[k]), m)
  {
    hide SstOk, SstPart, Excise, SameHeld, BoundsOf, SplitTables, SourceOk, LayerOverlap, Ends, BoundsMeet, SstOverlap;
    var r := SplitTables(ts, i, m);
    SplitIndex(ts, i, m, rs, 0);
    SplitSource(ts, i, m, rs);
    LevelOverlap(ts, m);
    forall k | 0 <= k < |r| ensures SstOk(r[k]) && !BoundsMeet(BoundsOf(r[k]), m) && !SstOverlap(r[k], m) {
      SplitIndex(ts, i, m, rs, k);
      if k == i || k == i + 1 {
        MeetsNot(r[k], m);
        if SstOverlap(r[k], m) { SstPartOverlaps(r[k], ts[i], m); }
      }
    }
    forall a, b | 0 <= a < b < |r| ensures BoundsOf(r[a]).largest <= BoundsOf(r[b]).smallest { SplitOrdered(ts, i, m, rs, a, b); }
    LevelOverlap(r, m);
  }

  lemma MeetsNot(t: Sst, m: Table)
    requires SstOk(t) && ProperBounds(m) && (Ends(BoundsOf(t), m) || Ends(m, BoundsOf(t)))
    ensures !BoundsMeet(BoundsOf(t), m)
  {
    hide SstOk, BoundsOf;
    ProperSst(t);
  }

  // ---------------------------------------------------------------------
  // A level with a table put in
  // ---------------------------------------------------------------------

  /** The place of a table among those of a level. */
  function Place(ts: seq<Sst>, m: Table): (p: nat)
    ensures p <= |ts| && (forall i | 0 <= i < p :: Ends(BoundsOf(ts[i]), m)) && (p < |ts| ==> !Ends(BoundsOf(ts[p]), m))
  {
    if ts == [] || !Ends(BoundsOf(ts[0]), m) then 0 else 1 + Place(ts[1..], m)
  }

  function PutIn(ts: seq<Sst>, g: Sst): seq<Sst> {
    var p := Place(ts, BoundsOf(g));
    ts[..p] + [g] + ts[p..]
  }

  /** Everything after the place is after the table. */
  lemma AfterPlace(ts: seq<Sst>, m: Table, i: nat)
    requires LevelTables(ts) && ProperBounds(m) && (forall k | 0 <= k < |ts| :: !BoundsMeet(BoundsOf(ts[k]), m))
    requires Place(ts, m) <= i < |ts|
    ensures Ends(m, BoundsOf(ts[i]))
  {
    hide SstOk, BoundsOf, Place;
    var p := Place(ts, m);
    ProperSst(ts[p]);
    ProperSst(ts[i]);
    Apart(BoundsOf(ts[p]), m);
  }

  /** Bounds that do not meet are one before the other. */
  lemma Apart(a: Table, b: Table)
    requires ProperBounds(a) && ProperBounds(b) && !BoundsMeet(a, b)
    ensures Ends(a, b) || Ends(b, a)
  {
  }

  lemma PutInIndex(ts: seq<Sst>, g: Sst, k: nat)
    requires k < |ts| + 1
    ensures var p := Place(ts, BoundsOf(g));
            |PutIn(ts, g)| == |ts| + 1 && PutIn(ts, g)[k] == if k < p then ts[k] else if k == p then g else ts[k - 1]
  {
    hide BoundsOf, Place;
  }

  lemma PutInPointFiles(ts: seq<Sst>, g: Sst)
    ensures var p := Place(ts, BoundsOf(g));
            && PointFiles(PutIn(ts, g)) == PointFiles(ts[..p]) + PointFile(g) + PointFiles(ts[p..])
            && PointFiles(ts) == PointFiles(ts[..p]) + PointFiles(ts[p..])
  {
    hide BoundsOf, Place, PointFiles, PointFile;
    var p := Place(ts, BoundsOf(g));
    PointFilesOf(ts[..p] + [g], ts[p..]);
    PointFilesOf(ts[..p], [g]);
    PointFilesOne(g);
    assert ts == ts[..p] + ts[p..];
    PointFilesOf(ts[..p], ts[p..]);
  }

  /** No table of the level is in the way of the table to be put in. */
  predicate Free(ts: seq<Sst>, m: Table) {
    LevelTables(ts) && ProperBounds(m) && forall k | 0 <= k < |ts| :: !BoundsMeet(BoundsOf(ts[k]), m)
  }

  /** The points of the table fit among those of the level. */
  lemma PointsFit(ts: seq<Sst>, g: Sst)
    requires SstOk(g) && g.pts.Some? && Free(ts, BoundsOf(g))
    ensures var p := Place(ts, BoundsOf(g)); Fits(PointFiles(ts), |PointFiles(ts[..p])|, g.pts.value.bounds)
  {
    PutInPointFiles(ts, g);
    hide PointFiles, PointFile, PutIn, Place, BoundsMeet, SstOk, BoundsOf, Ends;
    var m, p := BoundsOf(g), Place(ts, BoundsOf(g));
    var fs, n := PointFiles(ts), |PointFiles(ts[..p])|;
    forall k | 0 <= k < n ensures Ends(fs[k].bounds, g.pts.value.bounds) {
      PointFilesHas(ts[..p], fs[k]);
      var j :| 0 <= j < p && ts[..p][j].pts == Some(fs[k]);
      assert ts[j].pts == Some(fs[k]);
      EndsParts(ts[j], g);
    }
    forall k | n <= k < |fs| ensures Ends(g.pts.value.bounds, fs[k].bounds) {
      assert fs[k] == PointFiles(ts[p..])[k - n];
      PointFilesHas(ts[p..], fs[k]);
      var j :| 0 <= j < |ts| - p && ts[p..][j].pts == Some(fs[k]);
      assert ts[p + j].pts == Some(fs[k]);
      AfterPlace(ts, m, p + j);
      EndsParts(g, ts[p + j]);
    }
  }

  lemma EndsParts(a: Sst, b: Sst)
    requires SstOk(a) && SstOk(b) && a.pts.Some? && b.pts.Some? && Ends(BoundsOf(a), BoundsOf(b))
    ensures Ends(a.pts.value.bounds, b.pts.value.bounds)
  {
    hide FileOk, Bounded;
  }

  lemma PutInRanges(ts: seq<Sst>, g: Sst, k: Key, x: nat)
    ensures LevelRange(PutIn(ts, g), k, x) <==> LevelRange(ts, k, x) || RangeOver(g, k, x)
  {
    hide RangeOver, BoundsOf, PutIn, Place;
    var p, r := Place(ts, BoundsOf(g)), PutIn(ts, g);
    PutInIndex(ts, g, p);
    if LevelRange(r, k, x) {
      var j :| 0 <= j < |r| && RangeOver(r[j], k, x);
      PutInIndex(ts, g, j);
    }
    if LevelRange(ts, k, x) {
      var j :| 0 <= j < |ts| && RangeOver(ts[j], k, x);
      PutInIndex(ts, g, if j < p then j else j + 1);
    }
  }

  lemma PutInTables(ts: seq<Sst>, g: Sst)
    requires SstOk(g) && Free(ts, BoundsOf(g))
    ensures LevelTables(PutIn(ts, g))
  {
    hide SstOk, BoundsOf, PutIn, Place, BoundsMeet;
    var m, p, r := BoundsOf(g), Place(ts, BoundsOf(g)), PutIn(ts, g);
    PutInIndex(ts, g, 0);
    forall k | 0 <= k < |r| ensures SstOk(r[k]) { PutInIndex(ts, g, k); }
    forall a, b | 0 <= a < b < |r| ensures BoundsOf(r[a]).largest <= BoundsOf(r[b]).smallest {
      PutInIndex(ts, g, a);
      PutInIndex(ts, g, b);
      if a == p { AfterPlace(ts, m, b - 1); }
    }
  }

  // ---------------------------------------------------------------------
  // The store
  // ---------------------------------------------------------------------

  /** Range keys of one layer are newer than those of another over the same keys. */
  ghost predicate RangesNewer(a: seq<Fragment>, b: seq<Fragment>) {
    forall k: Key, x: nat, y: nat | FragmentOver(a, k, x) && FragmentOver(b, k, y) :: y < x
  }

  function Points(all: seq<Layer>): (r: seq<Source>)
    ensures |r| == |all| && forall i | 0 <= i < |all| :: r[i] == all[i].points
  {
    seq(|all|, i requires 0 <= i < |all| => all[i].points)
  }

  /** A store that reads find newest first, layer by layer. */
  ghost predicate LayersOk(all: seq<Layer>) {
    StoreOk(Points(all)) && forall i, j | 0 <= i < j < |all| :: RangesNewer(all[i].rangeKeys, all[j].rangeKeys)
  }

  /** Everything in the layer is older than a sequence number. */
  ghost predicate LayerOlder(l: Layer, sn: nat) {
    Older(l.points, sn) && forall k: Key, x: nat | FragmentOver(l.rangeKeys, k, x) :: x < sn
  }

  /** All of a table's sequence numbers are the one it was ingested with. */
  predicate Numbered(g: Sst, sn: nat) {
    (g.pts.Some? ==> HasNumber(g.pts.value, sn)) && (g.rks.Some? ==> HasNumber(g.rks.value, sn))
  }

  lemma SameIsAsNew(s: Source, t: Source, other: Source)
    requires forall k: Key, x :: (HoldsPoint(t, k, x) <==> HoldsPoint(s, k, x)) && (HoldsSpan(t, k, x) <==> HoldsSpan(s, k, x))
    ensures Newer(s, other) ==> Newer(t, other)
    ensures Newer(other, s) ==> Newer(other, t)
  {
    hide HoldsPoint, HoldsSpan;
  }

  /** A layer that holds the same does not change the store. */
  lemma SameLayer(all: seq<Layer>, n: nat, t: Layer, sn: nat)
    requires LayersOk(all) && n < |all| && SourceOk(t.points) && LayerOlder(all[n], sn)
    requires forall k: Key, x ::
               (HoldsPoint(t.points, k, x) <==> HoldsPoint(all[n].points, k, x)) && (HoldsSpan(t.points, k, x) <==> HoldsSpan(all[n].points, k, x))
    requires forall k: Key, x :: FragmentOver(t.rangeKeys, k, x) <==> FragmentOver(all[n].rangeKeys, k, x)
    ensures LayersOk(all[n := t]) && LayerOlder(t, sn)
  {
    hide SourceOk, HoldsPoint, HoldsSpan, Newer, FragmentOver;
    var r := all[n := t];
    forall i | 0 <= i < n ensures Newer(all[i].points, t.points) { SameIsAsNew(all[n].points, t.points, all[i].points); assert Newer(Points(all)[i], Points(all)[n]); }
    forall i | n < i < |all| ensures Newer(t.points, all[i].points) { SameIsAsNew(all[n].points, t.points, all[i].points); assert Newer(Points(all)[n], Points(all)[i]); }
    forall i, j | 0 <= i < j < |r| ensures Newer(r[i].points, r[j].points) {
      if i != n && j != n { assert Newer(Points(all)[i], Points(all)[j]); }
    }
    forall i | 0 <= i < |r| ensures SourceOk(r[i].points) { if i != n { assert SourceOk(Points(all)[i]); } }
  }

  /** Overlap with narrower bounds is overlap. */
  lemma OverlapMore(s: Source, a: Table, b: Table)
    requires BoundsWithin(a, b) && DataOverlap(s, a)
    ensures DataOverlap(s, b)
  {
    var f :| 0 <= f < |s.files| && FileOverlap(s.files[f], a);
    if i :| 0 <= i < |s.files[f].points| && a.Contains(s.files[f].points[i].key) {
      assert b.Contains(s.files[f].points[i].key);
    } else {
      var i :| 0 <= i < |s.files[f].spans| && SpanMeets(s.files[f].spans[i], a);
      assert SpanMeets(s.files[f].spans[i], b);
    }
    assert FileOverlap(s.files[f], b);
  }

  lemma PointsWithin(g: Sst)
    requires SstOk(g) && g.pts.Some?
    ensures BoundsWithin(g.pts.value.bounds, BoundsOf(g))
  {
    hide FileOk, Bounded;
  }

  /** A range key of the table over a key where another layer has one is overlap. */
  lemma RangeMeets(g: Sst, fs: seq<Fragment>, k: Key, x: nat, y: nat)
    requires SstOk(g) && RangeOver(g, k, y) && FragmentOver(fs, k, x)
    ensures SpanOverlap(fs, BoundsOf(g))
  {
    hide FileOk;
    var i :| 0 <= i < |fs| && fs[i].start <= k < fs[i].end;
    assert SpanMeets(fs[i], BoundsOf(g));
  }

  lemma RangeNumber(g: Sst, sn: nat, k: Key, y: nat)
    requires Numbered(g, sn) && RangeOver(g, k, y)
    ensures y == sn
  {
  }

  lemma PutInRangesNewer(all: seq<Layer>, n: nat, ts: seq<Sst>, g: Sst, sn: nat)
    requires LayersOk(all) && n < |all| && all[n] == LayerOf(ts) && SstOk(g) && Numbered(g, sn)
    requires forall i | 0 <= i <= n :: !LayerOverlap(all[i], BoundsOf(g))
    requires forall i | 0 <= i < |all| :: LayerOlder(all[i], sn)
    ensures forall i | 0 <= i < n :: RangesNewer(all[i].rangeKeys, RangeKeys(PutIn(ts, g)))
    ensures forall i | n < i < |all| :: RangesNewer(RangeKeys(PutIn(ts, g)), all[i].rangeKeys)
  {
    hide SstOk, BoundsOf, PutIn, RangeKeys, FragmentOver, Numbered, DataOverlap, SpanOverlap, RangeOver, LevelRange, Older, StoreOk;
    var r := RangeKeys(PutIn(ts, g));
    forall k: Key, y | FragmentOver(r, k, y) ensures FragmentOver(all[n].rangeKeys, k, y) || (y == sn && RangeOver(g, k, y)) {
      RangesOver(PutIn(ts, g), k, y);
      PutInRanges(ts, g, k, y);
      RangesOver(ts, k, y);
      if RangeOver(g, k, y) { RangeNumber(g, sn, k, y); }
    }
    forall i, k: Key, x, y | 0 <= i < n && FragmentOver(all[i].rangeKeys, k, x) && FragmentOver(r, k, y) ensures y < x {
      if RangeOver(g, k, y) { RangeMeets(g, all[i].rangeKeys, k, x, y); }
    }
  }

  /** A table put into layer n, where no table is in its way, keeps the store newest
      first, when nothing down to the layer lies within its bounds. */
  lemma PutInKeepsStore(all: seq<Layer>, n: nat, ts: seq<Sst>, g: Sst, sn: nat)
    requires LayersOk(all) && n < |all| && all[n] == LayerOf(ts) && SstOk(g) && Numbered(g, sn) && Free(ts, BoundsOf(g))
    requires forall i | 0 <= i <= n :: !LayerOverlap(all[i], BoundsOf(g))
    requires forall i | 0 <= i < |all| :: LayerOlder(all[i], sn)
    ensures LayersOk(all[n := LayerOf(PutIn(ts, g))]) && LevelOk(PutIn(ts, g))
  {
    PutInRangesNewer(all, n, ts, g, sn);
    PutInTables(ts, g);
    hide SstOk, BoundsOf, PutIn, RangeKeys, PointFiles, FragmentOver, Numbered, DataOverlap, SpanOverlap, Older, StoreOk, Free, LevelTables, LayerOlder, SourceOk, RangesNewer;
    var r, t := all[n := LayerOf(PutIn(ts, g))], LayerOf(PutIn(ts, g));
    PutInStore(all, n, ts, g, sn);
    forall i, j | 0 <= i < j < |r| ensures RangesNewer(r[i].rangeKeys, r[j].rangeKeys) {
    }
    assert SourceOk(t.points) by { StoreSource(Points(r), n); }
    assert LevelOk(PutIn(ts, g)) by { TablesLevel(PutIn(ts, g)); }
  }

  lemma StoreSource(all: seq<Source>, n: nat)
    requires StoreOk(all) && n < |all|
    ensures SourceOk(all[n])
  {
  }

  lemma TablesLevel(ts: seq<Sst>)
    requires LevelTables(ts) && SourceOk(LayerOf(ts).points)
    ensures LevelOk(ts)
  {
  }

  lemma PutInStore(all: seq<Layer>, n: nat, ts: seq<Sst>, g: Sst, sn: nat)
    requires LayersOk(all) && n < |all| && all[n] == LayerOf(ts) && SstOk(g) && Numbered(g, sn) && Free(ts, BoundsOf(g))
    requires forall i | 0 <= i <= n :: !LayerOverlap(all[i], BoundsOf(g))
    requires forall i | 0 <= i < |all| :: LayerOlder(all[i], sn)
    ensures StoreOk(Points(all[n := LayerOf(PutIn(ts, g))]))
  {
    PutInPointFiles(ts, g);
    hide BoundsOf, PutIn, RangeKeys, PointFiles, FragmentOver, DataOverlap, SpanOverlap, Older, StoreOk, Free, SourceOk, RangesNewer, HasNumber, FileOk, Bounded, BoundsWithin, Place, Fits, Insert;
    var ps, r := Points(all), Points(all[n := LayerOf(PutIn(ts, g))]);
    var p := Place(ts, BoundsOf(g));
    if g.pts.Some? {
      var q, f := |PointFiles(ts[..p])|, g.pts.value;
      PointsFit(ts, g);
      PointsWithin(g);
      forall i | 0 <= i <= n ensures !DataOverlap(ps[i], f.bounds) {
        if DataOverlap(ps[i], f.bounds) { OverlapMore(ps[i], f.bounds, BoundsOf(g)); }
      }
      IngestKeepsStore(ps, n, q, f, sn);
      InsertIs(PointFiles(ts[..p]), PointFiles(ts[p..]), f);
      assert r == ps[n := ps[n].(files := Insert(ps[n].files, q, f))];
    } else {
      assert PointFile(g) == [] && PointFiles(PutIn(ts, g)) == PointFiles(ts);
      assert LayerOf(PutIn(ts, g)).points == ps[n];
      assert r == ps;
    }
  }

  lemma InsertIs(a: seq<File>, b: seq<File>, f: File)
    ensures Insert(a + b, |a|, f) == a + [f] + b
  {
  }

  // ---------------------------------------------------------------------
  // The target level
  // ---------------------------------------------------------------------

  function Layers(ls: seq<seq<Sst>>): (r: seq<Layer>)
    ensures |r| == |ls| && forall i | 0 <= i < |ls| :: r[i] == LayerOf(ls[i])
  {
    seq(|ls|, i requires 0 <= i < |ls| => LayerOf(ls[i]))
  }

  /** The layers of a store, newest first: memtables, L0 sublevels, and the levels. */
  function StoreOf(mem: seq<Layer>, l0: seq<seq<Sst>>, levels: seq<seq<Sst>>): seq<Layer> {
    mem + Layers(l0) + if levels == [] then [] else Layers(levels[1..])
  }

  /** The level that a table is put into, after the split that it asks for. */
  function Placed(level: seq<Sst>, split: Option<nat>, g: Sst): seq<Sst>
    requires split.Some? ==> split.value < |level|
  {
    PutIn(if split.Some? then SplitTables(level, split.value, BoundsOf(g)) else level, g)
  }

  lemma StoreAt(mem: seq<Layer>, l0: seq<seq<Sst>>, levels: seq<seq<Sst>>, target: nat, t: seq<Sst>)
    requires 1 <= target < |levels|
    ensures var all, n := StoreOf(mem, l0, levels), |mem| + |l0| + target - 1;
            && n < |all| && all[n] == LayerOf(levels[target]) && all[n := LayerOf(t)] == StoreOf(mem, l0, levels[target := t])
            && forall i | 0 <= i < |all| ::
                 all[i] == if i < |mem| then mem[i] else if i < |mem| + |l0| then LayerOf(l0[i - |mem|]) else LayerOf(levels[i - |mem| - |l0| + 1])
  {
    hide LayerOf;
  }

  lemma NoTables(m: Table)
    ensures !LayerOverlap(LayerOf([]), m)
  {
  }

  lemma MeetsOnly(ts: seq<Sst>, m: Table)
    ensures BoundaryOverlaps(ts, m) == [] ==> forall k | 0 <= k < |ts| :: !BoundsMeet(BoundsOf(ts[k]), m)
    ensures |BoundaryOverlaps(ts, m)| == 1 ==>
              var i := BoundaryOverlaps(ts, m)[0];
              i < |ts| && BoundsMeet(BoundsOf(ts[i]), m) && forall k | 0 <= k < |ts| && BoundsMeet(BoundsOf(ts[k]), m) :: k == i
  {
    hide BoundsMeet, BoundsOf, BoundaryOverlaps;
    var over := BoundaryOverlaps(ts, m);
    forall k | 0 <= k < |ts| && BoundsMeet(BoundsOf(ts[k]), m) ensures k in over { }
  }

  /** A split does not change the store, and makes room. */
  lemma SplitKeepsStore(all: seq<Layer>, n: nat, ts: seq<Sst>, i: nat, m: Table, sn: nat)
    requires LayersOk(all) && n < |all| && all[n] == LayerOf(ts) && LevelOk(ts) && ProperBounds(m) && !LayerOverlap(all[n], m) && LayerOlder(all[n], sn)
    requires i < |ts| && BoundsMeet(BoundsOf(ts[i]), m) && forall k | 0 <= k < |ts| && BoundsMeet(BoundsOf(ts[k]), m) :: k == i
    ensures var r := SplitTables(ts, i, m);
            && LayersOk(all[n := LayerOf(r)]) && LayerOlder(LayerOf(r), sn) && LevelOk(r) && Free(r, m) && !LayerOverlap(LayerOf(r), m)
  {
    hide LevelOk, SplitTables, LayersOk, LayerOlder, LayerOverlap, SplitAt, BoundsMeet, BoundsOf, PointFiles, RangeKeys, HoldsPoint, HoldsSpan, FragmentOver, SourceOk, LevelRange;
    var r := SplitTables(ts, i, m);
    var rs := LevelSplits(ts, i, m);
    SplitLevel(ts, i, m, rs);
    SplitSource(ts, i, m, rs);
    forall k: Key, x ensures FragmentOver(RangeKeys(r), k, x) <==> FragmentOver(RangeKeys(ts), k, x) {
      RangesOver(r, k, x);
      RangesOver(ts, k, x);
      SplitRanges(ts, i, m, rs, k, x);
    }
    SameLayer(all, n, LayerOf(r), sn);
    assert Free(r, m) by { LevelIsTables(r); }
  }

  lemma LevelIsTables(ts: seq<Sst>)
    requires LevelOk(ts)
    ensures LevelTables(ts)
  {
  }

  /** An ingested table at the level that ingestTargetLevel chose for it keeps the store
      newest first for points, tombstones and range keys, and the level a level, as
      nothing at the level or above, memtables included, has data within its bounds
      and its sequence number is newer than all others. Levels above the base level
      are empty. */
  lemma TargetKeepsStore(mem: seq<Layer>, l0: seq<seq<Sst>>, levels: seq<seq<Sst>>, base: nat, busy: seq<Busy>,
                         g: Sst, sn: nat, suggestSplit: bool, target: nat, split: Option<nat>)
    requires LayersOk(StoreOf(mem, l0, levels)) && LevelsOk(l0, levels) && SstOk(g) && Numbered(g, sn)
    requires 1 <= base <= target < |levels| && forall i | 1 <= i < base :: levels[i] == []
    requires forall i | 0 <= i < |mem| :: !LayerOverlap(mem[i], BoundsOf(g))
    requires forall i | 0 <= i < |StoreOf(mem, l0, levels)| :: LayerOlder(StoreOf(mem, l0, levels)[i], sn)
    requires HasRoom(levels[target], target, busy, BoundsOf(g), suggestSplit) && !DataDownTo(l0, levels, base, target, BoundsOf(g))
    requires split == (if BoundaryOverlaps(levels[target], BoundsOf(g)) != [] then Some(BoundaryOverlaps(levels[target], BoundsOf(g))[0]) else None)
    ensures split.Some? ==> split.value < |levels[target]|
    ensures LayersOk(StoreOf(mem, l0, levels[target := Placed(levels[target], split, g)])) && LevelOk(Placed(levels[target], split, g))
  {
    hide SstOk, BoundsOf, Numbered, LayersOk, LayerOverlap, LayerOlder, BoundaryOverlaps, PutIn, SplitTables, Clashes, LevelOk, LayerOf, StoreOf, BoundsMeet;
    var all, n, m, ts := StoreOf(mem, l0, levels), |mem| + |l0| + target - 1, BoundsOf(g), levels[target];
    StoreAt(mem, l0, levels, target, ts);
    ProperSst(g);
    forall i | 0 <= i <= n ensures !LayerOverlap(all[i], m) {
      var j := i - |mem| - |l0| + 1;
      if 1 <= j < base { NoTables(m); }
    }
    MeetsOnly(ts, m);
    var ts1 := if split.Some? then SplitTables(ts, split.value, m) else ts;
    if split.Some? {
      SplitKeepsStore(all, n, ts, split.value, m, sn);
    } else {
      LevelIsTables(ts);
      assert all[n := LayerOf(ts)] == all;
    }
    var all1 := all[n := LayerOf(ts1)];
    PutInKeepsStore(all1, n, ts1, g, sn);
    StoreAt(mem, l0, levels, target, PutIn(ts1, g));
    assert all1[n := LayerOf(PutIn(ts1, g))] == all[n := LayerOf(PutIn(ts1, g))];
  }

  lemma EmptyLayer(all: seq<Layer>, n: nat)
    requires LayersOk(all) && n <= |all|
    ensures LayersOk(all[..n] + [LayerOf([])] + all[n..]) && LayerOlder(LayerOf([]), 0)
  {
    var e := LayerOf([]);
    var r := all[..n] + [e] + all[n..];
    assert e == Layer(Source([], false, 0), []);
    EmptySource(e.points);
    hide SourceOk, Newer, RangesNewer, Older, FragmentOver, LayerOf, Points;
    assert LayerOlder(e, 0) by { NoneOver(); }
    forall i | 0 <= i < |r| ensures SourceOk(Points(r)[i]) {
      if i != n { AddedAt(all, n, e, i); assert SourceOk(Points(all)[if i < n then i else i - 1]); }
    }
    forall i, j | 0 <= i < j < |r| ensures Newer(Points(r)[i], Points(r)[j]) && RangesNewer(r[i].rangeKeys, r[j].rangeKeys) {
      AddedAt(all, n, e, i);
      AddedAt(all, n, e, j);
      if i == n || j == n {
        var k := if i == n then j else i;
        NothingIsOlder(r[k].points, e.points);
        NoRanges(r[k].rangeKeys);
      } else {
        assert Newer(Points(all)[if i < n then i else i - 1], Points(all)[if j < n then j else j - 1]);
      }
    }
  }

  lemma AddedAt(all: seq<Layer>, n: nat, e: Layer, i: nat)
    requires n <= |all| && i < |all| + 1
    ensures (all[..n] + [e] + all[n..])[i] == if i < n then all[i] else if i == n then e else all[i - 1]
  {
  }

  lemma NoneOver()
    ensures forall k: Key, x: nat :: !FragmentOver([], k, x)
  {
  }

  lemma EmptySource(s: Source)
    requires s.files == [] && !s.mem
    ensures SourceOk(s) && Older(s, 0)
  {
  }

  lemma NoRanges(a: seq<Fragment>)
    ensures RangesNewer(a, []) && RangesNewer([], a)
  {
  }

  lemma NothingIsOlder(s: Source, none: Source)
    requires none.files == []
    ensures Newer(s, none) && Newer(none, s)
  {
  }

  /** A table that no level has room for goes to L0, above everything there. */
  lemma L0KeepsStore(mem: seq<Layer>, l0: seq<seq<Sst>>, levels: seq<seq<Sst>>, g: Sst, sn: nat)
    requires LayersOk(StoreOf(mem, l0, levels)) && SstOk(g) && Numbered(g, sn)
    requires forall i | 0 <= i < |mem| :: !LayerOverlap(mem[i], BoundsOf(g))
    requires forall i | 0 <= i < |StoreOf(mem, l0, levels)| :: LayerOlder(StoreOf(mem, l0, levels)[i], sn)
    ensures LayersOk(StoreOf(mem, [[g]] + l0, levels)) && LevelOk([g])
  {
    hide SstOk, BoundsOf, Numbered, LayersOk, LayerOverlap, LayerOlder, LevelOk, LayerOf;
    var all, n := StoreOf(mem, l0, levels), |mem|;
    var r := all[..n] + [LayerOf([])] + all[n..];
    EmptyLayer(all, n);
    NoTables(BoundsOf(g));
    ProperSst(g);
    forall i | 0 <= i < |r| ensures LayerOlder(r[i], sn) {
      if i == n { OlderMore(r[i], sn); } else { assert r[i] == all[if i < n then i else i - 1]; }
    }
    assert PutIn([], g) == [g];
    PutInKeepsStore(r, n, [], g, sn);
    assert r[n := LayerOf([g])] == StoreOf(mem, [[g]] + l0, levels);
  }

  lemma OlderMore(l: Layer, sn: nat)
    requires LayerOlder(l, 0)
    ensures LayerOlder(l, sn)
  {
  }
}
