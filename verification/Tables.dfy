/**
Tables with range keys (internal/manifest/version.go, ingest.go). A table may hold
points and range tombstones, range keys, or both, and has bounds for each kind and
for all it holds. A level is seen by reads as its points and tombstones, and as its
range keys. Here is what ingestion asks of a level: whether a table to be ingested
overlaps its data or its tables' bounds, and which level the table may go to.
*/
module Tables {
  import opened Options
  import opened Lsm
  import opened History
  import opened InUseRanges
  import opened PointReads
  import opened Ingestion

  /** A table: its points and range tombstones, and its range keys. The latter are spans
      with bounds of their own, and no points. */
  datatype Sst = Sst(pts: Option<File>, rks: Option<File>)

  predicate PartOk(f: Option<File>) {
    f.Some? ==> FileOk(f.value) && Bounded(f.value)
  }

  predicate SstOk(t: Sst) {
    (t.pts.Some? || t.rks.Some?) && PartOk(t.pts) && PartOk(t.rks) && (t.rks.Some? ==> t.rks.value.points == [])
  }

  /** Of two upper bounds of the same key, one that is no sentinel is later. */
  function Join(a: Table, b: Table): Table {
    Table(if a.smallest <= b.smallest then a.smallest else b.smallest,
          if a.largest < b.largest then b.largest else a.largest,
          if a.largest < b.largest then b.sentinel else if b.largest < a.largest then a.sentinel else a.sentinel && b.sentinel)
  }

  /** The bounds of all that a table holds. */
  function BoundsOf(t: Sst): Table {
    if t.pts.Some? && t.rks.Some? then Join(t.pts.value.bounds, t.rks.value.bounds)
    else if t.pts.Some? then t.pts.value.bounds
    else if t.rks.Some? then t.rks.value.bounds
    else Table(0.0, 0.0, false)
  }

  predicate PartOverlap(f: Option<File>, m: Table) {
    f.Some? && FileOverlap(f.value, m)
  }

  /** A table has a point, a range tombstone or a range key within bounds. */
  predicate SstOverlap(t: Sst, m: Table) {
    PartOverlap(t.pts, m) || PartOverlap(t.rks, m)
  }

  lemma ProperSst(t: Sst)
    requires SstOk(t)
    ensures ProperBounds(BoundsOf(t))
  {
    hide FileOk;
  }

  // ---------------------------------------------------------------------
  // Levels
  // ---------------------------------------------------------------------

  function PointFile(t: Sst): seq<File> { if t.pts.Some? then [t.pts.value] else [] }

  function RangeSpans(t: Sst): seq<Fragment> { if t.rks.Some? then t.rks.value.spans else [] }

  /** The tables of a level that have points or tombstones. */
  function PointFiles(ts: seq<Sst>): seq<File> {
    if ts == [] then []
    else
      var n := |ts| - 1;
      PointFiles(ts[..n]) + PointFile(ts[n])
  }

  lemma {:induction false} PointFilesHas(ts: seq<Sst>, f: File)
    ensures f in PointFiles(ts) <==> exists i :: 0 <= i < |ts| && ts[i].pts == Some(f)
  {
    if ts != [] {
      var n := |ts| - 1;
      PointFilesHas(ts[..n], f);
      assert forall i | 0 <= i < n :: ts[..n][i] == ts[i];
    }
  }

  /** The range keys of a level, in order. */
  function RangeKeys(ts: seq<Sst>): (r: seq<Fragment>)
    ensures forall f :: f in r <==> exists i :: 0 <= i < |ts| && f in RangeSpans(ts[i])
  {
    if ts == [] then []
    else
      var n := |ts| - 1;
      assert forall i | 0 <= i < n :: ts[..n][i] == ts[i];
      RangeKeys(ts[..n]) + RangeSpans(ts[n])
  }

  /** A memtable, an L0 sublevel or a level: its points and tombstones, and its range keys. */
  datatype Layer = Layer(points: Source, rangeKeys: seq<Fragment>)

  function LayerOf(ts: seq<Sst>): Layer {
    Layer(Source(PointFiles(ts), false, 0), RangeKeys(ts))
  }

  /** The tables of an L0 sublevel or a level, in order. Neighbours may share a user key. */
  predicate LevelOk(ts: seq<Sst>) {
    && (forall i | 0 <= i < |ts| :: SstOk(ts[i]))
    && (forall i, j | 0 <= i < j < |ts| :: BoundsOf(ts[i]).largest <= BoundsOf(ts[j]).smallest)
    && SourceOk(LayerOf(ts).points)
  }

  predicate SpanOverlap(fs: seq<Fragment>, m: Table) {
    exists i :: 0 <= i < |fs| && SpanMeets(fs[i], m)
  }

  predicate LayerOverlap(l: Layer, m: Table) {
    DataOverlap(l.points, m) || SpanOverlap(l.rangeKeys, m)
  }

  /** The range keys of a table lie within its bounds. */
  lemma RangeWithin(t: Sst, i: nat)
    requires SstOk(t) && i < |RangeSpans(t)|
    ensures BoundsOf(t).smallest <= RangeSpans(t)[i].start && RangeSpans(t)[i].end <= BoundsOf(t).largest
  {
    hide FileOk;
  }

  lemma SpansJoin(a: seq<Fragment>, b: seq<Fragment>)
    requires SpansOk(a) && SpansOk(b) && forall i, j | 0 <= i < |a| && 0 <= j < |b| :: a[i].end <= b[j].start
    ensures SpansOk(a + b)
  {
    hide Descending;
    var r := a + b;
    assert forall i | 0 <= i < |r| :: r[i] == if i < |a| then a[i] else b[i - |a|];
  }

  /** The range keys of a level are in order. */
  lemma {:induction false} RangeKeysOk(ts: seq<Sst>)
    requires LevelTables(ts)
    ensures SpansOk(RangeKeys(ts)) && forall i | 0 <= i < |RangeKeys(ts)| :: ts != [] && RangeKeys(ts)[i].end <= BoundsOf(ts[|ts| - 1]).largest
  {
    hide SpansOk, FileOk, Bounded;
    if ts == [] {
      NoSpans();
    } else {
      var n := |ts| - 1;
      var a, b := RangeKeys(ts[..n]), RangeSpans(ts[n]);
      RangeKeysOk(ts[..n]);
      assert SpansOk(b) by { TableSpans(ts[n]); }
      forall j | 0 <= j < |b| ensures BoundsOf(ts[n]).smallest <= b[j].start && b[j].end <= BoundsOf(ts[n]).largest { RangeWithin(ts[n], j); }
      assert forall i | 0 <= i < |a| :: a[i].end <= BoundsOf(ts[n - 1]).largest;
      ProperSst(ts[n]);
      SpansJoin(a, b);
    }
  }

  /** The tables of a level, whatever its points. */
  predicate LevelTables(ts: seq<Sst>) {
    && (forall i | 0 <= i < |ts| :: SstOk(ts[i]))
    && (forall i, j | 0 <= i < j < |ts| :: BoundsOf(ts[i]).largest <= BoundsOf(ts[j]).smallest)
  }

  lemma NoSpans()
    ensures SpansOk([])
  {
  }

  lemma TableSpans(t: Sst)
    requires SstOk(t)
    ensures SpansOk(RangeSpans(t))
  {
  }

  /** Data of a level is data of one of its tables. */
  lemma LevelOverlap(ts: seq<Sst>, m: Table)
    requires LevelTables(ts)
    ensures LayerOverlap(LayerOf(ts), m) <==> exists i :: 0 <= i < |ts| && SstOverlap(ts[i], m)
  {
    hide FileOk, Bounded, FileOverlap, SpanMeets, PointFiles, RangeKeys;
    var l := LayerOf(ts);
    if DataOverlap(l.points, m) {
      var f :| 0 <= f < |l.points.files| && FileOverlap(l.points.files[f], m);
      PointFilesHas(ts, l.points.files[f]);
      var i :| 0 <= i < |ts| && ts[i].pts == Some(l.points.files[f]);
      assert SstOverlap(ts[i], m);
    }
    if SpanOverlap(l.rangeKeys, m) {
      var f :| 0 <= f < |l.rangeKeys| && SpanMeets(l.rangeKeys[f], m);
      assert l.rangeKeys[f] in RangeKeys(ts);
      var i :| 0 <= i < |ts| && l.rangeKeys[f] in RangeSpans(ts[i]);
      RangeOverlap(ts[i], m);
      assert SstOverlap(ts[i], m);
    }
    if i :| 0 <= i < |ts| && SstOverlap(ts[i], m) {
      if PartOverlap(ts[i].pts, m) {
        PointFilesHas(ts, ts[i].pts.value);
        var f :| 0 <= f < |l.points.files| && l.points.files[f] == ts[i].pts.value;
      } else {
        RangeOverlap(ts[i], m);
        var s :| s in RangeSpans(ts[i]) && SpanMeets(s, m);
        assert s in RangeKeys(ts);
        var f :| 0 <= f < |l.rangeKeys| && l.rangeKeys[f] == s;
      }
    }
  }

  lemma RangeOverlap(t: Sst, m: Table)
    requires SstOk(t)
    ensures PartOverlap(t.rks, m) <==> exists s :: s in RangeSpans(t) && SpanMeets(s, m)
  {
  }

  /** overlapWithIterator on the tables of a level: true exactly when a point, a range
      tombstone or a range key of the level lies within the bounds. */
  method OverlapWithTables(ts: seq<Sst>, m: Table) returns (r: bool)
    requires LevelOk(ts) && ProperBounds(m)
    ensures r <==> LayerOverlap(LayerOf(ts), m)
    ensures r <==> exists i :: 0 <= i < |ts| && SstOverlap(ts[i], m)
  {
    hide SourceOk, SstOk, SstOverlap, DataOverlap, SpansOk, SpanMeets;
    LevelOverlap(ts, m);
    RangeKeysOk(ts);
    r := OverlapWithLevel(LayerOf(ts).points, m);
    if !r { r := SpansOverlap(RangeKeys(ts), m); }
  }

  // ---------------------------------------------------------------------
  // The target level
  // ---------------------------------------------------------------------

  /** A compaction under way that writes to a level. */
  datatype Busy = Busy(level: nat, smallest: Key, largest: Key)

  predicate BoundsMeet(f: Table, m: Table) {
    && (m.smallest < f.largest || (m.smallest == f.largest && !f.sentinel))
    && (f.smallest < m.largest || (f.smallest == m.largest && !m.sentinel))
  }

  /** The tables of a level whose bounds meet m: Version.Overlaps. */
  function BoundaryOverlaps(ts: seq<Sst>, m: Table): (r: seq<nat>)
    ensures forall i | 0 <= i < |r| :: r[i] < |ts| && BoundsMeet(BoundsOf(ts[r[i]]), m)
    ensures forall f | 0 <= f < |ts| && BoundsMeet(BoundsOf(ts[f]), m) :: f in r
    ensures forall i, j | 0 <= i < j < |r| :: r[i] < r[j]
  {
    if ts == [] then []
    else
      var n := |ts| - 1;
      BoundaryOverlaps(ts[..n], m) + (if BoundsMeet(BoundsOf(ts[n]), m) then [n] else [])
  }

  predicate Clashes(busy: seq<Busy>, level: nat, m: Table) {
    exists i :: 0 <= i < |busy| && busy[i].level == level && m.smallest <= busy[i].largest && busy[i].smallest <= m.largest
  }

  /** A table with bounds m could be put into the level, perhaps after a split. */
  predicate HasRoom(level: seq<Sst>, i: nat, busy: seq<Busy>, m: Table, suggestSplit: bool) {
    var n := |BoundaryOverlaps(level, m)|;
    (n == 0 || (suggestSplit && n == 1)) && !Clashes(busy, i, m)
  }

  predicate LevelsOk(l0: seq<seq<Sst>>, levels: seq<seq<Sst>>) {
    (forall i | 0 <= i < |l0| :: LevelOk(l0[i])) && (forall i | 0 <= i < |levels| :: LevelOk(levels[i]))
  }

  /** Data lies within the bounds in some L0 sublevel or in a level down to i. */
  predicate DataDownTo(l0: seq<seq<Sst>>, levels: seq<seq<Sst>>, base: nat, i: int, m: Table) {
    || (exists j :: 0 <= j < |l0| && LayerOverlap(LayerOf(l0[j]), m))
    || (exists j :: base <= j <= i && j < |levels| && LayerOverlap(LayerOf(levels[j]), m))
  }

  /** ingestTargetLevel. The level is 0, or one that has room, with no data within the
      bounds in it or above, and no compaction under way writes to it within the bounds.
      No lower level would do: it has data there or above, its tables leave no room, or
      a compaction writes to it within the bounds. */
  method TargetLevel(l0: seq<seq<Sst>>, levels: seq<seq<Sst>>, base: nat, busy: seq<Busy>, m: Table, suggestSplit: bool)
    returns (target: nat, split: Option<nat>)
    requires LevelsOk(l0, levels) && 1 <= base && ProperBounds(m)
    ensures target == 0 || (base <= target < |levels| && HasRoom(levels[target], target, busy, m, suggestSplit)
                            && !DataDownTo(l0, levels, base, target, m))
    ensures forall i | base <= i < |levels| && target < i :: !HasRoom(levels[i], i, busy, m, suggestSplit) || DataDownTo(l0, levels, base, i, m)
    ensures target > 0 ==> forall i | 0 <= i < |busy| && busy[i].level == target :: busy[i].largest < m.smallest || m.largest < busy[i].smallest
    ensures forall i | base <= i < |levels| && target < i && !DataDownTo(l0, levels, base, i, m)
                       && (BoundaryOverlaps(levels[i], m) == [] || (suggestSplit && |BoundaryOverlaps(levels[i], m)| == 1)) ::
              exists j :: 0 <= j < |busy| && busy[j].level == i && m.smallest <= busy[j].largest && busy[j].smallest <= m.largest
    ensures split == if target > 0 && BoundaryOverlaps(levels[target], m) != []
                     then Some(BoundaryOverlaps(levels[target], m)[0]) else None
  {
    hide LevelOk, LayerOverlap, BoundaryOverlaps, SstOverlap;
    target, split := 0, None;
    for j := 0 to |l0|
      invariant forall i | 0 <= i < j :: !LayerOverlap(LayerOf(l0[i]), m)
    {
      var overlap := OverlapWithTables(l0[j], m);
      if overlap { return; }
    }
    var level := base;
    while level < |levels|
      invariant base <= level
      invariant !DataDownTo(l0, levels, base, level - 1, m)
      invariant target == 0 || (base <= target < level && target < |levels| && HasRoom(levels[target], target, busy, m, suggestSplit))
      invariant forall i | base <= i < level && i < |levels| && target < i :: !HasRoom(levels[i], i, busy, m, suggestSplit)
      invariant split == if target > 0 && BoundaryOverlaps(levels[target], m) != []
                         then Some(BoundaryOverlaps(levels[target], m)[0]) else None
    {
      var overlap := OverlapWithTables(levels[level], m);
      if overlap { return; }
      var meeting := BoundaryOverlaps(levels[level], m);
      if meeting == [] || (suggestSplit && |meeting| == 1) {
        var clash := FindClash(busy, level, m);
        if !clash {
          target, split := level, if meeting == [] then None else Some(meeting[0]);
        }
      }
      level := level + 1;
    }
  }

  method FindClash(busy: seq<Busy>, level: nat, m: Table) returns (r: bool)
    ensures r <==> Clashes(busy, level, m)
  {
    for i := 0 to |busy|
      invariant forall j | 0 <= j < i :: !(busy[j].level == level && m.smallest <= busy[j].largest && busy[j].smallest <= m.largest)
    {
      if busy[i].level == level && m.smallest <= busy[i].largest && busy[i].smallest <= m.largest { return true; }
    }
    r := false;
  }
}
