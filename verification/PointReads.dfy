/**
Point reads: the iterator behind Get, which walks the versions of one key
memtable by memtable and level by level and opens a source only when the newer
ones are used up (get_iter.go, db.go).
*/
module PointReads {
  import opened Options
  import opened Lsm
  import opened History
  import opened InUseRanges

  // ---------------------------------------------------------------------
  // The store
  // ---------------------------------------------------------------------

  /** A table: its points, its range tombstone fragments, its bounds, and keys
      that its filter rules out. A memtable is one such table without bounds. */
  datatype File = File(points: seq<Entry>, spans: seq<Fragment>, bounds: Table, absent: set<Key>)

  /** A memtable, an L0 sublevel or a level. A memtable holds nothing older than
      its logSeqNum. */
  datatype Source = Source(files: seq<File>, mem: bool, logSeqNum: nat)

  predicate SpansOk(fs: seq<Fragment>) {
    && (forall i | 0 <= i < |fs| :: fs[i].start < fs[i].end && fs[i].seqs != [] && Descending(fs[i].seqs))
    && (forall i, j | 0 <= i < j < |fs| :: fs[i].end <= fs[j].start)
    && (forall i, j | 0 <= i < |fs| && 0 <= j < |fs[i].seqs| :: fs[i].seqs[j] < SEQ_MAX)
  }

  predicate FileOk(f: File) {
    && SpansOk(f.spans) && Sorted(f.points)
    && (forall i | 0 <= i < |f.points| :: f.points[i].IsPoint() && f.points[i].key !in f.absent && f.points[i].sn < SEQ_MAX)
  }

  /** Points and fragments lie within a table's bounds, and the bounds are tight. The
      largest bound is the end of a fragment if it is a sentinel, and the key of a
      point otherwise. */
  predicate Bounded(f: File) {
    && (if f.bounds.sentinel then f.bounds.smallest < f.bounds.largest else f.bounds.smallest <= f.bounds.largest)
    && (forall i | 0 <= i < |f.points| :: f.bounds.Contains(f.points[i].key))
    && (forall i | 0 <= i < |f.spans| :: f.bounds.smallest <= f.spans[i].start && f.spans[i].end <= f.bounds.largest)
    && (if f.bounds.sentinel then exists i :: 0 <= i < |f.spans| && f.spans[i].end == f.bounds.largest
        else f.points != [] && f.points[|f.points| - 1].key == f.bounds.largest)
    && ((f.points != [] && f.points[0].key == f.bounds.smallest) || (f.spans != [] && f.spans[0].start == f.bounds.smallest))
  }

  /** Neighbouring tables are in internal key order. They may share a user key,
      and then what the second one has of it is older. */
  predicate Follows(a: File, b: File) {
    && a.bounds.largest <= b.bounds.smallest
    && (forall i, j | 0 <= i < |a.points| && 0 <= j < |b.points| :: Before(a.points[i], b.points[j]))
    && (forall i, j, x | 0 <= i < |a.points| && 0 <= j < |b.spans| && x in b.spans[j].seqs ::
          b.spans[j].start == a.points[i].key ==> x <= a.points[i].sn)
  }

  predicate SourceOk(s: Source) {
    && (forall i | 0 <= i < |s.files| :: FileOk(s.files[i]))
    && (if s.mem then |s.files| == 1
        else && (forall i | 0 <= i < |s.files| :: Bounded(s.files[i]))
             && (forall i, j | 0 <= i < j < |s.files| :: Follows(s.files[i], s.files[j])))
  }

  predicate HoldsPoint(s: Source, k: Key, sn: nat) {
    exists f, i :: 0 <= f < |s.files| && 0 <= i < |s.files[f].points| && s.files[f].points[i].key == k && s.files[f].points[i].sn == sn
  }

  predicate HoldsSpan(s: Source, k: Key, sn: nat) {
    exists f :: 0 <= f < |s.files| && FragmentOver(s.files[f].spans, k, sn)
  }

  /** Everything about a key in a newer source is newer. */
  ghost predicate Newer(a: Source, b: Source) {
    && (forall k: Key, x, y | HoldsPoint(a, k, x) && HoldsPoint(b, k, y) :: y < x)
    && (forall k: Key, x, y | HoldsPoint(a, k, x) && HoldsSpan(b, k, y) :: y <= x)
    && (forall k: Key, x, y | HoldsSpan(a, k, x) && HoldsPoint(b, k, y) :: y < x)
  }

  /** A store listed newest source first. */
  ghost predicate StoreOk(all: seq<Source>) {
    && (forall i | 0 <= i < |all| :: SourceOk(all[i]))
    && (forall i, j | 0 <= i < j < |all| :: Newer(all[i], all[j]))
  }

  function FilePoints(fs: seq<File>): seq<Entry> {
    if fs == [] then [] else fs[0].points + FilePoints(fs[1..])
  }

  function Points(all: seq<Source>): seq<Entry> {
    if all == [] then [] else FilePoints(all[0].files) + Points(all[1..])
  }

  ghost function StoreTombstones(all: seq<Source>): set<Tombstone> {
    set n, f, i, j | 0 <= n < |all| && 0 <= f < |all[n].files| && 0 <= i < |all[n].files[f].spans|
                     && 0 <= j < |all[n].files[f].spans[i].seqs| ::
      Tombstone(all[n].files[f].spans[i].start, all[n].files[f].spans[i].end, all[n].files[f].spans[i].seqs[j])
  }

  ghost predicate OverSome(all: seq<Source>, k: Key, x: nat) {
    exists n :: 0 <= n < |all| && HoldsSpan(all[n], k, x)
  }

  lemma StoreTombstoneOver(all: seq<Source>, k: Key, x: nat)
    ensures OverKey(StoreTombstones(all), k, x) <==> OverSome(all, k, x)
  {
    if OverKey(StoreTombstones(all), k, x) {
      var t :| t in StoreTombstones(all) && t.start <= k < t.end && t.sn == x;
      var n, f, i, j :| 0 <= n < |all| && 0 <= f < |all[n].files| && 0 <= i < |all[n].files[f].spans|
                        && 0 <= j < |all[n].files[f].spans[i].seqs|
                        && t == Tombstone(all[n].files[f].spans[i].start, all[n].files[f].spans[i].end, all[n].files[f].spans[i].seqs[j]);
      assert FragmentOver(all[n].files[f].spans, k, x);
      assert HoldsSpan(all[n], k, x);
    }
    if OverSome(all, k, x) {
      var n :| 0 <= n < |all| && HoldsSpan(all[n], k, x);
      var f :| 0 <= f < |all[n].files| && FragmentOver(all[n].files[f].spans, k, x);
      var i :| 0 <= i < |all[n].files[f].spans| && all[n].files[f].spans[i].start <= k < all[n].files[f].spans[i].end
               && x in all[n].files[f].spans[i].seqs;
      var g := all[n].files[f].spans[i];
      var j :| 0 <= j < |g.seqs| && g.seqs[j] == x;
      assert Tombstone(g.start, g.end, g.seqs[j]) in StoreTombstones(all);
    }
  }

  // ---------------------------------------------------------------------
  // What a point read should return
  // ---------------------------------------------------------------------

  /** The visible versions of k, in order, up to the first deleted by a visible
      range tombstone. */
  function Cut(es: seq<Entry>, k: Key, ts: set<Tombstone>, s: nat): seq<Entry> {
    if es == [] then []
    else if es[0].key != k || s <= es[0].sn then Cut(es[1..], k, ts, s)
    else if Covers(ts, k, es[0].sn, s) then []
    else [es[0]] + Cut(es[1..], k, ts, s)
  }

  /** Versions of k in order of age. */
  predicate NewestFirst(es: seq<Entry>, k: Key) {
    && (forall i | 0 <= i < |es| :: es[i].IsPoint())
    && (forall i, j | 0 <= i < j < |es| && es[i].key == k && es[j].key == k :: es[j].sn <= es[i].sn)
  }

  /** Reading what the iterator yields is reading the whole history. */
  lemma {:induction false} ReadCut(es: seq<Entry>, k: Key, ts: set<Tombstone>, s: nat)
    requires NewestFirst(es, k)
    ensures Read(es, k, ts, s) == Read(Cut(es, k, ts, s), k, {}, s)
  {
    if es != [] {
      ReadCut(es[1..], k, ts, s);
      if es[0].key == k && es[0].sn < s {
        if Covers(ts, k, es[0].sn, s) {
          forall i | 0 <= i < |es| ensures !Live(es[i], k, ts, s) {
          }
          ReadNothing(es, k, ts, s);
        } else {
          assert ([es[0]] + Cut(es[1..], k, ts, s))[1..] == Cut(es[1..], k, ts, s);
        }
      }
    }
  }

  lemma {:induction false} CutSkip(a: seq<Entry>, b: seq<Entry>, k: Key, ts: set<Tombstone>, s: nat)
    requires forall i | 0 <= i < |a| :: a[i].key != k || s <= a[i].sn
    ensures Cut(a + b, k, ts, s) == Cut(b, k, ts, s)
  {
    if a == [] {
      assert a + b == b;
    } else {
      CutSkip(a[1..], b, k, ts, s);
      assert (a + b)[1..] == a[1..] + b;
    }
  }

  lemma {:induction false} CutNothing(es: seq<Entry>, k: Key, ts: set<Tombstone>, s: nat)
    requires forall i | 0 <= i < |es| && es[i].key == k && es[i].sn < s :: Covers(ts, k, es[i].sn, s)
    ensures Cut(es, k, ts, s) == []
  {
    if es != [] {
      CutNothing(es[1..], k, ts, s);
    }
  }

  // ---------------------------------------------------------------------
  // Range tombstone spans
  // ---------------------------------------------------------------------

  /** The fragment over a key. */
  function FragmentAt(fs: seq<Fragment>, k: Key): (r: Option<Fragment>)
    ensures r.Some? ==> r.value in fs && r.value.start <= k < r.value.end
    ensures r.None? ==> forall i | 0 <= i < |fs| :: !(fs[i].start <= k < fs[i].end)
  {
    if fs == [] then None
    else if fs[0].start <= k < fs[0].end then Some(fs[0])
    else FragmentAt(fs[1..], k)
  }

  lemma FragmentAtOver(fs: seq<Fragment>, k: Key, x: nat)
    requires SpansOk(fs)
    ensures FragmentOver(fs, k, x) <==> FragmentAt(fs, k).Some? && x in FragmentAt(fs, k).value.seqs
  {
    if FragmentOver(fs, k, x) {
      var i :| 0 <= i < |fs| && fs[i].start <= k < fs[i].end && x in fs[i].seqs;
      var g := FragmentAt(fs, k).value;
      var j :| 0 <= j < |fs| && fs[j] == g;
    }
  }

  /** Span.CoversAt: the newest visible sequence number decides. */
  function CoversAt(seqs: seq<nat>, s: nat, sn: nat): (r: bool)
    ensures Descending(seqs) ==> (r <==> exists x :: x in seqs && sn < x < s)
  {
    if seqs == [] then false
    else if seqs[0] < s then
      assert seqs[0] in seqs && (Descending(seqs) ==> forall x | x in seqs :: x <= seqs[0]);
      sn < seqs[0]
    else
      assert forall x :: x in seqs <==> x == seqs[0] || x in seqs[1..];
      CoversAt(seqs[1..], s, sn)
  }

  /** Span.VisibleAt: the oldest sequence number decides. */
  function VisibleAt(seqs: seq<nat>, s: nat): (r: bool)
    ensures Descending(seqs) ==> (r <==> exists x :: x in seqs && x < s)
  {
    if seqs == [] then false
    else
      assert seqs[|seqs| - 1] in seqs && (Descending(seqs) ==> forall x | x in seqs :: seqs[|seqs| - 1] <= x);
      seqs[|seqs| - 1] < s
  }

  // ---------------------------------------------------------------------
  // Iterators over one source
  // ---------------------------------------------------------------------

  /** What a source's iterator is at. At the end of a table that is bounded by a
      range tombstone a level iterator returns that bound. */
  datatype Item = Nothing | At(e: Entry) | Bound(k: Key)

  /** A position in a source: a table, and a point in it. */
  datatype Cursor = Cursor(files: seq<File>, mem: bool, f: nat, i: nat)

  function SeekGE(es: seq<Entry>, k: Key): (i: nat)
    ensures i <= |es| && (forall j | 0 <= j < i :: es[j].key < k) && (i < |es| ==> k <= es[i].key)
  {
    if es == [] || k <= es[0].key then 0 else 1 + SeekGE(es[1..], k)
  }

  /** The first table that can hold k or something after it. */
  function FindFileGE(fs: seq<File>, k: Key): (f: nat)
    ensures f <= |fs|
    ensures forall j | 0 <= j < f :: !ReachesTo(fs[j], k)
    ensures f < |fs| ==> ReachesTo(fs[f], k)
  {
    if fs == [] || ReachesTo(fs[0], k) then 0 else 1 + FindFileGE(fs[1..], k)
  }

  predicate ReachesTo(f: File, k: Key) {
    k < f.bounds.largest || (k == f.bounds.largest && !f.bounds.sentinel)
  }

  function RangeDels(f: File): Option<seq<Fragment>> {
    if f.spans == [] then None else Some(f.spans)
  }

  /** Where a level iterator goes from the end of table f. */
  ghost predicate Skipped(fs: seq<File>, f: nat, g: nat, item: Item)
    requires f < |fs|
  {
    match item
    case Nothing => g == f == |fs| - 1 && !fs[f].bounds.sentinel
    case At(e) => g == f + 1 < |fs| && !fs[f].bounds.sentinel && fs[g].points != [] && e == fs[g].points[0]
    case Bound(b) =>
      && f <= g <= f + 1 && g < |fs| && fs[g].bounds.sentinel && b == fs[g].bounds.largest
      && (g == f + 1 ==> !fs[f].bounds.sentinel && fs[g].points == [])
  }

  method SkipEmptyFileForward(fs: seq<File>, f: nat) returns (g: nat, item: Item)
    requires f < |fs| && forall i | 0 <= i < |fs| :: Bounded(fs[i])
    ensures Skipped(fs, f, g, item)
  {
    g, item := f, Nothing;
    while item.Nothing?
      invariant item.Nothing? ==> g == f || (g == f + 1 < |fs| && !fs[f].bounds.sentinel && fs[g].points == [])
      invariant !item.Nothing? ==> Skipped(fs, f, g, item)
      decreases |fs| - g, if item.Nothing? then 1 else 0
    {
      if fs[g].bounds.sentinel {
        item := Bound(fs[g].bounds.largest);
        return;
      }
      if g + 1 == |fs| { return; }
      g := g + 1;
      if fs[g].points != [] { item := At(fs[g].points[0]); }
    }
  }

  // ---------------------------------------------------------------------
  // The get iterator
  // ---------------------------------------------------------------------

  /** What does not change while a key is read. levels[0] is not used: L0 is read
      through its sublevels. */
  datatype Config = Config(key: Key, snapshot: nat, levels: seq<Source>)

  /** Memtables and sublevels are listed oldest first, as in the source. */
  datatype State = State(
    mem: seq<Source>, l0: seq<Source>, level: nat,
    iter: Option<Cursor>, item: Item, rangeDel: Option<seq<Fragment>>, tombstone: Option<Fragment>)

  function Reversed(ss: seq<Source>): seq<Source> {
    if ss == [] then [] else [ss[|ss| - 1]] + Reversed(ss[..|ss| - 1])
  }

  function LevelsFrom(c: Config, n: nat): seq<Source> {
    if n <= |c.levels| then c.levels[n..] else []
  }

  /** The sources not opened yet, newest first. */
  function Left(c: Config, st: State): seq<Source> {
    Reversed(st.mem) + if st.level == 0 then Reversed(st.l0) + LevelsFrom(c, 1) else LevelsFrom(c, st.level)
  }

  /** The points from the iterator's position to the end of its source. */
  ghost function Ahead(cur: Cursor): seq<Entry>
    requires cur.f < |cur.files| && cur.i <= |cur.files[cur.f].points|
  {
    cur.files[cur.f].points[cur.i..] + FilePoints(cur.files[cur.f + 1..])
  }

  ghost predicate CursorOk(c: Config, cur: Cursor, item: Item) {
    && SourceOk(Source(cur.files, cur.mem, 0)) && cur.f < |cur.files|
    && match item
       case Nothing => Beyond(cur.files, cur.f, c.key)
       case At(e) => cur.i < |cur.files[cur.f].points| && e == cur.files[cur.f].points[cur.i] && c.key <= e.key
       case Bound(b) => !cur.mem && cur.files[cur.f].bounds.sentinel && b == cur.files[cur.f].bounds.largest && c.key < b
  }

  /** Tables after f know nothing of k. */
  ghost predicate Beyond(fs: seq<File>, f: nat, k: Key) {
    forall g | f < g < |fs| ::
      && (forall i | 0 <= i < |fs[g].points| :: fs[g].points[i].key != k)
      && (forall x: nat :: !FragmentOver(fs[g].spans, k, x))
  }

  /** Everything still to be looked at. */
  ghost function Rest(c: Config, st: State): seq<Entry>
    requires st.iter.Some? ==> CursorOk(c, st.iter.value, st.item)
  {
    (if st.iter.Some? && st.item.At? then Ahead(st.iter.value) else []) + Points(Left(c, st))
  }

  /** A tombstone with number x over the key is in a table looked at so far. */
  ghost predicate Passed(c: Config, all: seq<Source>, st: State, x: nat) {
    var n := |all| - |Left(c, st)|;
    if st.iter.Some? then
      exists g :: 0 <= g <= st.iter.value.f && g < |st.iter.value.files| && FragmentOver(st.iter.value.files[g].spans, c.key, x)
    else
      0 <= n <= |all| && OverSome(all[..n], c.key, x)
  }

  /** The tombstone that the next check will use. */
  function Current(c: Config, st: State): Option<Fragment> {
    if st.rangeDel.Some? then FragmentAt(st.rangeDel.value, c.key) else st.tombstone
  }

  predicate InCurrent(c: Config, st: State, x: nat) {
    Current(c, st).Some? && x in Current(c, st).value.seqs
  }

  /** Of the tombstones passed, the visible ones are in hand. */
  ghost predicate Known(c: Config, all: seq<Source>, st: State) {
    && (forall x: nat | x < c.snapshot :: Passed(c, all, st, x) <==> InCurrent(c, st, x))
    && (Current(c, st).Some? ==> Descending(Current(c, st).value.seqs))
  }

  /** No visible tombstone over the key is in the first n sources. */
  ghost predicate Clear(c: Config, all: seq<Source>, n: nat) {
    n <= |all| && forall x: nat | x < c.snapshot :: !OverSome(all[..n], c.key, x)
  }

  /** What kind of source is where. */
  predicate Layout(c: Config, st: State) {
    && (forall i | 0 <= i < |st.mem| :: st.mem[i].mem)
    && (forall i | 0 <= i < |st.l0| :: !st.l0[i].mem && st.l0[i].files != [])
    && (forall i | 0 <= i < |c.levels| :: !c.levels[i].mem)
  }

  ghost predicate Inv(c: Config, all: seq<Source>, st: State) {
    var n := |all| - |Left(c, st)|;
    && Layout(c, st) && StoreOk(all) && 0 <= n && Left(c, st) == all[n..] && Known(c, all, st)
    && (st.iter.Some? ==>
          && 1 <= n && st.iter.value.files == all[n - 1].files && st.iter.value.mem == all[n - 1].mem
          && CursorOk(c, st.iter.value, st.item) && Clear(c, all, n - 1))
    && (st.iter.None? ==> st.rangeDel.None?)
  }

  /** The iterator has met a tombstone that deletes all that is left. */
  ghost predicate Finished(c: Config, all: seq<Source>, st: State) {
    && st.iter.None? && st.tombstone.Some? && VisibleAt(st.tombstone.value.seqs, c.snapshot)
    && Cut(Points(Left(c, st)), c.key, StoreTombstones(all), c.snapshot) == []
  }

  /** Between calls the iterator rests on the version that it returned last. */
  ghost predicate Valid(c: Config, all: seq<Source>, st: State) {
    || Finished(c, all, st)
    || (&& Inv(c, all, st) && st.rangeDel.None?
        && (st.iter.Some? ==> st.item.At? && st.item.e.key == c.key))
  }

  /** The versions that later calls will return. */
  ghost function Remaining(c: Config, all: seq<Source>, st: State): seq<Entry>
    requires Valid(c, all, st)
  {
    var rest := if st.iter.Some? then Rest(c, st)[1..] else Points(Left(c, st));
    Cut(rest, c.key, StoreTombstones(all), c.snapshot)
  }

  // ---------------------------------------------------------------------
  // Facts about sources
  // ---------------------------------------------------------------------

  /** A table that ends after k keeps all later ones away from k. */
  lemma EndsAfter(fs: seq<File>, f: nat, k: Key)
    requires SourceOk(Source(fs, false, 0)) && f < |fs| && k < fs[f].bounds.largest
    ensures Beyond(fs, f, k)
  {
    forall g | f < g < |fs|
      ensures (forall i | 0 <= i < |fs[g].points| :: fs[g].points[i].key != k) && (forall x: nat :: !FragmentOver(fs[g].spans, k, x))
    {
      assert Follows(fs[f], fs[g]) && Bounded(fs[g]);
    }
  }

  /** A table that ends at or before k has no tombstone over k. */
  lemma EndsBefore(f: File, k: Key, x: nat)
    requires Bounded(f) && f.bounds.largest <= k
    ensures !FragmentOver(f.spans, k, x)
  {
  }

  /** No table of the level beyond f has a tombstone that deletes a version of k in f. */
  lemma LaterSpare(fs: seq<File>, f: nat, i: nat, g: nat, k: Key, x: nat)
    requires SourceOk(Source(fs, false, 0)) && f < g < |fs| && i < |fs[f].points| && fs[f].points[i].key == k
    requires FragmentOver(fs[g].spans, k, x)
    ensures x <= fs[f].points[i].sn
  {
    assert Follows(fs[f], fs[g]) && Bounded(fs[g]) && Bounded(fs[f]);
    var j :| 0 <= j < |fs[g].spans| && fs[g].spans[j].start <= k < fs[g].spans[j].end && x in fs[g].spans[j].seqs;
    assert fs[f].bounds.Contains(k);
    assert fs[g].spans[j].start == k;
  }

  predicate NoKey(es: seq<Entry>, k: Key) {
    forall i | 0 <= i < |es| :: es[i].key != k
  }

  lemma {:induction false} NoKeyFiles(fs: seq<File>, k: Key)
    requires forall f | 0 <= f < |fs| :: NoKey(fs[f].points, k)
    ensures NoKey(FilePoints(fs), k)
  {
    if fs != [] {
      NoKeyFiles(fs[1..], k);
    }
  }

  lemma {:induction false} FilesSplit(fs: seq<File>, f: nat)
    requires f < |fs|
    ensures FilePoints(fs) == FilePoints(fs[..f]) + fs[f].points + FilePoints(fs[f + 1..])
  {
    if f == 0 {
    } else {
      FilesSplit(fs[1..], f - 1);
      assert fs[1..][..f - 1] == fs[..f][1..];
      assert fs[1..][f..] == fs[f + 1..];
    }
  }

  // ---------------------------------------------------------------------
  // Opening a source
  // ---------------------------------------------------------------------

  /** A seek passes over nothing that concerns the key, and says which range
      tombstones the table it stopped in has. */
  ghost predicate Sought(c: Config, cur: Cursor, item: Item, rd: Option<seq<Fragment>>) {
    && CursorOk(c, cur, item) && !item.Bound?
    && (forall g, x: nat | 0 <= g < cur.f :: !FragmentOver(cur.files[g].spans, c.key, x))
    && (if rd.Some? then rd.value == cur.files[cur.f].spans
        else forall x: nat :: !FragmentOver(cur.files[cur.f].spans, c.key, x))
    && SkipsNothing(c, cur, item)
  }

  ghost predicate SkipsNothing(c: Config, cur: Cursor, item: Item)
    requires CursorOk(c, cur, item)
  {
    if item.At? then NoKey(FilePoints(cur.files[..cur.f]), c.key) && NoKey(cur.files[cur.f].points[..cur.i], c.key)
    else NoKey(FilePoints(cur.files), c.key)
  }

  method SeekMemtable(c: Config, s: Source) returns (cur: Cursor, item: Item, rd: Option<seq<Fragment>>)
    requires SourceOk(s) && s.mem
    ensures cur.files == s.files && cur.mem == s.mem && Sought(c, cur, item, rd)
  {
    var file := s.files[0];
    var i := SeekGE(file.points, c.key);
    cur := Cursor(s.files, true, 0, i);
    item := if i < |file.points| then At(file.points[i]) else Nothing;
    rd := RangeDels(file);
    if item.Nothing? { NoKeyFiles(s.files, c.key); }
  }

  lemma PassedFiles(s: Source, k: Key, f: nat)
    requires SourceOk(s) && !s.mem && f <= |s.files| && forall j | 0 <= j < f :: !ReachesTo(s.files[j], k)
    ensures forall g, x: nat | 0 <= g < f :: !FragmentOver(s.files[g].spans, k, x)
    ensures NoKey(FilePoints(s.files[..f]), k)
  {
    forall g, x: nat | 0 <= g < f ensures !FragmentOver(s.files[g].spans, k, x) {
      EndsBefore(s.files[g], k, x);
    }
    forall g | 0 <= g < f ensures NoKey(s.files[..f][g].points, k) {
      assert Bounded(s.files[g]);
    }
    NoKeyFiles(s.files[..f], k);
  }

  /** A table that reaches to k and does not hold k ends after k. */
  lemma NotInFile(s: Source, f: nat, k: Key)
    requires SourceOk(s) && !s.mem && f < |s.files| && forall j | 0 <= j < f :: !ReachesTo(s.files[j], k)
    requires ReachesTo(s.files[f], k) && NoKey(s.files[f].points, k)
    ensures k < s.files[f].bounds.largest && Beyond(s.files, f, k) && NoKey(FilePoints(s.files), k)
  {
    assert Bounded(s.files[f]);
    EndsAfter(s.files, f, k);
    forall g | 0 <= g < |s.files| ensures NoKey(s.files[g].points, k) {
      if g < f { assert Bounded(s.files[g]); }
    }
    NoKeyFiles(s.files, k);
  }

  /** levelIter.SeekPrefixGE, with the bounds it returns for empty tables ignored. */
  method SeekLevel(c: Config, s: Source) returns (cur: Cursor, item: Item, rd: Option<seq<Fragment>>)
    requires SourceOk(s) && !s.mem && s.files != []
    ensures cur.files == s.files && cur.mem == s.mem && Sought(c, cur, item, rd)
  {
    hide SourceOk, FilePoints, Beyond;
    var f := FindFileGE(s.files, c.key);
    PassedFiles(s, c.key, f);
    SameFiles(s);
    if f == |s.files| {
      assert s.files[..f] == s.files;
      NothingBeyond(s.files, c.key);
      return Cursor(s.files, false, f - 1, 0), Nothing, None;
    }
    var file := s.files[f];
    var i := SeekGE(file.points, c.key);
    if c.key !in file.absent && i < |file.points| {
      return Cursor(s.files, false, f, i), At(file.points[i]), RangeDels(file);
    }
    // The table ends after the key, so the level iterator does not go on to the next one.
    KeyIsAbsent(s, f, c.key, i);
    NotInFile(s, f, c.key);
    return Cursor(s.files, false, f, 0), Nothing, RangeDels(file);
  }

  lemma SameFiles(s: Source)
    requires SourceOk(s)
    ensures SourceOk(Source(s.files, s.mem, 0))
  {
  }

  lemma NothingBeyond(fs: seq<File>, k: Key)
    requires fs != []
    ensures Beyond(fs, |fs| - 1, k)
  {
  }

  lemma KeyIsAbsent(s: Source, f: nat, k: Key, i: nat)
    requires SourceOk(s) && f < |s.files| && i == SeekGE(s.files[f].points, k)
    requires k in s.files[f].absent || i == |s.files[f].points|
    ensures NoKey(s.files[f].points, k)
  {
    assert FileOk(s.files[f]);
  }

  lemma {:induction false} PointsOfLeft(all: seq<Source>, n: nat)
    requires n < |all|
    ensures Points(all[n..]) == FilePoints(all[n].files) + Points(all[n + 1..])
  {
    assert all[n..][1..] == all[n + 1..];
  }

  lemma AheadSplit(cur: Cursor)
    requires cur.f < |cur.files| && cur.i <= |cur.files[cur.f].points|
    ensures FilePoints(cur.files) == FilePoints(cur.files[..cur.f]) + cur.files[cur.f].points[..cur.i] + Ahead(cur)
  {
    hide FilePoints;
    FilesSplit(cur.files, cur.f);
    var pts := cur.files[cur.f].points;
    assert pts == pts[..cur.i] + pts[cur.i..];
  }

  lemma SoughtCut(c: Config, cur: Cursor, item: Item, rest: seq<Entry>, ts: set<Tombstone>)
    requires CursorOk(c, cur, item) && SkipsNothing(c, cur, item)
    ensures Cut((if item.At? then Ahead(cur) else []) + rest, c.key, ts, c.snapshot)
            == Cut(FilePoints(cur.files) + rest, c.key, ts, c.snapshot)
  {
    hide SourceOk, Beyond, Ahead, FilePoints, Cut;
    var k, s := c.key, c.snapshot;
    if item.At? {
      var pre := FilePoints(cur.files[..cur.f]) + cur.files[cur.f].points[..cur.i];
      AheadSplit(cur);
      assert pre + Ahead(cur) + rest == pre + (Ahead(cur) + rest);
      CutSkip(pre, Ahead(cur) + rest, k, ts, s);
    } else {
      CutSkip(FilePoints(cur.files), rest, k, ts, s);
      assert [] + rest == rest;
    }
  }

  ghost predicate Opens(c: Config, all: seq<Source>, st: State, st': State) {
    && Inv(c, all, st) && st.iter.None? && Left(c, st) != []
    && (st.tombstone.Some? ==> !VisibleAt(st.tombstone.value.seqs, c.snapshot))
    && Layout(c, st') && Left(c, st') == Left(c, st)[1..] && st'.tombstone == st.tombstone && st'.iter.Some?
    && st'.iter.value.files == Left(c, st)[0].files && st'.iter.value.mem == Left(c, st)[0].mem
    && Sought(c, st'.iter.value, st'.item, st'.rangeDel)
  }

  lemma OpenClear(c: Config, all: seq<Source>, st: State)
    requires Inv(c, all, st) && st.iter.None? && (st.tombstone.Some? ==> !VisibleAt(st.tombstone.value.seqs, c.snapshot))
    ensures Clear(c, all, |all| - |Left(c, st)|)
    ensures forall x: nat | x < c.snapshot :: !InCurrent(c, st, x)
  {
    hide Left, StoreOk, OverSome;
    var n := |all| - |Left(c, st)|;
    forall x: nat | x < c.snapshot ensures !OverSome(all[..n], c.key, x) && !InCurrent(c, st, x) {
      assert Passed(c, all, st, x) <==> InCurrent(c, st, x);
    }
  }

  lemma OpenKnown(c: Config, all: seq<Source>, st: State, st': State)
    requires Opens(c, all, st, st')
    ensures Known(c, all, st')
  {
    hide Left, StoreOk, SourceOk, OverSome, SkipsNothing, Beyond;
    var cur := st'.iter.value;
    OpenClear(c, all, st);
    CursorSpans(c, cur, st'.item);
    forall x: nat | x < c.snapshot ensures Passed(c, all, st', x) <==> InCurrent(c, st', x) {
      assert !InCurrent(c, st, x);
      if st'.rangeDel.Some? { FragmentAtOver(cur.files[cur.f].spans, c.key, x); }
    }
  }

  /** Opening the next source, with no visible tombstone in hand. */
  lemma OpenInv(c: Config, all: seq<Source>, st: State, st': State)
    requires Opens(c, all, st, st')
    ensures Inv(c, all, st')
    ensures Cut(Rest(c, st'), c.key, StoreTombstones(all), c.snapshot) == Cut(Rest(c, st), c.key, StoreTombstones(all), c.snapshot)
  {
    hide Left, StoreOk, SourceOk, StoreTombstones, OverSome, Known, Clear, SkipsNothing, Beyond;
    var n := |all| - |Left(c, st)|;
    var cur := st'.iter.value;
    assert Left(c, st') == all[n + 1..];
    OpenClear(c, all, st);
    OpenKnown(c, all, st, st');
    PointsOfLeft(all, n);
    SoughtCut(c, cur, st'.item, Points(Left(c, st')), StoreTombstones(all));
    assert Rest(c, st) == FilePoints(cur.files) + Points(Left(c, st'));
  }

  lemma CursorSpans(c: Config, cur: Cursor, item: Item)
    requires CursorOk(c, cur, item)
    ensures SpansOk(cur.files[cur.f].spans)
  {
    assert FileOk(cur.files[cur.f]);
  }

  // ---------------------------------------------------------------------
  // Moving within a source
  // ---------------------------------------------------------------------

  /** The iterator's Next from a version of the key. */
  ghost predicate Stepped(c: Config, cur: Cursor, cur': Cursor, item: Item, rd: Option<seq<Fragment>>)
    requires cur.f < |cur.files|
  {
    && cur'.files == cur.files && cur'.mem == cur.mem
    && if cur.i + 1 < |cur.files[cur.f].points| then
         cur'.f == cur.f && cur'.i == cur.i + 1 && item == At(cur.files[cur.f].points[cur.i + 1]) && rd.None?
       else if cur.mem then cur' == cur && item.Nothing? && rd.None?
       else Skipped(cur.files, cur.f, cur'.f, item) && cur'.i == 0
            && rd == (if cur'.f == cur.f then None else RangeDels(cur.files[cur'.f]))
  }

  method Step(c: Config, cur: Cursor, item: Item) returns (cur': Cursor, item': Item, rd: Option<seq<Fragment>>)
    requires CursorOk(c, cur, item) && item.At? && item.e.key == c.key
    ensures Stepped(c, cur, cur', item', rd)
  {
    if cur.i + 1 < |cur.files[cur.f].points| {
      return cur.(i := cur.i + 1), At(cur.files[cur.f].points[cur.i + 1]), None;
    }
    if cur.mem {
      return cur, Nothing, None;
    }
    var g, next := SkipEmptyFileForward(cur.files, cur.f);
    return Cursor(cur.files, false, g, 0), next, if g == cur.f then None else RangeDels(cur.files[g]);
  }

  /** Where the iterator is after Next. */
  lemma SteppedOk(c: Config, cur: Cursor, item: Item, cur': Cursor, item': Item, rd: Option<seq<Fragment>>)
    requires CursorOk(c, cur, item) && item.At? && item.e.key == c.key && Stepped(c, cur, cur', item', rd)
    ensures CursorOk(c, cur', item') && cur'.files == cur.files && cur'.mem == cur.mem
    ensures cur.f <= cur'.f <= cur.f + 1
    ensures cur'.f == cur.f + 1 ==> !cur.mem && cur.files[cur.f].bounds.largest == c.key
  {
    var fs, f, g := cur.files, cur.f, cur'.f;
    assert FileOk(fs[f]);
    if cur.i + 1 < |fs[f].points| {
      assert Before(fs[f].points[cur.i], fs[f].points[cur.i + 1]);
    } else if !cur.mem {
      assert Bounded(fs[f]) && fs[f].bounds.Contains(c.key);
      if g == f + 1 {
        assert Follows(fs[f], fs[g]) && Bounded(fs[g]);
        if item'.At? { assert Before(fs[f].points[cur.i], fs[g].points[0]); }
      }
    }
  }

  /** What is ahead after Next, apart from points of no interest. */
  lemma SteppedAhead(c: Config, cur: Cursor, item: Item, cur': Cursor, item': Item, rd: Option<seq<Fragment>>)
    returns (skipped: seq<Entry>)
    requires CursorOk(c, cur, item) && item.At? && item.e.key == c.key && Stepped(c, cur, cur', item', rd) && CursorOk(c, cur', item')
    ensures NoKey(skipped, c.key) && Ahead(cur) == [item.e] + skipped + (if item'.At? then Ahead(cur') else [])
  {
    hide SourceOk, Beyond, RangeDels, FilePoints, Ahead;
    var fs, f, e := cur.files, cur.f, item.e;
    assert [e] + [] == [e];
    if cur.i + 1 < |fs[f].points| {
      skipped := [];
      NextInFile(cur);
      assert cur' == cur.(i := cur.i + 1);
    } else {
      LastInFile(cur);
      if item'.At? {
        skipped := [];
        NextFile(cur, cur');
      } else {
        skipped := FilePoints(fs[f + 1..]);
        assert [e] + skipped + [] == [e] + skipped;
        NoneAhead(c, cur, cur', item');
      }
    }
  }

  lemma NextInFile(cur: Cursor)
    requires cur.f < |cur.files| && cur.i + 1 < |cur.files[cur.f].points|
    ensures Ahead(cur) == [cur.files[cur.f].points[cur.i]] + Ahead(cur.(i := cur.i + 1))
  {
    hide FilePoints;
  }

  lemma LastInFile(cur: Cursor)
    requires cur.f < |cur.files| && cur.i + 1 == |cur.files[cur.f].points|
    ensures Ahead(cur) == [cur.files[cur.f].points[cur.i]] + FilePoints(cur.files[cur.f + 1..])
  {
    hide FilePoints;
  }

  lemma NextFile(cur: Cursor, cur': Cursor)
    requires cur.f + 1 == cur'.f < |cur.files| && cur'.files == cur.files && cur'.i == 0
    ensures FilePoints(cur.files[cur.f + 1..]) == Ahead(cur')
  {
    var later := cur.files[cur.f + 1..];
    assert later[0] == cur.files[cur'.f] && later[1..] == cur.files[cur'.f + 1..];
    assert later[0].points[0..] == later[0].points;
  }

  lemma NoneAhead(c: Config, cur: Cursor, cur': Cursor, item': Item)
    requires cur.f < |cur.files| && cur'.files == cur.files && CursorOk(c, cur', item') && !item'.At?
    requires cur'.f == cur.f || (cur'.f == cur.f + 1 && cur.files[cur'.f].points == [])
    ensures NoKey(FilePoints(cur.files[cur.f + 1..]), c.key)
  {
    var fs := cur.files;
    if item'.Bound? { EndsAfter(fs, cur'.f, c.key); }
    assert Beyond(fs, cur'.f, c.key);
    var later := fs[cur.f + 1..];
    forall h | 0 <= h < |later| ensures NoKey(later[h].points, c.key) {
      assert later[h] == fs[cur.f + 1 + h];
    }
    NoKeyFiles(later, c.key);
  }

  ghost predicate Steps(c: Config, all: seq<Source>, st: State, st': State) {
    && Inv(c, all, st) && st.rangeDel.None? && st.iter.Some? && st.item.At? && st.item.e.key == c.key
    && st'.iter.Some? && st' == st.(iter := st'.iter, item := st'.item, rangeDel := st'.rangeDel)
    && Stepped(c, st.iter.value, st'.iter.value, st'.item, st'.rangeDel)
  }

  lemma StepKnown(c: Config, all: seq<Source>, st: State, st': State)
    requires Steps(c, all, st, st') && CursorOk(c, st'.iter.value, st'.item)
    requires st.iter.value.f <= st'.iter.value.f <= st.iter.value.f + 1
    requires st'.iter.value.f == st.iter.value.f + 1 ==>
               !st.iter.value.mem && st.iter.value.files[st.iter.value.f].bounds.largest == c.key
    ensures Known(c, all, st')
  {
    hide Left, StoreOk, OverSome, Beyond, Clear;
    var cur, cur' := st.iter.value, st'.iter.value;
    if cur'.f == cur.f {
      forall x: nat | x < c.snapshot ensures Passed(c, all, st', x) <==> InCurrent(c, st', x) {
        assert Passed(c, all, st, x) <==> InCurrent(c, st, x);
      }
    } else {
      CursorSpans(c, cur', st'.item);
      forall x: nat | x < c.snapshot ensures Passed(c, all, st', x) <==> InCurrent(c, st', x) {
        NoneSoFar(c, cur, x);
        assert Passed(c, all, st, x) <==> InCurrent(c, st, x);
        FragmentAtOver(cur'.files[cur'.f].spans, c.key, x);
      }
    }
  }

  lemma NoneSoFar(c: Config, cur: Cursor, x: nat)
    requires SourceOk(Source(cur.files, cur.mem, 0)) && !cur.mem && cur.f < |cur.files| && cur.files[cur.f].bounds.largest == c.key
    ensures forall g | 0 <= g <= cur.f :: !FragmentOver(cur.files[g].spans, c.key, x)
  {
    forall g | 0 <= g <= cur.f ensures !FragmentOver(cur.files[g].spans, c.key, x) {
      assert Bounded(cur.files[g]);
      if g < cur.f { assert Follows(cur.files[g], cur.files[cur.f]) && Bounded(cur.files[cur.f]); }
      EndsBefore(cur.files[g], c.key, x);
    }
  }

  lemma StepInv(c: Config, all: seq<Source>, st: State, st': State)
    requires Steps(c, all, st, st')
    ensures Inv(c, all, st') && |Rest(c, st')| < |Rest(c, st)| && Left(c, st') == Left(c, st)
    ensures Cut(Rest(c, st'), c.key, StoreTombstones(all), c.snapshot) == Cut(Rest(c, st)[1..], c.key, StoreTombstones(all), c.snapshot)
  {
    hide Left, StoreOk, StoreTombstones, OverSome, Known, Clear, Beyond, SourceOk, Stepped, Ahead, Skipped;
    var cur, cur' := st.iter.value, st'.iter.value;
    SteppedOk(c, cur, st.item, cur', st'.item, st'.rangeDel);
    StepKnown(c, all, st, st');
    SameLeft(c, st, st');
    var skipped := SteppedAhead(c, cur, st.item, cur', st'.item, st'.rangeDel);
    var rest := (if st'.item.At? then Ahead(cur') else []) + Points(Left(c, st));
    assert Rest(c, st) == [st.item.e] + (skipped + rest);
    CutSkip(skipped, rest, c.key, StoreTombstones(all), c.snapshot);
  }

  lemma SameLeft(c: Config, st: State, st': State)
    requires st'.mem == st.mem && st'.l0 == st.l0 && st'.level == st.level
    ensures Left(c, st') == Left(c, st)
  {
  }

  // ---------------------------------------------------------------------
  // Leaving a source
  // ---------------------------------------------------------------------

  /** The iterator is past the key. */
  predicate PastKey(c: Config, item: Item) {
    item.At? ==> c.key < item.e.key
  }

  lemma PastIsBeyond(c: Config, cur: Cursor, item: Item)
    requires CursorOk(c, cur, item) && PastKey(c, item)
    ensures Beyond(cur.files, cur.f, c.key)
  {
    if !cur.mem {
      if item.At? {
        assert Bounded(cur.files[cur.f]);
        assert cur.files[cur.f].bounds.Contains(item.e.key);
        EndsAfter(cur.files, cur.f, c.key);
      } else if item.Bound? {
        EndsAfter(cur.files, cur.f, c.key);
      }
    }
  }

  lemma PastAhead(c: Config, cur: Cursor, item: Item)
    requires CursorOk(c, cur, item) && item.At? && PastKey(c, item)
    ensures NoKey(Ahead(cur), c.key)
  {
    PastIsBeyond(c, cur, item);
    var fs, f := cur.files, cur.f;
    var pts, later := fs[f].points, fs[f + 1..];
    forall i | cur.i <= i < |pts| ensures pts[i].key != c.key {
      assert FileOk(fs[f]);
      if cur.i < i { assert Before(pts[cur.i], pts[i]); }
    }
    forall h | 0 <= h < |later| ensures NoKey(later[h].points, c.key) {
      assert later[h] == fs[f + 1 + h];
    }
    NoKeyFiles(later, c.key);
  }

  ghost predicate Closes(c: Config, all: seq<Source>, st: State, st': State) {
    && Inv(c, all, st) && st.rangeDel.None? && st.iter.Some? && PastKey(c, st.item) && st' == st.(iter := None)
  }

  lemma ClearOf(c: Config, all: seq<Source>, n: nat, x: nat)
    requires Clear(c, all, n) && x < c.snapshot
    ensures forall m | 0 <= m < n :: !HoldsSpan(all[m], c.key, x)
  {
    forall m | 0 <= m < n ensures !HoldsSpan(all[m], c.key, x) {
      assert !OverSome(all[..n], c.key, x);
      assert all[..n][m] == all[m];
    }
  }

  lemma CloseKnown(c: Config, all: seq<Source>, st: State, st': State)
    requires Closes(c, all, st, st')
    ensures Known(c, all, st')
  {
    hide Left, StoreOk, FragmentOver, SourceOk;
    var n, cur := |all| - |Left(c, st)|, st.iter.value;
    PastIsBeyond(c, cur, st.item);
    SameLeft(c, st, st');
    forall x: nat | x < c.snapshot ensures Passed(c, all, st', x) <==> InCurrent(c, st', x) {
      assert Passed(c, all, st, x) <==> InCurrent(c, st, x);
      assert !OverSome(all[..n - 1], c.key, x);
      if Passed(c, all, st, x) {
        var g :| 0 <= g <= cur.f && g < |cur.files| && FragmentOver(cur.files[g].spans, c.key, x);
        assert HoldsSpan(all[..n][n - 1], c.key, x);
      }
      if Passed(c, all, st', x) {
        var m :| 0 <= m < n && HoldsSpan(all[..n][m], c.key, x);
        ClearOf(c, all, n - 1, x);
        var g :| 0 <= g < |all[m].files| && FragmentOver(all[m].files[g].spans, c.key, x);
      }
    }
  }

  lemma CloseInv(c: Config, all: seq<Source>, st: State, st': State)
    requires Closes(c, all, st, st')
    ensures Inv(c, all, st')
    ensures Cut(Rest(c, st'), c.key, StoreTombstones(all), c.snapshot) == Cut(Rest(c, st), c.key, StoreTombstones(all), c.snapshot)
  {
    hide Left, StoreOk, StoreTombstones, Known, Clear, Beyond, SourceOk, Ahead;
    CloseKnown(c, all, st, st');
    SameLeft(c, st, st');
    var left := Points(Left(c, st));
    assert [] + left == left;
    if st.item.At? {
      PastAhead(c, st.iter.value, st.item);
      CutSkip(Ahead(st.iter.value), left, c.key, StoreTombstones(all), c.snapshot);
    }
  }

  // ---------------------------------------------------------------------
  // Deleted, or not
  // ---------------------------------------------------------------------

  lemma {:induction false} FilePointHeld(fs: seq<File>, i: nat)
    requires i < |FilePoints(fs)|
    ensures HoldsPoint(Source(fs, true, 0), FilePoints(fs)[i].key, FilePoints(fs)[i].sn)
  {
    var n := |fs[0].points|;
    if i < n {
      assert fs[0].points[i] == FilePoints(fs)[i];
    } else {
      FilePointHeld(fs[1..], i - n);
      var e := FilePoints(fs)[i];
      assert FilePoints(fs[1..])[i - n] == e;
      var f, j :| 0 <= f < |fs[1..]| && 0 <= j < |fs[1..][f].points| && fs[1..][f].points[j].key == e.key && fs[1..][f].points[j].sn == e.sn;
      assert fs[f + 1].points[j].key == e.key;
    }
  }

  lemma {:induction false} PointHeld(all: seq<Source>, i: nat) returns (n: nat)
    requires i < |Points(all)|
    ensures n < |all| && HoldsPoint(all[n], Points(all)[i].key, Points(all)[i].sn)
  {
    var here := FilePoints(all[0].files);
    if i < |here| {
      FilePointHeld(all[0].files, i);
      n := 0;
    } else {
      var m := PointHeld(all[1..], i - |here|);
      n := m + 1;
    }
  }

  /** A visible tombstone over the key deletes what older sources have of it. */
  lemma OlderCovered(all: seq<Source>, m: nat, n: nat, k: Key, x: nat, s: nat)
    requires StoreOk(all) && m < n <= |all| && HoldsSpan(all[m], k, x) && x < s
    ensures forall i | 0 <= i < |Points(all[n..])| && Points(all[n..])[i].key == k :: Points(all[n..])[i].sn < x
    ensures Cut(Points(all[n..]), k, StoreTombstones(all), s) == []
  {
    hide SourceOk, StoreTombstones, HoldsPoint, HoldsSpan;
    var ts, es := StoreTombstones(all), Points(all[n..]);
    forall i | 0 <= i < |es| && es[i].key == k ensures es[i].sn < x {
      var j := PointHeld(all[n..], i);
      assert all[n..][j] == all[n + j];
      assert Newer(all[m], all[n + j]);
    }
    assert OverSome(all, k, x);
    StoreTombstoneOver(all, k, x);
    forall i | 0 <= i < |es| && es[i].key == k && es[i].sn < s ensures Covers(ts, k, es[i].sn, s) {
      CoversBy(ts, k, es[i].sn, s);
    }
    CutNothing(es, k, ts, s);
  }

  /** A visible tombstone in hand when a source is used up deletes the rest. */
  lemma VisibleStops(c: Config, all: seq<Source>, st: State)
    requires Inv(c, all, st) && st.iter.None? && st.tombstone.Some? && VisibleAt(st.tombstone.value.seqs, c.snapshot)
    ensures Finished(c, all, st)
  {
    hide Left, StoreOk, StoreTombstones, HoldsSpan, Layout;
    var n := |all| - |Left(c, st)|;
    var x :| x in st.tombstone.value.seqs && x < c.snapshot;
    assert Passed(c, all, st, x) <==> InCurrent(c, st, x);
    var m :| 0 <= m < n && HoldsSpan(all[..n][m], c.key, x);
    OlderCovered(all, m, n, c.key, x, c.snapshot);
  }

  lemma LaterOlder(c: Config, cur: Cursor, item: Item, i: nat)
    requires CursorOk(c, cur, item) && item.At? && item.e.key == c.key
    requires i < |FilePoints(cur.files[cur.f + 1..])| && FilePoints(cur.files[cur.f + 1..])[i].key == c.key
    ensures FilePoints(cur.files[cur.f + 1..])[i].sn <= item.e.sn
  {
    hide FilePoints, FileOk, Bounded, Beyond;
    var fs, f, later := cur.files, cur.f, cur.files[cur.f + 1..];
    FilePointHeld(later, i);
    var sn := FilePoints(later)[i].sn;
    var g, j :| 0 <= g < |later| && 0 <= j < |later[g].points| && later[g].points[j].key == c.key && later[g].points[j].sn == sn;
    assert later[g] == fs[f + 1 + g];
    assert Follows(fs[f], fs[f + 1 + g]);
    assert Before(fs[f].points[cur.i], fs[f + 1 + g].points[j]);
  }

  /** Versions of the key ahead are no newer than the current point. */
  lemma AheadOlder(c: Config, cur: Cursor, item: Item)
    requires CursorOk(c, cur, item) && item.At?
    ensures forall i | 0 <= i < |Ahead(cur)| && Ahead(cur)[i].key == c.key :: Ahead(cur)[i].sn <= item.e.sn
  {
    if PastKey(c, item) {
      hide CursorOk;
      PastAhead(c, cur, item);
    } else {
      var fs, f := cur.files, cur.f;
      assert FileOk(fs[f]);
      hide SourceOk, FilePoints, Bounded, Follows, Beyond;
      forall i | 0 <= i < |Ahead(cur)| && Ahead(cur)[i].key == c.key ensures Ahead(cur)[i].sn <= item.e.sn {
        var n := |fs[f].points| - cur.i;
        if i < n {
          assert i > 0 ==> Before(fs[f].points[cur.i], fs[f].points[cur.i + i]);
        } else {
          LaterOlder(c, cur, item, i - n);
        }
      }
    }
  }

  /** A tombstone that covers the current point, the key's or its neighbour's,
      deletes every version that is left. */
  lemma CoversStops(c: Config, all: seq<Source>, st: State)
    requires Inv(c, all, st) && st.rangeDel.None? && st.iter.Some? && st.item.At?
    requires st.tombstone.Some? && CoversAt(st.tombstone.value.seqs, c.snapshot, st.item.e.sn)
    ensures Cut(Rest(c, st), c.key, StoreTombstones(all), c.snapshot) == [] && Finished(c, all, st.(iter := None))
  {
    hide Left, StoreOk, StoreTombstones, CursorOk, Clear, Ahead;
    var n, cur, ts := |all| - |Left(c, st)|, st.iter.value, StoreTombstones(all);
    var x :| x in st.tombstone.value.seqs && st.item.e.sn < x < c.snapshot;
    assert Passed(c, all, st, x) <==> InCurrent(c, st, x);
    assert HoldsSpan(all[n - 1], c.key, x);
    OlderCovered(all, n - 1, n, c.key, x, c.snapshot);
    AheadOlder(c, cur, st.item);
    SameLeft(c, st, st.(iter := None));
    assert OverSome(all, c.key, x);
    StoreTombstoneOver(all, c.key, x);
    var rest := Rest(c, st);
    forall i | 0 <= i < |rest| && rest[i].key == c.key && rest[i].sn < c.snapshot ensures Covers(ts, c.key, rest[i].sn, c.snapshot) {
      CoversBy(ts, c.key, rest[i].sn, c.snapshot);
    }
    CutNothing(rest, c.key, ts, c.snapshot);
  }

  /** A version that the tombstone in hand spares is deleted by no other. */
  lemma NotCovered(c: Config, all: seq<Source>, st: State)
    requires Inv(c, all, st) && st.rangeDel.None? && st.iter.Some? && st.item.At? && st.item.e.key == c.key
    requires st.tombstone.Some? ==> !CoversAt(st.tombstone.value.seqs, c.snapshot, st.item.e.sn)
    ensures !Covers(StoreTombstones(all), c.key, st.item.e.sn, c.snapshot)
  {
    hide Left, StoreTombstones, Covers;
    var n, cur, ts, e := |all| - |Left(c, st)|, st.iter.value, StoreTombstones(all), st.item.e;
    CoversBy(ts, c.key, e.sn, c.snapshot);
    forall x: nat | e.sn < x < c.snapshot ensures !OverKey(ts, c.key, x) {
      StoreTombstoneOver(all, c.key, x);
      assert Passed(c, all, st, x) <==> InCurrent(c, st, x);
      if OverSome(all, c.key, x) {
        var m :| 0 <= m < |all| && HoldsSpan(all[m], c.key, x);
        Spared(c, all, st, m, x);
      }
    }
  }

  lemma Spared(c: Config, all: seq<Source>, st: State, m: nat, x: nat)
    requires Inv(c, all, st) && st.iter.Some? && st.item.At? && st.item.e.key == c.key
    requires m < |all| && HoldsSpan(all[m], c.key, x) && x < c.snapshot
    ensures x <= st.item.e.sn || Passed(c, all, st, x)
  {
    hide Left, Known, Layout, SourceOk, FragmentOver;
    var n, cur := |all| - |Left(c, st)|, st.iter.value;
    ClearOf(c, all, n - 1, x);
    if m == n - 1 {
      var g :| 0 <= g < |cur.files| && FragmentOver(cur.files[g].spans, c.key, x);
      if cur.f < g { SparedLater(c, cur, st.item, g, x); }
    } else if n <= m {
      hide Clear, CursorOk;
      HeldHere(c, all[n - 1], cur, st.item);
      assert Newer(all[n - 1], all[m]);
    }
  }

  lemma SparedLater(c: Config, cur: Cursor, item: Item, g: nat, x: nat)
    requires CursorOk(c, cur, item) && item.At? && item.e.key == c.key && cur.f < g < |cur.files| && FragmentOver(cur.files[g].spans, c.key, x)
    ensures x <= item.e.sn
  {
    hide FragmentOver, Bounded, Follows, FileOk;
    LaterSpare(cur.files, cur.f, cur.i, g, c.key, x);
  }

  lemma HeldHere(c: Config, s: Source, cur: Cursor, item: Item)
    requires CursorOk(c, cur, item) && item.At? && item.e.key == c.key && s.files == cur.files
    ensures HoldsPoint(s, c.key, item.e.sn)
  {
    hide SourceOk;
  }

  // ---------------------------------------------------------------------
  // Next
  // ---------------------------------------------------------------------

  /** The head of what is left, and the rest of it. */
  ghost predicate Yields(c: Config, all: seq<Source>, want: seq<Entry>, st: State, o: Option<Entry>) {
    && Valid(c, all, st)
    && (if o.Some? then want == [o.value] + Remaining(c, all, st) else want == [] == Remaining(c, all, st))
  }

  ghost predicate Pending(c: Config, all: seq<Source>, want: seq<Entry>, st: State) {
    Inv(c, all, st) && want == Cut(Rest(c, st), c.key, StoreTombstones(all), c.snapshot)
  }

  method Advance(c: Config, ghost all: seq<Source>, st: State) returns (t: State)
    requires Inv(c, all, st) && st.rangeDel.None? && st.iter.Some? && st.item.At? && st.item.e.key == c.key
    ensures Inv(c, all, t) && |Rest(c, t)| < |Rest(c, st)| && Left(c, t) == Left(c, st) && t.iter.Some?
    ensures Pending(c, all, Cut(Rest(c, st)[1..], c.key, StoreTombstones(all), c.snapshot), t)
  {
    hide Inv, Rest, Stepped, Left;
    assert CursorOk(c, st.iter.value, st.item) by { InvCursor(c, all, st); }
    var cur, item, rd := Step(c, st.iter.value, st.item);
    t := st.(iter := Some(cur), item := item, rangeDel := rd);
    StepInv(c, all, st, t);
  }

  lemma InvCursor(c: Config, all: seq<Source>, st: State)
    requires Inv(c, all, st) && st.iter.Some?
    ensures CursorOk(c, st.iter.value, st.item)
  {
  }

  /** The range tombstones of a newly opened table are looked up once. */
  method Refresh(c: Config, ghost all: seq<Source>, ghost want: seq<Entry>, st: State) returns (t: State)
    requires Pending(c, all, want, st)
    ensures Pending(c, all, want, t) && t.rangeDel.None?
    ensures t == st.(rangeDel := t.rangeDel, tombstone := t.tombstone) && Rest(c, t) == Rest(c, st) && Left(c, t) == Left(c, st)
  {
    hide Left, Points, StoreOk, Clear, Ahead, Cut, StoreTombstones;
    t := if st.rangeDel.Some? then st.(tombstone := FragmentAt(st.rangeDel.value, c.key), rangeDel := None) else st;
    SameLeft(c, st, t);
    assert forall x: nat :: InCurrent(c, t, x) <==> InCurrent(c, st, x);
    assert forall x: nat :: Passed(c, all, t, x) <==> Passed(c, all, st, x);
  }

  datatype Look = Return(o: Option<Entry>) | Again | Onward

  lemma RestHead(c: Config, all: seq<Source>, st: State)
    requires Inv(c, all, st) && st.iter.Some? && st.item.At? && st.item.e.key == c.key
    ensures Rest(c, st) != [] && Rest(c, st)[0] == st.item.e
    ensures c.snapshot <= st.item.e.sn ==>
              Cut(Rest(c, st), c.key, StoreTombstones(all), c.snapshot) == Cut(Rest(c, st)[1..], c.key, StoreTombstones(all), c.snapshot)
    ensures st.item.e.sn < c.snapshot && !Covers(StoreTombstones(all), c.key, st.item.e.sn, c.snapshot) ==>
              Cut(Rest(c, st), c.key, StoreTombstones(all), c.snapshot)
              == [st.item.e] + Cut(Rest(c, st)[1..], c.key, StoreTombstones(all), c.snapshot)
  {
    hide Left, StoreOk, StoreTombstones, Covers, Known, Clear, SourceOk;
  }

  /** The bound of a table is not taken for a version of the key, nor for deleted. */
  lemma BoundIsPast(c: Config, all: seq<Source>, st: State)
    requires Inv(c, all, st) && st.rangeDel.None? && st.iter.Some? && st.item.Bound?
    ensures st.item.k != c.key
    ensures st.tombstone.Some? ==> !CoversAt(st.tombstone.value.seqs, c.snapshot, SEQ_MAX)
  {
    hide Left, StoreOk, Clear;
    var cur := st.iter.value;
    assert forall g | 0 <= g < |cur.files| :: FileOk(cur.files[g]);
    if st.tombstone.Some? {
      forall x | x in st.tombstone.value.seqs && x < c.snapshot ensures x < SEQ_MAX {
        assert Passed(c, all, st, x) <==> InCurrent(c, st, x);
        var g :| 0 <= g <= cur.f && FragmentOver(cur.files[g].spans, c.key, x);
      }
    }
  }

  lemma PastTheKey(c: Config, all: seq<Source>, st: State)
    requires Inv(c, all, st) && st.iter.Some? && (st.item.At? ==> st.item.e.key != c.key)
    ensures PastKey(c, st.item)
  {
  }

  /** The part of the loop that looks at the current iterator. */
  method LookAt(c: Config, ghost all: seq<Source>, ghost want: seq<Entry>, st: State) returns (t: State, look: Look)
    requires Pending(c, all, want, st) && st.iter.Some?
    ensures look.Return? ==> Yields(c, all, want, t, look.o)
    ensures !look.Return? ==> Pending(c, all, want, t)
    ensures look.Again? ==> t.iter.Some? && Left(c, t) == Left(c, st) && |Rest(c, t)| < |Rest(c, st)|
    ensures look.Onward? ==> t.iter.None? && Left(c, t) == Left(c, st)
  {
    hide Inv, Rest, Left, Cut, StoreTombstones, CursorOk;
    t := Refresh(c, all, want, st);
    if t.item.Bound? { BoundIsPast(c, all, t); }
    if t.item.At? {
      var e := t.item.e;
      if t.tombstone.Some? && CoversAt(t.tombstone.value.seqs, c.snapshot, e.sn) {
        CoversStops(c, all, t);
        return t.(iter := None), Return(None);
      }
      if e.key == c.key {
        RestHead(c, all, t);
        NotCovered(c, all, t);
        if c.snapshot <= e.sn {
          t := Advance(c, all, t);
          return t, Again;
        }
        return t, Return(Some(e));
      }
    }
    PastTheKey(c, all, t);
    CloseInv(c, all, t, t.(iter := None));
    SameLeft(c, t, t.(iter := None));
    return t.(iter := None), Onward;
  }

  lemma LeftMem(c: Config, st: State)
    requires st.mem != []
    ensures Left(c, st) == [st.mem[|st.mem| - 1]] + Left(c, st.(mem := st.mem[..|st.mem| - 1]))
  {
  }

  lemma LeftL0(c: Config, st: State)
    requires st.mem == [] && st.level == 0
    ensures st.l0 != [] ==> Left(c, st) == [st.l0[|st.l0| - 1]] + Left(c, st.(l0 := st.l0[..|st.l0| - 1]))
    ensures st.l0 == [] ==> Left(c, st) == Left(c, st.(level := 1))
  {
  }

  lemma LeftLevel(c: Config, st: State)
    requires st.mem == [] && st.level > 0
    ensures st.level < |c.levels| ==> Left(c, st) == [c.levels[st.level]] + Left(c, st.(level := st.level + 1))
    ensures st.level >= |c.levels| ==> Left(c, st) == []
  {
  }

  lemma LeftIsOk(c: Config, all: seq<Source>, st: State)
    requires Inv(c, all, st) && Left(c, st) != []
    ensures SourceOk(Left(c, st)[0])
  {
  }

  /** A source without tables has no tombstone over a key. */
  lemma OverSomeMore(all: seq<Source>, n: nat, k: Key, x: nat)
    requires n < |all| && all[n].files == []
    ensures OverSome(all[..n + 1], k, x) <==> OverSome(all[..n], k, x)
  {
    if OverSome(all[..n], k, x) {
      var m :| 0 <= m < n && HoldsSpan(all[..n][m], k, x);
      assert HoldsSpan(all[..n + 1][m], k, x);
    }
    if OverSome(all[..n + 1], k, x) {
      var m :| 0 <= m < n + 1 && HoldsSpan(all[..n + 1][m], k, x);
      assert m < n && HoldsSpan(all[..n][m], k, x);
    }
  }

  /** Passing over an empty level. */
  lemma EmptyLevel(c: Config, all: seq<Source>, want: seq<Entry>, st: State, st': State)
    requires Pending(c, all, want, st) && st.iter.None? && Layout(c, st')
    requires Left(c, st) != [] && Left(c, st') == Left(c, st)[1..] && Left(c, st)[0].files == []
    requires st' == st.(level := st'.level)
    ensures Pending(c, all, want, st')
  {
    hide Left, StoreOk, StoreTombstones, Layout, OverSome;
    var n := |all| - |Left(c, st)|;
    forall x: nat ensures Passed(c, all, st', x) <==> Passed(c, all, st, x) {
      OverSomeMore(all, n, c.key, x);
    }
    PointsOfLeft(all, n);
    assert Rest(c, st) == Rest(c, st');
  }

  lemma SameButLevel(c: Config, all: seq<Source>, want: seq<Entry>, st: State, st': State)
    requires Pending(c, all, want, st) && st.iter.None? && st' == st.(level := st'.level) && Left(c, st') == Left(c, st)
    ensures Pending(c, all, want, st')
  {
    hide Left, StoreOk, StoreTombstones;
    assert forall x: nat :: Passed(c, all, st', x) <==> Passed(c, all, st, x);
  }

  lemma NothingLeft(c: Config, all: seq<Source>, want: seq<Entry>, st: State)
    requires Pending(c, all, want, st) && st.iter.None? && Left(c, st) == []
    ensures Yields(c, all, want, st, None)
  {
    hide StoreOk, StoreTombstones, Known;
  }

  lemma StopsHere(c: Config, all: seq<Source>, want: seq<Entry>, st: State)
    requires Pending(c, all, want, st) && st.iter.None? && st.tombstone.Some? && VisibleAt(st.tombstone.value.seqs, c.snapshot)
    ensures Yields(c, all, want, st, None)
  {
    hide StoreOk, StoreTombstones, Known, Left;
    VisibleStops(c, all, st);
    assert [] + Points(Left(c, st)) == Points(Left(c, st));
  }

  /** The part of the loop that opens the next source. */
  method OpenNext(c: Config, ghost all: seq<Source>, ghost want: seq<Entry>, st: State) returns (t: State, look: Look)
    requires Pending(c, all, want, st) && st.iter.None?
    ensures look.Return? ==> Yields(c, all, want, t, look.o)
    ensures !look.Return? ==> look.Again? && Pending(c, all, want, t) && |Left(c, t)| < |Left(c, st)|
  {
    hide Inv, Left, Yields, Rest, Sought, SourceOk, Cut, StoreTombstones;
    t := st;
    if t.tombstone.Some? && VisibleAt(t.tombstone.value.seqs, c.snapshot) {
      StopsHere(c, all, want, t);
      return t, Return(None);
    }
    LayoutOf(c, all, st);
    if t.mem != [] {
      LeftMem(c, t);
      LeftIsOk(c, all, t);
      var m := t.mem[|t.mem| - 1];
      var cur, item, rd := SeekMemtable(c, m);
      t := t.(mem := t.mem[..|t.mem| - 1], iter := Some(cur), item := item, rangeDel := rd);
      SameLeft(c, st.(mem := t.mem), t);
      OpenInv(c, all, st, t);
      return t, Again;
    }
    if t.level == 0 {
      LeftL0(c, t);
      if t.l0 != [] {
        LeftIsOk(c, all, t);
        var cur, item, rd := SeekLevel(c, t.l0[|t.l0| - 1]);
        t := t.(l0 := t.l0[..|t.l0| - 1], iter := Some(cur), item := item, rangeDel := rd);
        SameLeft(c, st.(l0 := t.l0), t);
        OpenInv(c, all, st, t);
        return t, Again;
      }
      t := t.(level := 1);
      SameButLevel(c, all, want, st, t);
    }
    LeftLevel(c, t);
    if t.level >= |c.levels| {
      NothingLeft(c, all, want, t);
      return t, Return(None);
    }
    ghost var before := t;
    LeftIsOk(c, all, t);
    var level := c.levels[t.level];
    if level.files == [] {
      t := t.(level := t.level + 1);
      EmptyLevel(c, all, want, before, t);
      return t, Again;
    }
    var cur, item, rd := SeekLevel(c, level);
    t := t.(level := t.level + 1, iter := Some(cur), item := item, rangeDel := rd);
    SameLeft(c, before.(level := t.level), t);
    OpenInv(c, all, before, t);
    return t, Again;
  }

  lemma LayoutOf(c: Config, all: seq<Source>, st: State)
    requires Inv(c, all, st)
    ensures Layout(c, st) && (st.iter.None? ==> st.rangeDel.None?)
  {
  }

  ghost function PendingSize(c: Config, all: seq<Source>, want: seq<Entry>, st: State): nat
    requires Pending(c, all, want, st)
  {
    |Rest(c, st)|
  }

  lemma Fresh(c: Config, all: seq<Source>, st: State)
    requires Valid(c, all, st) && st.iter.None? && (st.tombstone.Some? ==> !VisibleAt(st.tombstone.value.seqs, c.snapshot))
    ensures Pending(c, all, Remaining(c, all, st), st)
  {
    hide Left, StoreOk, StoreTombstones, Known;
    assert [] + Points(Left(c, st)) == Points(Left(c, st));
  }

  lemma Stays(c: Config, all: seq<Source>, st: State)
    requires Valid(c, all, st) && st.iter.None? && st.tombstone.Some? && VisibleAt(st.tombstone.value.seqs, c.snapshot)
    ensures Yields(c, all, Remaining(c, all, st), st, None)
  {
    hide Left, StoreOk, StoreTombstones, Known;
    if !Finished(c, all, st) { VisibleStops(c, all, st); }
  }

  /** getIter.Next on values: it returns the head of what remains. */
  method NextVersion(c: Config, ghost all: seq<Source>, st: State) returns (t: State, o: Option<Entry>)
    requires Valid(c, all, st)
    ensures Yields(c, all, Remaining(c, all, st), t, o)
  {
    hide Inv, Left, Rest, Cut, StoreTombstones, Pending;
    ghost var want := Remaining(c, all, st);
    t := st;
    if t.iter.Some? {
      t := Advance(c, all, t);
    } else if t.tombstone.Some? && VisibleAt(t.tombstone.value.seqs, c.snapshot) {
      Stays(c, all, t);
      return t, None;
    } else {
      Fresh(c, all, t);
    }
    while true
      invariant Pending(c, all, want, t)
      decreases |Left(c, t)|, PendingSize(c, all, want, t)
    {
      var look := Onward;
      if t.iter.Some? {
        t, look := LookAt(c, all, want, t);
      }
      if look.Onward? {
        t, look := OpenNext(c, all, want, t);
      }
      if look.Return? {
        return t, look.o;
      }
    }
  }

  // ---------------------------------------------------------------------
  // Get
  // ---------------------------------------------------------------------

  /** The sources of a read, newest first. */
  function Sources(mem: seq<Source>, l0: seq<Source>, levels: seq<Source>): seq<Source> {
    Reversed(mem) + Reversed(l0) + (if levels == [] then [] else levels[1..])
  }

  class GetIter {
    const c: Config
    ghost const all: seq<Source>
    var st: State

    constructor (key: Key, snapshot: nat, mem: seq<Source>, l0: seq<Source>, levels: seq<Source>)
      requires StoreOk(Sources(mem, l0, levels))
      requires Layout(Config(key, snapshot, levels), State(mem, l0, 0, None, Nothing, None, None))
      ensures c == Config(key, snapshot, levels) && all == Sources(mem, l0, levels) && Valid(c, all, st)
      ensures Remaining(c, all, st) == Cut(Points(all), key, StoreTombstones(all), snapshot)
    {
      c := Config(key, snapshot, levels);
      all := Sources(mem, l0, levels);
      st := State(mem, l0, 0, None, Nothing, None, None);
      new;
      Unread(c, all, st);
    }

    /** Each call returns the next visible version of the key, newest first, up to
        the first that a visible range tombstone deletes. */
    method Next() returns (o: Option<Entry>)
      requires Valid(c, all, st)
      modifies this
      ensures Valid(c, all, st)
      ensures if o.Some? then old(Remaining(c, all, st)) == [o.value] + Remaining(c, all, st)
              else old(Remaining(c, all, st)) == [] == Remaining(c, all, st)
    {
      hide Valid, Remaining;
      st, o := NextVersion(c, all, st);
    }
  }

  lemma Unread(c: Config, all: seq<Source>, st: State)
    requires StoreOk(all) && Layout(c, st) && all == Sources(st.mem, st.l0, c.levels)
    requires st.level == 0 && st.iter.None? && st.rangeDel.None? && st.tombstone.None?
    ensures Valid(c, all, st) && Left(c, st) == all
  {
    hide StoreOk, Layout, Reversed, Finished, CursorOk, Clear;
    UnreadLeft(c, all, st);
    hide Left, Sources;
    NothingOver(c.key);
    assert all[..0] == [] && all[0..] == all;
  }

  lemma UnreadLeft(c: Config, all: seq<Source>, st: State)
    requires all == Sources(st.mem, st.l0, c.levels) && st.level == 0
    ensures Left(c, st) == all
  {
    hide Reversed;
  }

  lemma NothingOver(k: Key)
    ensures forall x: nat :: !OverSome([], k, x)
  {
  }

  /** Points of a well-formed store list each key newest first. */
  lemma StoreNewestFirst(all: seq<Source>, k: Key)
    requires StoreOk(all)
    ensures NewestFirst(Points(all), k)
  {
    hide SourceOk, HoldsPoint, HoldsSpan;
    if all == [] {
    } else {
      var here, rest := FilePoints(all[0].files), Points(all[1..]);
      assert forall i | 0 <= i < |all[1..]| :: all[1..][i] == all[i + 1];
      StoreNewestFirst(all[1..], k);
      SourceNewestFirst(all[0], k);
      forall i, j | 0 <= i < |here| && 0 <= j < |rest| && here[i].key == k && rest[j].key == k ensures rest[j].sn <= here[i].sn {
        FilePointHeld(all[0].files, i);
        HeldAlike(all[0], k, here[i].sn);
        var n := PointHeld(all[1..], j);
        assert Newer(all[0], all[n + 1]);
      }
    }
  }

  lemma HeldAlike(s: Source, k: Key, sn: nat)
    ensures HoldsPoint(s, k, sn) <==> HoldsPoint(Source(s.files, true, 0), k, sn)
  {
  }

  lemma SourceNewestFirst(s: Source, k: Key)
    requires SourceOk(s)
    ensures NewestFirst(FilePoints(s.files), k)
  {
    if s.mem {
      assert FilePoints(s.files) == s.files[0].points;
      InternalOrder(s.files[0], k);
    } else {
      FilesNewestFirst(s.files, k);
    }
  }

  lemma InternalOrder(f: File, k: Key)
    requires FileOk(f)
    ensures NewestFirst(f.points, k)
  {
    forall i, j | 0 <= i < j < |f.points| && f.points[i].key == k && f.points[j].key == k ensures f.points[j].sn <= f.points[i].sn {
      assert Before(f.points[i], f.points[j]);
    }
  }

  lemma {:induction false} FilesNewestFirst(fs: seq<File>, k: Key)
    requires forall i | 0 <= i < |fs| :: FileOk(fs[i])
    requires forall i, j | 0 <= i < j < |fs| :: Follows(fs[i], fs[j])
    ensures NewestFirst(FilePoints(fs), k)
  {
    if fs != [] {
      var here, rest := fs[0].points, FilePoints(fs[1..]);
      FilesNewestFirst(fs[1..], k);
      InternalOrder(fs[0], k);
      forall i, j | 0 <= i < |here| && 0 <= j < |rest| && here[i].key == k && rest[j].key == k ensures rest[j].sn <= here[i].sn {
        FilePointHeld(fs[1..], j);
        var f, m :| 0 <= f < |fs[1..]| && 0 <= m < |fs[1..][f].points| && fs[1..][f].points[m].key == k && fs[1..][f].points[m].sn == rest[j].sn;
        assert Follows(fs[0], fs[f + 1]);
        assert Before(here[i], fs[f + 1].points[m]);
      }
    }
  }

  /** Memtables that were created at or after the read's number are left out. */
  method TrimMemtables(mem: seq<Source>, snapshot: nat) returns (kept: seq<Source>)
    ensures kept <= mem && forall i | |kept| <= i < |mem| :: snapshot <= mem[i].logSeqNum
    ensures kept != [] ==> kept[|kept| - 1].logSeqNum < snapshot
  {
    kept := mem;
    while kept != []
      invariant kept <= mem && forall i | |kept| <= i < |mem| :: snapshot <= mem[i].logSeqNum
    {
      var n := |kept|;
      if kept[n - 1].logSeqNum < snapshot { break; }
      kept := kept[..n - 1];
    }
  }

  /** A memtable holds nothing older than its logSeqNum. */
  ghost predicate SinceLogSeqNum(s: Source) {
    && (forall k: Key, sn | HoldsPoint(s, k, sn) :: s.logSeqNum <= sn)
    && (forall k: Key, sn | HoldsSpan(s, k, sn) :: s.logSeqNum <= sn)
  }

  lemma {:induction false} ReversedSplit(a: seq<Source>, b: seq<Source>)
    ensures Reversed(a + b) == Reversed(b) + Reversed(a)
  {
    if b == [] {
      assert a + b == a;
    } else {
      var n := |b| - 1;
      assert (a + b)[..|a + b| - 1] == a + b[..n];
      ReversedSplit(a, b[..n]);
    }
  }

  lemma {:induction false} ReversedFrom(ss: seq<Source>, i: nat) returns (j: nat)
    requires i < |Reversed(ss)|
    ensures j < |ss| && Reversed(ss)[i] == ss[j]
  {
    if i == 0 {
      j := |ss| - 1;
    } else {
      j := ReversedFrom(ss[..|ss| - 1], i - 1);
    }
  }

  lemma {:induction false} PointsSplit(a: seq<Source>, b: seq<Source>)
    ensures Points(a + b) == Points(a) + Points(b)
  {
    if a == [] {
      assert a + b == b;
    } else {
      assert (a + b)[1..] == a[1..] + b;
      PointsSplit(a[1..], b);
    }
  }

  lemma {:induction false} ReadSkip(a: seq<Entry>, b: seq<Entry>, k: Key, ts: set<Tombstone>, s: nat)
    requires forall i | 0 <= i < |a| && a[i].key == k :: s <= a[i].sn
    ensures Read(a + b, k, ts, s) == Read(b, k, ts, s)
  {
    if a == [] {
      assert a + b == b;
    } else {
      assert (a + b)[1..] == a[1..] + b;
      ReadSkip(a[1..], b, k, ts, s);
    }
  }

  lemma {:induction false} ReadCoversAlike(es: seq<Entry>, k: Key, ta: set<Tombstone>, tb: set<Tombstone>, s: nat)
    requires forall sn: nat :: Covers(ta, k, sn, s) == Covers(tb, k, sn, s)
    ensures Read(es, k, ta, s) == Read(es, k, tb, s)
  {
    if es != [] {
      ReadCoversAlike(es[1..], k, ta, tb, s);
    }
  }

  /** Sources without anything visible make no difference to a read. */
  lemma InvisibleSources(gone: seq<Source>, few: seq<Source>, k: Key, s: nat)
    requires forall i, sn: nat | 0 <= i < |gone| && sn < s :: !HoldsPoint(gone[i], k, sn) && !HoldsSpan(gone[i], k, sn)
    ensures Read(Points(gone + few), k, StoreTombstones(gone + few), s) == Read(Points(few), k, StoreTombstones(few), s)
  {
    hide HoldsPoint, HoldsSpan, StoreTombstones, Covers;
    var all := gone + few;
    PointsSplit(gone, few);
    forall i | 0 <= i < |Points(gone)| && Points(gone)[i].key == k ensures s <= Points(gone)[i].sn {
      var n := PointHeld(gone, i);
    }
    ReadSkip(Points(gone), Points(few), k, StoreTombstones(all), s);
    forall sn: nat ensures Covers(StoreTombstones(all), k, sn, s) == Covers(StoreTombstones(few), k, sn, s) {
      InvisibleSpans(gone, few, k, sn, s);
    }
    ReadCoversAlike(Points(few), k, StoreTombstones(all), StoreTombstones(few), s);
  }

  lemma InvisibleSpans(gone: seq<Source>, few: seq<Source>, k: Key, sn: nat, s: nat)
    requires forall i, sn: nat | 0 <= i < |gone| && sn < s :: !HoldsSpan(gone[i], k, sn)
    ensures Covers(StoreTombstones(gone + few), k, sn, s) == Covers(StoreTombstones(few), k, sn, s)
  {
    hide HoldsSpan, StoreTombstones, Covers, OverKey;
    var all := gone + few;
    CoversBy(StoreTombstones(all), k, sn, s);
    CoversBy(StoreTombstones(few), k, sn, s);
    forall x: nat | x < s ensures OverKey(StoreTombstones(all), k, x) <==> OverKey(StoreTombstones(few), k, x) {
      StoreTombstoneOver(all, k, x);
      StoreTombstoneOver(few, k, x);
      if OverSome(few, k, x) {
        var n :| 0 <= n < |few| && HoldsSpan(few[n], k, x);
        assert all[|gone| + n] == few[n];
      }
    }
  }

  ghost predicate Trims(mem: seq<Source>, kept: seq<Source>, snapshot: nat) {
    && kept <= mem && (forall i | |kept| <= i < |mem| :: snapshot <= mem[i].logSeqNum)
    && (forall i | 0 <= i < |mem| :: SinceLogSeqNum(mem[i]))
  }

  lemma TrimmedSources(mem: seq<Source>, kept: seq<Source>, l0: seq<Source>, levels: seq<Source>)
    requires kept <= mem
    ensures Sources(mem, l0, levels) == Reversed(mem[|kept|..]) + Sources(kept, l0, levels)
  {
    assert mem == kept + mem[|kept|..];
    ReversedSplit(kept, mem[|kept|..]);
  }

  /** Trimming memtables changes no read. */
  lemma TrimKeepsReads(mem: seq<Source>, kept: seq<Source>, l0: seq<Source>, levels: seq<Source>, k: Key, s: nat)
    requires Trims(mem, kept, s)
    ensures var all, few := Sources(mem, l0, levels), Sources(kept, l0, levels);
            Read(Points(all), k, StoreTombstones(all), s) == Read(Points(few), k, StoreTombstones(few), s)
  {
    hide HoldsPoint, HoldsSpan, StoreTombstones, Sources, Read;
    var gone := Reversed(mem[|kept|..]);
    TrimmedSources(mem, kept, l0, levels);
    forall i, sn: nat | 0 <= i < |gone| && sn < s ensures !HoldsPoint(gone[i], k, sn) && !HoldsSpan(gone[i], k, sn) {
      var j := ReversedFrom(mem[|kept|..], i);
      assert gone[i] == mem[|kept| + j];
      assert SinceLogSeqNum(mem[|kept| + j]);
    }
    InvisibleSources(gone, Sources(kept, l0, levels), k, s);
  }

  lemma TrimmedStore(mem: seq<Source>, kept: seq<Source>, l0: seq<Source>, levels: seq<Source>)
    requires kept <= mem && StoreOk(Sources(mem, l0, levels))
    ensures StoreOk(Sources(kept, l0, levels))
  {
    hide SourceOk, Newer, Sources;
    var gone, all, few := Reversed(mem[|kept|..]), Sources(mem, l0, levels), Sources(kept, l0, levels);
    TrimmedSources(mem, kept, l0, levels);
    assert forall i | 0 <= i < |few| :: few[i] == all[|gone| + i];
  }

  /** A Get returns what the whole history of the store says. */
  method Get(key: Key, snapshot: nat, mem: seq<Source>, l0: seq<Source>, levels: seq<Source>) returns (v: Option<Value>)
    requires StoreOk(Sources(mem, l0, levels))
    requires Layout(Config(key, snapshot, levels), State(mem, l0, 0, None, Nothing, None, None))
    requires forall i | 0 <= i < |mem| :: SinceLogSeqNum(mem[i])
    ensures var all := Sources(mem, l0, levels); v == Read(Points(all), key, StoreTombstones(all), snapshot)
  {
    hide StoreOk, SinceLogSeqNum, Sources, StoreTombstones, Points, Read, Valid, Remaining;
    var kept := TrimMemtables(mem, snapshot);
    ghost var few := Sources(kept, l0, levels);
    TrimmedStore(mem, kept, l0, levels);
    TrimKeepsReads(mem, kept, l0, levels, key, snapshot);
    StoreNewestFirst(few, key);
    ReadCut(Points(few), key, StoreTombstones(few), snapshot);
    CutVersions(Points(few), key, StoreTombstones(few), snapshot);
    var g := new GetIter(key, snapshot, kept, l0, levels);
    v := Resolve(g);
  }

  /** Visible versions of k. */
  predicate Versions(es: seq<Entry>, k: Key, s: nat) {
    forall i | 0 <= i < |es| :: es[i].IsPoint() && es[i].key == k && es[i].sn < s
  }

  lemma {:induction false} CutVersions(es: seq<Entry>, k: Key, ts: set<Tombstone>, s: nat)
    requires forall i | 0 <= i < |es| :: es[i].IsPoint()
    ensures Versions(Cut(es, k, ts, s), k, s)
  {
    if es != [] {
      CutVersions(es[1..], k, ts, s);
    }
  }

  /** Newer merge operands, already combined, over an older value. */
  function Under(newer: Option<Value>, older: Option<Value>): Option<Value> {
    if newer.None? then older else if older.None? then newer else Some(older.value + newer.value)
  }

  lemma UnderMerge(newer: Option<Value>, e: Entry, older: Option<Value>)
    requires e.kind.Merge?
    ensures Under(newer, Over(e, older)) == Under(Under(newer, Some(e.value)), older)
  {
    if newer.Some? && older.Some? {
      assert older.value + e.value + newer.value == older.value + (e.value + newer.value);
    }
  }

  /** What the iterator above makes of the versions: the newest decides, and merge
      operands collect the older ones down to a base. */
  method Resolve(g: GetIter) returns (v: Option<Value>)
    requires Valid(g.c, g.all, g.st) && Versions(Remaining(g.c, g.all, g.st), g.c.key, g.c.snapshot)
    modifies g
    ensures v == old(Read(Remaining(g.c, g.all, g.st), g.c.key, {}, g.c.snapshot))
  {
    hide Valid, Remaining;
    ghost var k, s, want := g.c.key, g.c.snapshot, Remaining(g.c, g.all, g.st);
    v := None;
    while true
      invariant Valid(g.c, g.all, g.st) && Versions(Remaining(g.c, g.all, g.st), k, s)
      invariant Read(want, k, {}, s) == Under(v, Read(Remaining(g.c, g.all, g.st), k, {}, s))
      decreases |Remaining(g.c, g.all, g.st)|
    {
      ghost var rest := Remaining(g.c, g.all, g.st);
      var o := g.Next();
      if o.None? { return; }
      var e := o.value;
      assert rest[0] == e && rest[1..] == Remaining(g.c, g.all, g.st);
      assert Live(e, k, {}, s);
      if e.IsTombstone() { return; }
      if e.kind.Merge? { UnderMerge(v, e, Read(rest[1..], k, {}, s)); }
      v := if v.None? then Some(e.value) else Some(e.value + v.value);
      if e.IsSet() { return; }
    }
  }
}
