/**
Cutting a compaction's output into tables (runCompaction, the splitters and the
limit functions in compaction.go). The input is what the compaction iterator
returns: points, and range tombstone spans at their start keys. The file size
splitter may ask for a split anywhere; limits come from grandparent tables and
from L0 flush splits.
*/
module Outputs {
  import opened Options
  import opened Lsm

  /** A table of the level below the output level. */
  datatype Grandparent = Grandparent(smallest: Key, largest: Key, size: nat)

  datatype Output = Output(points: seq<Entry>, spans: seq<Fragment>)

  // ---------------------------------------------------------------------
  // Limits
  // ---------------------------------------------------------------------

  /** The first table that ends at or after a key. */
  function SeekGE(gs: seq<Grandparent>, start: Key): (i: nat)
    ensures i <= |gs| && (forall j | 0 <= j < i :: gs[j].largest < start) && (i < |gs| ==> start <= gs[i].largest)
  {
    if gs == [] || start <= gs[0].largest then 0 else 1 + SeekGE(gs[1..], start)
  }

  predicate SortedGrandparents(gs: seq<Grandparent>) {
    forall i, j | 0 <= i < j < |gs| :: gs[i].smallest <= gs[j].smallest
  }

  /** The size of the tables from one on and up to another, both included. */
  function SizeOf(gs: seq<Grandparent>, from: nat, to: nat): nat
    requires to < |gs|
  {
    if to < from then 0 else gs[to].size + (if to == 0 then 0 else SizeOf(gs, from, to - 1))
  }

  /** Table i ends a table that begins at start. */
  predicate Ends(gs: seq<Grandparent>, maxOverlap: nat, start: Key, i: nat)
    requires i < |gs|
  {
    start < gs[i].smallest && maxOverlap < SizeOf(gs, SeekGE(gs, start), i)
  }

  /** The limit is the start of the first grandparent that is past the key and takes
      the overlap above the maximum. */
  method FindGrandparentLimit(gs: seq<Grandparent>, maxOverlap: nat, start: Key) returns (r: Option<Key>, i: nat)
    requires SortedGrandparents(gs)
    ensures r.Some? ==> start < r.value && i < |gs| && r.value == gs[i].smallest && Ends(gs, maxOverlap, start, i)
    ensures r.None? ==> i == |gs|
    ensures SeekGE(gs, start) <= i && forall j | SeekGE(gs, start) <= j < i :: !Ends(gs, maxOverlap, start, j)
  {
    hide SeekGE;
    var from := SeekGE(gs, start);
    var overlapped, greater := 0, false;
    i := from;
    while i < |gs|
      invariant from <= i <= |gs| && overlapped == if i == from then 0 else SizeOf(gs, from, i - 1)
      invariant greater ==> i < |gs| ==> start < gs[i].smallest
      invariant !greater ==> forall j | from <= j < i :: gs[j].smallest <= start
      invariant forall j | from <= j < i :: !Ends(gs, maxOverlap, start, j)
    {
      assert overlapped + gs[i].size == SizeOf(gs, from, i);
      overlapped := overlapped + gs[i].size;
      greater := greater || start < gs[i].smallest;
      if greater && maxOverlap < overlapped { return Some(gs[i].smallest), i; }
      i := i + 1;
    }
    r := None;
  }

  predicate AscendingKeys(ks: seq<Key>) {
    forall i, j | 0 <= i < j < |ks| :: ks[i] <= ks[j]
  }

  /** The first flush split past the key. */
  function FindL0Limit(limits: seq<Key>, start: Key): (r: Option<Key>)
    ensures r.Some? ==> start < r.value && r.value in limits
    ensures r.None? ==> forall i | 0 <= i < |limits| :: limits[i] <= start
    ensures r.Some? && AscendingKeys(limits) ==> forall i | 0 <= i < |limits| && start < limits[i] :: r.value <= limits[i]
  {
    if limits == [] then None else if start < limits[0] then Some(limits[0]) else FindL0Limit(limits[1..], start)
  }

  function Earlier(a: Option<Key>, b: Option<Key>): Option<Key> {
    if a.None? then b else if b.None? then a else if a.value < b.value then a else b
  }

  // ---------------------------------------------------------------------
  // Pending spans
  // ---------------------------------------------------------------------

  predicate Proper(fs: seq<Fragment>) {
    forall i | 0 <= i < |fs| :: fs[i].start < fs[i].end
  }

  /** The part of the spans before a key, and the part from it on. */
  function Before(fs: seq<Fragment>, k: Key): seq<Fragment> {
    if fs == [] then []
    else
      var f, rest := fs[|fs| - 1], Before(fs[..|fs| - 1], k);
      if f.start < k then rest + [Fragment(f.start, if f.end < k then f.end else k, f.seqs)] else rest
  }

  function From(fs: seq<Fragment>, k: Key): seq<Fragment> {
    if fs == [] then []
    else
      var f, rest := fs[|fs| - 1], From(fs[..|fs| - 1], k);
      if k < f.end then rest + [Fragment(if f.start < k then k else f.start, f.end, f.seqs)] else rest
  }

  lemma {:induction false} CutBounds(fs: seq<Fragment>, k: Key)
    requires Proper(fs)
    ensures Proper(Before(fs, k)) && Proper(From(fs, k))
    ensures forall i | 0 <= i < |Before(fs, k)| :: Before(fs, k)[i].end <= k
    ensures forall i | 0 <= i < |From(fs, k)| :: k <= From(fs, k)[i].start
  {
    if fs != [] { CutBounds(fs[..|fs| - 1], k); }
  }

  /** Truncating spans at a key loses nothing. */
  lemma {:induction false} CutKeepsCoverage(fs: seq<Fragment>, k: Key, x: Key, sn: nat)
    requires Proper(fs)
    ensures FragmentOver(fs, x, sn) <==> FragmentOver(Before(fs, k), x, sn) || FragmentOver(From(fs, k), x, sn)
  {
    hide FragmentOver;
    if fs == [] {
    } else {
      var n := |fs| - 1;
      CutKeepsCoverage(fs[..n], k, x, sn);
      OverAppend(fs[..n], fs[n], x, sn);
      assert fs == fs[..n] + [fs[n]];
      var b, f := Before(fs[..n], k), From(fs[..n], k);
      if fs[n].start < k { OverAppend(b, Fragment(fs[n].start, if fs[n].end < k then fs[n].end else k, fs[n].seqs), x, sn); }
      if k < fs[n].end { OverAppend(f, Fragment(if fs[n].start < k then k else fs[n].start, fs[n].end, fs[n].seqs), x, sn); }
    }
  }

  lemma OverAppend(fs: seq<Fragment>, f: Fragment, x: Key, sn: nat)
    ensures FragmentOver(fs + [f], x, sn) <==> FragmentOver(fs, x, sn) || (f.start <= x < f.end && sn in f.seqs)
  {
    var gs := fs + [f];
    if FragmentOver(fs, x, sn) {
      var i :| 0 <= i < |fs| && fs[i].start <= x < fs[i].end && sn in fs[i].seqs;
      assert gs[i] == fs[i];
    }
    assert gs[|fs|] == f;
  }

  // ---------------------------------------------------------------------
  // The input
  // ---------------------------------------------------------------------

  /** User keys do not go back, and spans are not empty. */
  predicate InputOk(inp: seq<Entry>) {
    && (forall i, j | 0 <= i < j < |inp| :: inp[i].key <= inp[j].key)
    && (forall i | 0 <= i < |inp| && !inp[i].IsPoint() :: inp[i].key < inp[i].kind.end)
  }

  function SpanOf(e: Entry): Fragment
    requires !e.IsPoint()
  {
    Fragment(e.key, e.kind.end, e.kind.seqs)
  }

  function PointsOf(inp: seq<Entry>): seq<Entry> {
    if inp == [] then []
    else
      var e := inp[|inp| - 1];
      PointsOf(inp[..|inp| - 1]) + (if e.IsPoint() then [e] else [])
  }

  function SpansOf(inp: seq<Entry>): seq<Fragment> {
    if inp == [] then []
    else
      var e := inp[|inp| - 1];
      SpansOf(inp[..|inp| - 1]) + (if e.IsPoint() then [] else [SpanOf(e)])
  }

  /** Points and spans lie at or after a key, if there is one. */
  predicate Above(k: Option<Key>, ps: seq<Entry>, fs: seq<Fragment>) {
    k.Some? ==> && (forall i | 0 <= i < |ps| :: k.value <= ps[i].key)
                && (forall i | 0 <= i < |fs| :: k.value <= fs[i].start)
  }

  /** Points and span starts lie before a key, if there is one. */
  predicate StartBefore(k: Option<Key>, ps: seq<Entry>, fs: seq<Fragment>) {
    k.Some? ==> && (forall i | 0 <= i < |ps| :: ps[i].key < k.value)
                && (forall i | 0 <= i < |fs| :: fs[i].start < k.value)
  }

  /** Where the output is split: at the limit, or at the next key if that is earlier. */
  function SplitKey(limit: Option<Key>, inp: seq<Entry>, n: nat): Option<Key> {
    if n < |inp| && (limit.None? || inp[n].key < limit.value) then Some(inp[n].key) else limit
  }

  /** The largest start of a pending span, which is where the fragmenter stands. */
  function LastStart(fs: seq<Fragment>): (r: Key)
    requires fs != []
    ensures forall i | 0 <= i < |fs| :: fs[i].start <= r
  {
    if |fs| == 1 then fs[0].start
    else
      var r := LastStart(fs[..|fs| - 1]);
      if r < fs[|fs| - 1].start then fs[|fs| - 1].start else r
  }

  predicate UpTo(k: Key, ps: seq<Entry>, fs: seq<Fragment>) {
    && (forall i | 0 <= i < |ps| :: ps[i].key <= k)
    && (forall i | 0 <= i < |fs| :: fs[i].start <= k)
  }

  /** The state of the inner loop. */
  ghost predicate Filling(inp: seq<Entry>, n0: nat, pending0: seq<Fragment>, limit: Option<Key>,
                          n: nat, points: seq<Entry>, pending: seq<Fragment>) {
    && InputOk(inp) && n0 <= n <= |inp|
    && points == PointsOf(inp[n0..n]) && pending == pending0 + SpansOf(inp[n0..n])
    && StartBefore(limit, points, pending)
    && (n < |inp| ==> UpTo(inp[n].key, points, pending))
    && (points != [] ==> UpTo(points[|points| - 1].key, points, []))
  }

  /** The next key goes to the output. */
  lemma FillPoint(inp: seq<Entry>, n0: nat, pending0: seq<Fragment>, limit: Option<Key>,
                  n: nat, points: seq<Entry>, pending: seq<Fragment>)
    requires Filling(inp, n0, pending0, limit, n, points, pending) && n < |inp| && (limit.Some? ==> inp[n].key < limit.value)
    requires inp[n].IsPoint()
    ensures Filling(inp, n0, pending0, limit, n + 1, points + [inp[n]], pending)
  {
    hide PointsOf, SpansOf;
    AppendOne(inp, n0, n);
    Further(inp, n, points, pending);
  }

  lemma FillSpan(inp: seq<Entry>, n0: nat, pending0: seq<Fragment>, limit: Option<Key>,
                 n: nat, points: seq<Entry>, pending: seq<Fragment>)
    requires Filling(inp, n0, pending0, limit, n, points, pending) && n < |inp| && (limit.Some? ==> inp[n].key < limit.value)
    requires !inp[n].IsPoint()
    ensures Filling(inp, n0, pending0, limit, n + 1, points, pending + [SpanOf(inp[n])])
  {
    hide PointsOf, SpansOf;
    AppendOne(inp, n0, n);
    Further(inp, n, points, pending);
    assert pending + [SpanOf(inp[n])] == pending0 + (SpansOf(inp[n0..n]) + [SpanOf(inp[n])]);
  }

  lemma Further(inp: seq<Entry>, n: nat, points: seq<Entry>, pending: seq<Fragment>)
    requires InputOk(inp) && n < |inp| && UpTo(inp[n].key, points, pending)
    ensures n + 1 < |inp| ==> UpTo(inp[n + 1].key, points, pending) && inp[n].key <= inp[n + 1].key
  {
  }

  lemma AppendOne(inp: seq<Entry>, n0: nat, n: nat)
    requires n0 <= n < |inp|
    ensures PointsOf(inp[n0..n + 1]) == PointsOf(inp[n0..n]) + (if inp[n].IsPoint() then [inp[n]] else [])
    ensures SpansOf(inp[n0..n + 1]) == SpansOf(inp[n0..n]) + (if inp[n].IsPoint() then [] else [SpanOf(inp[n])])
  {
    var part := inp[n0..n + 1];
    assert part[..|part| - 1] == inp[n0..n] && part[|part| - 1] == inp[n];
  }

  /** A point of the table, which begins at position n0, comes before position m. */
  predicate PointBefore(inp: seq<Entry>, n0: nat, m: nat) {
    exists k :: n0 <= k < m && k < |inp| && inp[k].IsPoint()
  }

  /** So does an entry of the same user key. */
  predicate SameKeyBefore(inp: seq<Entry>, n0: nat, m: nat)
    requires m < |inp|
  {
    exists k :: n0 <= k < m && inp[k].key == inp[m].key
  }

  /** The file size splitter asks for a split before position m, and gets it: a point of
      a new user key, after another point of the table. */
  predicate Granted(inp: seq<Entry>, requests: seq<bool>, n0: nat, m: nat)
    requires m < |inp| == |requests|
  {
    inp[m].IsPoint() && requests[m] && PointBefore(inp, n0, m) && !SameKeyBefore(inp, n0, m)
  }

  lemma {:induction false} PointsAreThere(inp: seq<Entry>, n0: nat, n: nat)
    requires n0 <= n <= |inp|
    ensures PointsOf(inp[n0..n]) != [] <==> PointBefore(inp, n0, n)
    decreases n
  {
    if n0 < n {
      PointsAreThere(inp, n0, n - 1);
      AppendOne(inp, n0, n - 1);
    }
  }

  /** The key before which nothing of the table is: that of the last point, or where the
      fragmenter stands. It is the next key exactly if an entry of the table has it. */
  lemma PrevIsSame(inp: seq<Entry>, n0: nat, pending0: seq<Fragment>, limit: Option<Key>, n: nat, points: seq<Entry>, pending: seq<Fragment>)
    requires Filling(inp, n0, pending0, limit, n, points, pending) && n < |inp| && points != []
    requires n0 < |inp| ==> UpTo(inp[n0].key, [], pending0)
    ensures var last := points[|points| - 1].key;
            var prev := if pending != [] && last < LastStart(pending) then LastStart(pending) else last;
            prev < inp[n].key <==> !SameKeyBefore(inp, n0, n)
  {
    hide LastStart, Filling;
    var last := points[|points| - 1].key;
    PrevFacts(inp, n0, pending0, limit, n, points, pending);
    if SameKeyBefore(inp, n0, n) {
      var k :| n0 <= k < n && inp[k].key == inp[n].key;
      EntryIsIn(inp, n0, pending0, n, points, pending, k);
    }
  }

  lemma {:induction false} LastStartIs(fs: seq<Fragment>) returns (i: nat)
    requires fs != []
    ensures i < |fs| && fs[i].start == LastStart(fs)
  {
    if |fs| == 1 {
      i := 0;
    } else {
      var n := |fs| - 1;
      i := LastStartIs(fs[..n]);
      if LastStart(fs[..n]) < fs[n].start { i := n; }
    }
  }

  lemma {:induction false} PointIsEntry(inp: seq<Entry>, n0: nat, n: nat, e: Entry) returns (k: nat)
    requires n0 <= n <= |inp| && e in PointsOf(inp[n0..n])
    ensures n0 <= k < n && inp[k] == e
    decreases n
  {
    AppendOne(inp, n0, n - 1);
    if e in PointsOf(inp[n0..n - 1]) { k := PointIsEntry(inp, n0, n - 1, e); } else { k := n - 1; }
  }

  lemma {:induction false} SpanIsEntry(inp: seq<Entry>, n0: nat, n: nat, f: Fragment) returns (k: nat)
    requires n0 <= n <= |inp| && f in SpansOf(inp[n0..n])
    ensures n0 <= k < n && !inp[k].IsPoint() && SpanOf(inp[k]) == f
    decreases n
  {
    AppendOne(inp, n0, n - 1);
    if f in SpansOf(inp[n0..n - 1]) { k := SpanIsEntry(inp, n0, n - 1, f); } else { k := n - 1; }
  }

  lemma PrevFacts(inp: seq<Entry>, n0: nat, pending0: seq<Fragment>, limit: Option<Key>, n: nat, points: seq<Entry>, pending: seq<Fragment>)
    requires Filling(inp, n0, pending0, limit, n, points, pending) && n < |inp| && points != []
    requires n0 < |inp| ==> UpTo(inp[n0].key, [], pending0)
    ensures InputOk(inp) && n0 <= n && points == PointsOf(inp[n0..n]) && pending == pending0 + SpansOf(inp[n0..n])
    ensures points[|points| - 1].key <= inp[n].key && (pending != [] ==> LastStart(pending) <= inp[n].key)
    ensures points[|points| - 1].key == inp[n].key || (pending != [] && LastStart(pending) == inp[n].key) ==> SameKeyBefore(inp, n0, n)
    ensures forall e | e in points :: e.key <= points[|points| - 1].key
  {
    hide PointsOf, SpansOf, LastStart;
    var last := points[|points| - 1];
    var k := PointIsEntry(inp, n0, n, last);
    if pending != [] {
      var i := LastStartIs(pending);
      if i < |pending0| {
        assert pending[i] == pending0[i] && inp[n0].key <= inp[n].key;
      } else {
        var m := SpanIsEntry(inp, n0, n, pending[i]);
      }
    }
  }

  lemma {:induction false} EntryIsIn(inp: seq<Entry>, n0: nat, pending0: seq<Fragment>, n: nat, points: seq<Entry>, pending: seq<Fragment>, k: nat)
    requires n0 <= k < n <= |inp| && points == PointsOf(inp[n0..n]) && pending == pending0 + SpansOf(inp[n0..n])
    ensures if inp[k].IsPoint() then inp[k] in points else pending != [] && inp[k].key <= LastStart(pending)
    decreases n
  {
    hide LastStart;
    AppendOne(inp, n0, n - 1);
    var part := inp[n0..n - 1];
    if k < n - 1 {
      EntryIsIn(inp, n0, pending0, n - 1, PointsOf(part), pending0 + SpansOf(part), k);
      if !inp[k].IsPoint() { LastStartMore(pending0 + SpansOf(part), pending); }
    } else if !inp[k].IsPoint() {
      assert pending[|pending| - 1] == SpanOf(inp[k]);
      LastStartAtLeast(pending, |pending| - 1);
    }
  }

  lemma LastStartAtLeast(fs: seq<Fragment>, i: nat)
    requires i < |fs|
    ensures fs[i].start <= LastStart(fs)
  {
  }

  lemma LastStartMore(a: seq<Fragment>, b: seq<Fragment>)
    requires a != [] && a <= b
    ensures LastStart(a) <= LastStart(b)
  {
    var i := LastStartIs(a);
    LastStartAtLeast(b, i);
  }

  /** The inner loop: keys go to the output until a splitter asks for a split. The
      limit splitter asks at the first key at or past the limit (LimitSplitterAsks in
      module Frontiers). What the file size splitter asks for is granted between two
      user keys only, and there always. The output ends at nothing else. */
  method FillOutput(inp: seq<Entry>, requests: seq<bool>, n0: nat, pending0: seq<Fragment>, limit: Option<Key>)
    returns (n: nat, points: seq<Entry>, pending: seq<Fragment>)
    requires InputOk(inp) && |requests| == |inp| && n0 <= |inp|
    requires n0 < |inp| && limit.Some? ==> inp[n0].key < limit.value
    requires StartBefore(limit, [], pending0) && (n0 < |inp| ==> UpTo(inp[n0].key, [], pending0))
    ensures n0 <= n <= |inp| && (n0 < |inp| ==> n0 < n)
    ensures points == PointsOf(inp[n0..n]) && pending == pending0 + SpansOf(inp[n0..n])
    ensures StartBefore(SplitKey(limit, inp, n), points, pending)
    ensures forall m | n0 <= m < n :: !Granted(inp, requests, n0, m)
    ensures n < |inp| ==> (limit.Some? && limit.value <= inp[n].key) || Granted(inp, requests, n0, n)
  {
    hide PointsOf, SpansOf, Granted;
    n, points, pending := n0, [], pending0;
    assert inp[n0..n0] == [];
    NoneYet();
    while n < |inp|
      invariant Filling(inp, n0, pending0, limit, n, points, pending)
      invariant n == n0 ==> points == []
      invariant forall m | n0 <= m < n :: !Granted(inp, requests, n0, m)
    {
      var e := inp[n];
      if limit.Some? && limit.value <= e.key { return; }
      if points != [] && e.IsPoint() && requests[n] {
        var prev := points[|points| - 1].key;
        if pending != [] && prev < LastStart(pending) { prev := LastStart(pending); }
        GrantedIs(inp, requests, n0, pending0, limit, n, points, pending);
        if prev < e.key { return; }
      }
      NotGranted(inp, requests, n0, pending0, limit, n, points, pending);
      if e.IsPoint() {
        FillPoint(inp, n0, pending0, limit, n, points, pending);
        points := points + [e];
      } else {
        FillSpan(inp, n0, pending0, limit, n, points, pending);
        pending := pending + [SpanOf(e)];
      }
      n := n + 1;
    }
  }

  lemma GrantedIs(inp: seq<Entry>, requests: seq<bool>, n0: nat, pending0: seq<Fragment>, limit: Option<Key>, n: nat, points: seq<Entry>, pending: seq<Fragment>)
    requires Filling(inp, n0, pending0, limit, n, points, pending) && n < |inp| == |requests| && points != [] && inp[n].IsPoint() && requests[n]
    requires n0 < |inp| ==> UpTo(inp[n0].key, [], pending0)
    ensures var last := points[|points| - 1].key;
            var prev := if pending != [] && last < LastStart(pending) then LastStart(pending) else last;
            prev < inp[n].key <==> Granted(inp, requests, n0, n)
  {
    hide PointsOf, SpansOf, LastStart, SameKeyBefore, PointBefore;
    PointsAreThere(inp, n0, n);
    PrevIsSame(inp, n0, pending0, limit, n, points, pending);
  }

  lemma NotGranted(inp: seq<Entry>, requests: seq<bool>, n0: nat, pending0: seq<Fragment>, limit: Option<Key>, n: nat, points: seq<Entry>, pending: seq<Fragment>)
    requires Filling(inp, n0, pending0, limit, n, points, pending) && n < |inp| == |requests|
    ensures points == [] || !inp[n].IsPoint() || !requests[n] ==> !Granted(inp, requests, n0, n)
  {
    hide PointsOf, SpansOf, SameKeyBefore, PointBefore;
    PointsAreThere(inp, n0, n);
  }

  lemma NoneYet()
    ensures PointsOf([]) == [] && SpansOf([]) == []
  {
  }

  // ---------------------------------------------------------------------
  // The outputs
  // ---------------------------------------------------------------------

  function AllPoints(outs: seq<Output>): seq<Entry> {
    if outs == [] then [] else AllPoints(outs[..|outs| - 1]) + outs[|outs| - 1].points
  }

  function AllSpans(outs: seq<Output>): seq<Fragment> {
    if outs == [] then [] else AllSpans(outs[..|outs| - 1]) + outs[|outs| - 1].spans
  }

  /** Everything of a lies before everything of b: no user key is in both. */
  predicate Separate(a: Output, b: Output) {
    && (forall i, j | 0 <= i < |a.points| && 0 <= j < |b.points| :: a.points[i].key < b.points[j].key)
    && (forall i, j | 0 <= i < |a.points| && 0 <= j < |b.spans| :: a.points[i].key < b.spans[j].start)
    && (forall i, j | 0 <= i < |a.spans| && 0 <= j < |b.points| :: a.spans[i].end <= b.points[j].key)
    && (forall i, j | 0 <= i < |a.spans| && 0 <= j < |b.spans| :: a.spans[i].end <= b.spans[j].start)
  }

  predicate Below(o: Output, k: Key) {
    (forall i | 0 <= i < |o.points| :: o.points[i].key < k) && (forall i | 0 <= i < |o.spans| :: o.spans[i].end <= k)
  }

  predicate Partitioned(outs: seq<Output>) {
    forall i, j | 0 <= i < j < |outs| :: Separate(outs[i], outs[j])
  }

  ghost predicate SameCoverage(a: seq<Fragment>, b: seq<Fragment>, c: seq<Fragment>) {
    forall x: Key, sn: nat :: FragmentOver(a, x, sn) <==> FragmentOver(b, x, sn) || FragmentOver(c, x, sn)
  }

  /** After some rounds: what has been read is in the outputs or pending, the outputs
      lie before the cut, and the rest lies after it. */
  ghost predicate Written(inp: seq<Entry>, n: nat, outs: seq<Output>, pending: seq<Fragment>, cut: Option<Key>) {
    && InputOk(inp) && n <= |inp| && Proper(pending)
    && AllPoints(outs) == PointsOf(inp[..n]) && SameCoverage(SpansOf(inp[..n]), AllSpans(outs), pending)
    && Partitioned(outs) && (forall i | 0 <= i < |outs| :: outs[i].points != [] || outs[i].spans != [])
    && (cut.Some? ==> forall i | 0 <= i < |outs| :: Below(outs[i], cut.value))
    && (cut.None? && outs != [] ==> n == |inp| && pending == [])
    && Above(cut, inp[n..], pending)
    && (n < |inp| ==> UpTo(inp[n].key, [], pending))
    && (n == |inp| && pending != [] ==> cut.Some? && forall i | 0 <= i < |pending| :: pending[i].start == cut.value)
  }

  /** One round of the outer loop, after the inner one. */
  ghost predicate Round(inp: seq<Entry>, n0: nat, pending0: seq<Fragment>, limit: Option<Key>,
                        n: nat, points: seq<Entry>, full: seq<Fragment>, spans: seq<Fragment>, pending: seq<Fragment>) {
    var split := SplitKey(limit, inp, n);
    && n0 <= n <= |inp| && points == PointsOf(inp[n0..n]) && full == pending0 + SpansOf(inp[n0..n])
    && StartBefore(split, points, full)
    && (if split.None? then spans == full && pending == [] && n == |inp|
        else spans == Before(full, split.value) && pending == From(full, split.value))
  }

  lemma {:induction false} PointsSplit(inp: seq<Entry>, n0: nat, n: nat)
    requires n0 <= n <= |inp|
    ensures PointsOf(inp[..n]) == PointsOf(inp[..n0]) + PointsOf(inp[n0..n])
    ensures SpansOf(inp[..n]) == SpansOf(inp[..n0]) + SpansOf(inp[n0..n])
    decreases n
  {
    hide PointsOf, SpansOf;
    if n == n0 {
      assert inp[n0..n] == [];
      NoneYet();
    } else {
      PointsSplit(inp, n0, n - 1);
      AppendOne(inp, n0, n - 1);
      AppendOne(inp, 0, n - 1);
      assert inp[0..n] == inp[..n] && inp[0..n - 1] == inp[..n - 1];
    }
  }

  lemma {:induction false} SpansProper(inp: seq<Entry>)
    requires InputOk(inp)
    ensures Proper(SpansOf(inp))
  {
    if inp != [] { SpansProper(inp[..|inp| - 1]); }
  }

  lemma {:induction false} OverConcat(a: seq<Fragment>, b: seq<Fragment>, x: Key, sn: nat)
    ensures FragmentOver(a + b, x, sn) <==> FragmentOver(a, x, sn) || FragmentOver(b, x, sn)
  {
    var c := a + b;
    if FragmentOver(a, x, sn) {
      var i :| 0 <= i < |a| && a[i].start <= x < a[i].end && sn in a[i].seqs;
      assert c[i] == a[i];
    }
    if FragmentOver(b, x, sn) {
      var i :| 0 <= i < |b| && b[i].start <= x < b[i].end && sn in b[i].seqs;
      assert c[|a| + i] == b[i];
    }
    if FragmentOver(c, x, sn) {
      var i :| 0 <= i < |c| && c[i].start <= x < c[i].end && sn in c[i].seqs;
      if i < |a| { assert a[i] == c[i]; } else { assert b[i - |a|] == c[i]; }
    }
  }

  /** What a round does to the coverage of one key. */
  lemma RoundOver(was: seq<Fragment>, written: seq<Fragment>, pending0: seq<Fragment>, part: seq<Fragment>, split: Option<Key>,
                  spans: seq<Fragment>, pending: seq<Fragment>, x: Key, sn: nat)
    requires FragmentOver(was, x, sn) <==> FragmentOver(written, x, sn) || FragmentOver(pending0, x, sn)
    requires Proper(pending0 + part)
    requires if split.None? then spans == pending0 + part && pending == []
             else spans == Before(pending0 + part, split.value) && pending == From(pending0 + part, split.value)
    ensures FragmentOver(was + part, x, sn) <==> FragmentOver(written + spans, x, sn) || FragmentOver(pending, x, sn)
  {
    hide FragmentOver, Before, From;
    OverConcat(was, part, x, sn);
    OverConcat(written, spans, x, sn);
    OverConcat(pending0, part, x, sn);
    if split.Some? { CutKeepsCoverage(pending0 + part, split.value, x, sn); } else { NothingOver(x, sn); }
  }

  /** A round neither loses nor invents coverage. */
  lemma RoundCoverage(inp: seq<Entry>, n0: nat, outs: seq<Output>, pending0: seq<Fragment>, cut: Option<Key>, limit: Option<Key>,
                      n: nat, points: seq<Entry>, full: seq<Fragment>, spans: seq<Fragment>, pending: seq<Fragment>)
    requires Written(inp, n0, outs, pending0, cut) && Round(inp, n0, pending0, limit, n, points, full, spans, pending)
    ensures SameCoverage(SpansOf(inp[..n]), AllSpans(outs) + spans, pending)
    ensures Proper(full) && Proper(pending) && Proper(spans)
  {
    hide Partitioned, FragmentOver, Before, From, PointsOf, SpansOf, AllPoints, AllSpans, Below, Above, UpTo, StartBefore;
    PointsSplit(inp, n0, n);
    var part, split := SpansOf(inp[n0..n]), SplitKey(limit, inp, n);
    SpansProper(inp[n0..n]);
    assert Proper(full);
    forall x: Key, sn: nat
      ensures FragmentOver(SpansOf(inp[..n]), x, sn) <==> FragmentOver(AllSpans(outs) + spans, x, sn) || FragmentOver(pending, x, sn)
    {
      RoundOver(SpansOf(inp[..n0]), AllSpans(outs), pending0, part, split, spans, pending, x, sn);
    }
    if split.Some? { CutBounds(full, split.value); }
  }

  lemma NothingOver(x: Key, sn: nat)
    ensures !FragmentOver([], x, sn)
  {
  }

  /** The keys of what was read lie at or after the cut. */
  lemma {:induction false} PartAbove(inp: seq<Entry>, k: Option<Key>)
    requires Above(k, inp, [])
    ensures Above(k, PointsOf(inp), SpansOf(inp))
  {
    if inp != [] {
      PartAbove(inp[..|inp| - 1], k);
    }
  }

  lemma {:induction false} BeforeStarts(fs: seq<Fragment>, k: Key, c: Option<Key>)
    requires Above(c, [], fs)
    ensures Above(c, [], Before(fs, k))
  {
    if fs != [] { BeforeStarts(fs[..|fs| - 1], k, c); }
  }

  lemma {:induction false} FromStarts(fs: seq<Fragment>, k: Key)
    requires forall i | 0 <= i < |fs| :: fs[i].start < k
    ensures forall i | 0 <= i < |From(fs, k)| :: From(fs, k)[i].start == k
  {
    if fs != [] { FromStarts(fs[..|fs| - 1], k); }
  }

  /** A round's output lies between the old cut and the new one. */
  lemma RoundBetween(inp: seq<Entry>, n0: nat, outs: seq<Output>, pending0: seq<Fragment>, cut: Option<Key>, limit: Option<Key>,
                     n: nat, points: seq<Entry>, full: seq<Fragment>, spans: seq<Fragment>, pending: seq<Fragment>)
    requires Written(inp, n0, outs, pending0, cut) && Round(inp, n0, pending0, limit, n, points, full, spans, pending) && Proper(full)
    ensures Above(cut, points, spans)
    ensures var split := SplitKey(limit, inp, n);
            split.Some? ==> Below(Output(points, spans), split.value) && forall i | 0 <= i < |pending| :: pending[i].start == split.value
  {
    hide Partitioned, SameCoverage, PointsOf, SpansOf, Before, From, AllPoints, AllSpans;
    assert inp[n0..n] <= inp[n0..];
    PartAbove(inp[n0..n], cut);
    var split := SplitKey(limit, inp, n);
    if split.Some? {
      BeforeStarts(full, split.value, cut);
      FromStarts(full, split.value);
      CutBounds(full, split.value);
    }
  }

  /** Adding an output after the cut. */
  lemma AddOutput(outs: seq<Output>, cut: Option<Key>, o: Output)
    requires Partitioned(outs) && (cut.Some? ==> forall i | 0 <= i < |outs| :: Below(outs[i], cut.value)) && Above(cut, o.points, o.spans)
    requires cut.None? ==> outs == []
    ensures Partitioned(outs + [o])
    ensures AllPoints(outs + [o]) == AllPoints(outs) + o.points && AllSpans(outs + [o]) == AllSpans(outs) + o.spans
  {
    hide Separate, Below;
    var r := outs + [o];
    assert r[..|outs|] == outs;
    forall i, j | 0 <= i < j < |r| ensures Separate(r[i], r[j]) {
      if j == |outs| { Apart(outs[i], cut.value, o); }
    }
  }

  lemma Apart(a: Output, cut: Key, o: Output)
    requires Below(a, cut) && Above(Some(cut), o.points, o.spans)
    ensures Separate(a, o)
  {
  }

  lemma CutRises(outs: seq<Output>, cut: Key, split: Key)
    requires (forall i | 0 <= i < |outs| :: Below(outs[i], cut)) && cut <= split
    ensures forall i | 0 <= i < |outs| :: Below(outs[i], split)
  {
  }

  /** A round keeps the invariant. */
  lemma RoundKeeps(inp: seq<Entry>, n0: nat, outs: seq<Output>, pending0: seq<Fragment>, cut: Option<Key>, limit: Option<Key>,
                   n: nat, points: seq<Entry>, full: seq<Fragment>, spans: seq<Fragment>, pending: seq<Fragment>)
    requires Written(inp, n0, outs, pending0, cut) && Round(inp, n0, pending0, limit, n, points, full, spans, pending)
    requires n0 < |inp| || pending0 != []
    requires var split := SplitKey(limit, inp, n); cut.Some? && split.Some? ==> cut.value <= split.value
    ensures Written(inp, n, if points == [] && spans == [] then outs else outs + [Output(points, spans)], pending, SplitKey(limit, inp, n))
  {
    hide Partitioned, SameCoverage, PointsOf, SpansOf, Before, From, AllPoints, AllSpans, Below;
    var split, o := SplitKey(limit, inp, n), Output(points, spans);
    RoundCoverage(inp, n0, outs, pending0, cut, limit, n, points, full, spans, pending);
    RoundBetween(inp, n0, outs, pending0, cut, limit, n, points, full, spans, pending);
    AddOutput(outs, cut, o);
    PointsSplit(inp, n0, n);
    if cut.Some? && split.Some? { CutRises(outs, cut.value, split.value); }
    if points == [] && spans == [] {
      assert AllPoints(outs) + points == AllPoints(outs) && AllSpans(outs) + spans == AllSpans(outs);
    }
    RestAbove(inp, limit, n);
  }

  lemma RestAbove(inp: seq<Entry>, limit: Option<Key>, n: nat)
    requires InputOk(inp) && n <= |inp|
    ensures Above(SplitKey(limit, inp, n), inp[n..], [])
    ensures n < |inp| ==> SplitKey(limit, inp, n).Some? && SplitKey(limit, inp, n).value <= inp[n].key
  {
  }

  function CountAbove(keys: seq<Key>, k: Key): nat {
    if keys == [] then 0 else CountAbove(keys[1..], k) + (if k < keys[0] then 1 else 0)
  }

  lemma {:induction false} CountFalls(keys: seq<Key>, a: Key, b: Key)
    requires a < b
    ensures CountAbove(keys, b) <= CountAbove(keys, a) && (b in keys ==> CountAbove(keys, b) < CountAbove(keys, a))
  {
    if keys != [] { CountFalls(keys[1..], a, b); }
  }

  function Smallests(gs: seq<Grandparent>): (r: seq<Key>)
    ensures |r| == |gs| && forall i | 0 <= i < |gs| :: r[i] == gs[i].smallest
  {
    if gs == [] then [] else Smallests(gs[..|gs| - 1]) + [gs[|gs| - 1].smallest]
  }

  /** The limit for a table that begins at a key: the earliest of where a grandparent ends
      the table and the flush splits past the key, and none only if there are none. */
  method OnNewOutput(gs: seq<Grandparent>, maxOverlap: nat, l0Limits: seq<Key>, firstKey: Key) returns (limit: Option<Key>)
    requires SortedGrandparents(gs)
    ensures IsLimit(gs, maxOverlap, l0Limits, firstKey, limit)
    ensures limit.Some? ==> firstKey < limit.value && limit.value in Smallests(gs) + l0Limits
    ensures limit.Some? ==> limit.value in l0Limits || exists j :: 0 <= j < |gs| && Ends(gs, maxOverlap, firstKey, j) && limit.value == gs[j].smallest
    ensures forall j | 0 <= j < |gs| && Ends(gs, maxOverlap, firstKey, j) :: limit.Some? && limit.value <= gs[j].smallest
    ensures forall i | 0 <= i < |l0Limits| && firstKey < l0Limits[i] :: limit.Some? && (AscendingKeys(l0Limits) ==> limit.value <= l0Limits[i])
  {
    var g, i := FindGrandparentLimit(gs, maxOverlap, firstKey);
    if g.Some? { assert Smallests(gs)[i] == g.value; }
    forall j | 0 <= j < |gs| && Ends(gs, maxOverlap, firstKey, j) ensures g.Some? && g.value <= gs[j].smallest {
      assert SeekGE(gs, firstKey) <= j;
    }
    limit := Earlier(g, FindL0Limit(l0Limits, firstKey));
  }

  lemma StartWriting(inp: seq<Entry>)
    requires InputOk(inp)
    ensures Written(inp, 0, [], [], None)
  {
    assert inp[..0] == [];
  }

  lemma WrittenFacts(inp: seq<Entry>, n: nat, outs: seq<Output>, pending: seq<Fragment>, cut: Option<Key>)
    requires Written(inp, n, outs, pending, cut) && (n < |inp| || pending != [])
    ensures InputOk(inp) && n <= |inp| && (n < |inp| ==> UpTo(inp[n].key, [], pending))
    ensures n == |inp| ==> cut.Some? && UpTo(cut.value, [], pending) && LastStart(pending) == cut.value
    ensures n < |inp| && cut.Some? ==> cut.value <= inp[n].key
  {
    hide SameCoverage, PointsOf, SpansOf, AllPoints, AllSpans, Partitioned;
    if n < |inp| { assert inp[n..][0] == inp[n]; } else { LastIsSame(pending, cut.value); }
  }

  lemma {:induction false} LastIsSame(fs: seq<Fragment>, k: Key)
    requires fs != [] && forall i | 0 <= i < |fs| :: fs[i].start == k
    ensures LastStart(fs) == k
  {
    if |fs| > 1 { LastIsSame(fs[..|fs| - 1], k); }
  }

  lemma DoneWriting(inp: seq<Entry>, outs: seq<Output>, cut: Option<Key>)
    requires Written(inp, |inp|, outs, [], cut)
    ensures AllPoints(outs) == PointsOf(inp) && Partitioned(outs)
    ensures forall x: Key, sn: nat :: FragmentOver(AllSpans(outs), x, sn) <==> FragmentOver(SpansOf(inp), x, sn)
    ensures forall i | 0 <= i < |outs| :: outs[i].points != [] || outs[i].spans != []
  {
    assert inp[..|inp|] == inp;
    forall x: Key, sn: nat ensures FragmentOver(AllSpans(outs), x, sn) <==> FragmentOver(SpansOf(inp), x, sn) {
      NothingOver(x, sn);
    }
  }

  /** A table keeps to the limits for one that begins at a key: its points lie before
      every flush split past the key, and before every grandparent at which the overlap
      counted from the key passes the maximum, and its spans end there at the latest. */
  ghost predicate KeepsTo(gs: seq<Grandparent>, maxOverlap: nat, l0Limits: seq<Key>, first: Key, o: Output) {
    && (forall i | 0 <= i < |l0Limits| && first < l0Limits[i] && AscendingKeys(l0Limits) :: Below(o, l0Limits[i]))
    && (forall j | 0 <= j < |gs| && Ends(gs, maxOverlap, first, j) :: Below(o, gs[j].smallest))
  }

  /** Key first is where the table begins: its first point, or the start of one of its
      spans, with no point before it. */
  predicate BeginsAt(o: Output, first: Key) {
    && (forall i | 0 <= i < |o.points| :: first <= o.points[i].key)
    && ((o.points != [] && o.points[0].key == first) || exists i :: 0 <= i < |o.spans| && o.spans[i].start == first)
  }

  /** Some limit for a table that begins at a key is at or before another key. */
  ghost predicate LimitBy(gs: seq<Grandparent>, maxOverlap: nat, l0Limits: seq<Key>, first: Key, k: Key) {
    || (exists i :: 0 <= i < |l0Limits| && first < l0Limits[i] <= k)
    || (exists j :: 0 <= j < |gs| && Ends(gs, maxOverlap, first, j) && gs[j].smallest <= k)
  }

  /** Table o, which begins at a key, is made from positions from to to of the input: it
      keeps to its limits, does not run across a split that is granted, and ends before
      the end of the input only at a limit or such a split. */
  ghost predicate TableOk(inp: seq<Entry>, requests: seq<bool>, gs: seq<Grandparent>, maxOverlap: nat, l0Limits: seq<Key>,
                          o: Output, first: Key, from: nat, to: nat)
    requires |requests| == |inp|
  {
    && from <= to <= |inp| && o.points == PointsOf(inp[from..to]) && BeginsAt(o, first) && KeepsTo(gs, maxOverlap, l0Limits, first, o)
    && (forall m | from <= m < to :: !Granted(inp, requests, from, m))
    && (to < |inp| ==> LimitBy(gs, maxOverlap, l0Limits, first, inp[to].key) || Granted(inp, requests, from, to))
  }

  function EndOf(ends: seq<nat>, i: nat): nat
    requires i <= |ends|
  {
    if i == 0 then 0 else ends[i - 1]
  }

  ghost predicate TablesOk(inp: seq<Entry>, requests: seq<bool>, gs: seq<Grandparent>, maxOverlap: nat, l0Limits: seq<Key>,
                           outs: seq<Output>, firsts: seq<Key>, ends: seq<nat>)
    requires |requests| == |inp|
  {
    && |outs| == |firsts| == |ends|
    && forall i | 0 <= i < |outs| :: TableOk(inp, requests, gs, maxOverlap, l0Limits, outs[i], firsts[i], EndOf(ends, i), ends[i])
  }

  lemma AddTable(inp: seq<Entry>, requests: seq<bool>, gs: seq<Grandparent>, maxOverlap: nat, l0Limits: seq<Key>,
                 outs: seq<Output>, firsts: seq<Key>, ends: seq<nat>, o: Output, first: Key, n: nat, m: nat)
    requires |requests| == |inp| && TablesOk(inp, requests, gs, maxOverlap, l0Limits, outs, firsts, ends)
    requires EndOf(ends, |ends|) == n && TableOk(inp, requests, gs, maxOverlap, l0Limits, o, first, n, m)
    ensures TablesOk(inp, requests, gs, maxOverlap, l0Limits, outs + [o], firsts + [first], ends + [m])
  {
    hide TableOk;
    var outs', firsts', ends' := outs + [o], firsts + [first], ends + [m];
    forall i | 0 <= i < |outs'| ensures TableOk(inp, requests, gs, maxOverlap, l0Limits, outs'[i], firsts'[i], EndOf(ends', i), ends'[i]) {
      if i < |outs| { assert EndOf(ends', i) == EndOf(ends, i); } else { assert EndOf(ends', i) == n; }
    }
  }

  /** What the limit that OnNewOutput gives means. */
  ghost predicate IsLimit(gs: seq<Grandparent>, maxOverlap: nat, l0Limits: seq<Key>, first: Key, limit: Option<Key>) {
    && (limit.Some? ==> first < limit.value)
    && (limit.Some? ==> limit.value in l0Limits || exists j :: 0 <= j < |gs| && Ends(gs, maxOverlap, first, j) && limit.value == gs[j].smallest)
    && (forall j | 0 <= j < |gs| && Ends(gs, maxOverlap, first, j) :: limit.Some? && limit.value <= gs[j].smallest)
    && (forall i | 0 <= i < |l0Limits| && first < l0Limits[i] :: limit.Some? && (AscendingKeys(l0Limits) ==> limit.value <= l0Limits[i]))
  }

  lemma KeepsToLimit(gs: seq<Grandparent>, maxOverlap: nat, l0Limits: seq<Key>, first: Key, limit: Option<Key>, o: Output)
    requires IsLimit(gs, maxOverlap, l0Limits, first, limit) && (limit.Some? ==> Below(o, limit.value))
    ensures KeepsTo(gs, maxOverlap, l0Limits, first, o)
  {
    hide Ends;
  }

  lemma LimitIsBy(gs: seq<Grandparent>, maxOverlap: nat, l0Limits: seq<Key>, first: Key, limit: Option<Key>, k: Key)
    requires IsLimit(gs, maxOverlap, l0Limits, first, limit) && limit.Some? && limit.value <= k
    ensures LimitBy(gs, maxOverlap, l0Limits, first, k)
  {
    hide Ends;
    if limit.value in l0Limits {
      var i :| 0 <= i < |l0Limits| && l0Limits[i] == limit.value;
    }
  }

  /** Where the table of a round begins. */
  lemma RoundBegins(inp: seq<Entry>, n0: nat, outs: seq<Output>, pending0: seq<Fragment>, cut: Option<Key>, limit: Option<Key>,
                    n: nat, points: seq<Entry>, full: seq<Fragment>, spans: seq<Fragment>, pending: seq<Fragment>, first: Key)
    requires Written(inp, n0, outs, pending0, cut) && Round(inp, n0, pending0, limit, n, points, full, spans, pending)
    requires (n0 < |inp| && n0 < n && first == inp[n0].key) || (n0 == |inp| && pending0 != [] && first == LastStart(pending0))
    ensures BeginsAt(Output(points, spans), first)
  {
    hide Written, PointsOf, SpansOf, LastStart, Before;
    var split := SplitKey(limit, inp, n);
    assert InputOk(inp) by { WrittenInput(inp, n0, outs, pending0, cut); }
    forall i | 0 <= i < |points| ensures first <= points[i].key {
      var k := PointIsEntry(inp, n0, n, points[i]);
    }
    if n0 < |inp| {
      FirstEntry(inp, n0, n);
      if !inp[n0].IsPoint() {
        assert full[|pending0|] == SpansOf(inp[n0..n])[0];
        KeptBefore(full, spans, split, |pending0|);
      }
    } else {
      var i := LastStartIs(pending0);
      assert full[i] == pending0[i];
      KeptBefore(full, spans, split, i);
    }
  }

  lemma WrittenInput(inp: seq<Entry>, n: nat, outs: seq<Output>, pending: seq<Fragment>, cut: Option<Key>)
    requires Written(inp, n, outs, pending, cut)
    ensures InputOk(inp)
  {
  }

  lemma {:induction false} FirstEntry(inp: seq<Entry>, n0: nat, n: nat)
    requires n0 < n <= |inp|
    ensures if inp[n0].IsPoint() then PointsOf(inp[n0..n]) != [] && PointsOf(inp[n0..n])[0] == inp[n0]
            else SpansOf(inp[n0..n]) != [] && SpansOf(inp[n0..n])[0] == SpanOf(inp[n0])
    decreases n
  {
    AppendOne(inp, n0, n - 1);
    if n0 < n - 1 {
      FirstEntry(inp, n0, n - 1);
    } else {
      assert inp[n0..n - 1] == [];
    }
  }

  /** A span that starts before the split key leaves a span of the same start. */
  lemma KeptBefore(full: seq<Fragment>, spans: seq<Fragment>, split: Option<Key>, i: nat)
    requires i < |full| && (if split.None? then spans == full else spans == Before(full, split.value) && full[i].start < split.value)
    ensures exists j :: 0 <= j < |spans| && spans[j].start == full[i].start
  {
    if split.Some? { var j := BeforeHas(full, split.value, i); } else { assert spans[i].start == full[i].start; }
  }

  lemma {:induction false} BeforeHas(fs: seq<Fragment>, k: Key, i: nat) returns (j: nat)
    requires i < |fs| && fs[i].start < k
    ensures j < |Before(fs, k)| && Before(fs, k)[j].start == fs[i].start
  {
    var n := |fs| - 1;
    if i < n { j := BeforeHas(fs[..n], k, i); } else { j := |Before(fs, k)| - 1; }
  }

  /** No table holds points on either side of a flush split. */
  lemma NoSplitWithin(gs: seq<Grandparent>, maxOverlap: nat, l0Limits: seq<Key>, first: Key, o: Output)
    requires KeepsTo(gs, maxOverlap, l0Limits, first, o) && BeginsAt(o, first) && AscendingKeys(l0Limits)
    ensures forall l, p, q | l in l0Limits && p in o.points && q in o.points :: !(p.key < l <= q.key)
  {
  }

  /** The outer loop. The outputs together hold the input's points in order and cover
      the same keys with the same tombstones; each lies wholly before the next, so
      no user key is in two of them. Table by table, with the key at which it begins
      and the position of the input at which it ends: it keeps to the limits for that
      key, makes the splits that are asked for between user keys, and ends at nothing
      else. The loop ends: a round consumes input, or moves the pending tombstones to a
      limit further on. */
  method WriteOutputs(inp: seq<Entry>, requests: seq<bool>, gs: seq<Grandparent>, maxOverlap: nat, l0Limits: seq<Key>)
    returns (outs: seq<Output>, firsts: seq<Key>, ends: seq<nat>)
    requires InputOk(inp) && |requests| == |inp| && SortedGrandparents(gs)
    ensures AllPoints(outs) == PointsOf(inp) && Partitioned(outs)
    ensures forall x: Key, sn: nat :: FragmentOver(AllSpans(outs), x, sn) <==> FragmentOver(SpansOf(inp), x, sn)
    ensures forall i | 0 <= i < |outs| :: outs[i].points != [] || outs[i].spans != []
    ensures TablesOk(inp, requests, gs, maxOverlap, l0Limits, outs, firsts, ends) && EndOf(ends, |ends|) == |inp|
    ensures AscendingKeys(l0Limits) ==>
              forall i, l, p, q | 0 <= i < |outs| && l in l0Limits && p in outs[i].points && q in outs[i].points :: !(p.key < l <= q.key)
  {
    hide Written, SameCoverage, PointsOf, SpansOf, AllPoints, AllSpans, Before, From, Partitioned, FragmentOver, Granted, BeginsAt, KeepsTo, LimitBy, TablesOk, IsLimit;
    ghost var keys := Smallests(gs) + l0Limits;
    var n, pending := 0, [];
    ghost var cut: Option<Key> := None;
    outs, firsts, ends := [], [], [];
    StartWriting(inp);
    assert TablesOk(inp, requests, gs, maxOverlap, l0Limits, outs, firsts, ends) by { NoTables(inp, requests, gs, maxOverlap, l0Limits); }
    while n < |inp| || pending != []
      invariant n <= |inp| && Written(inp, n, outs, pending, cut)
      invariant TablesOk(inp, requests, gs, maxOverlap, l0Limits, outs, firsts, ends) && EndOf(ends, |ends|) == n
      decreases |inp| - n, if n == |inp| && pending == [] then 0 else 1 + if cut.Some? then CountAbove(keys, cut.value) else |keys|
    {
      WrittenFacts(inp, n, outs, pending, cut);
      var firstKey := if n < |inp| then inp[n].key else LastStart(pending);
      var limit := OnNewOutput(gs, maxOverlap, l0Limits, firstKey);
      var m, points, full := FillOutput(inp, requests, n, pending, limit);
      var split := SplitKey(limit, inp, m);
      var spans, rest := full, [];
      if split.Some? { spans, rest := Before(full, split.value), From(full, split.value); }
      RoundKeeps(inp, n, outs, pending, cut, limit, m, points, full, spans, rest);
      RoundIsTable(inp, requests, gs, maxOverlap, l0Limits, n, outs, pending, cut, limit, m, points, full, spans, rest, firstKey);
      if n == |inp| && split.Some? { CountFalls(keys, cut.value, split.value); }
      if points != [] || spans != [] {
        AddTable(inp, requests, gs, maxOverlap, l0Limits, outs, firsts, ends, Output(points, spans), firstKey, n, m);
        outs, firsts, ends := outs + [Output(points, spans)], firsts + [firstKey], ends + [m];
      }
      n, pending, cut := m, rest, split;
    }
    DoneWriting(inp, outs, cut);
    if AscendingKeys(l0Limits) { NoSplitsWithin(inp, requests, gs, maxOverlap, l0Limits, outs, firsts, ends); }
  }

  lemma NoTables(inp: seq<Entry>, requests: seq<bool>, gs: seq<Grandparent>, maxOverlap: nat, l0Limits: seq<Key>)
    requires |requests| == |inp|
    ensures TablesOk(inp, requests, gs, maxOverlap, l0Limits, [], [], [])
  {
  }

  lemma NoSplitsWithin(inp: seq<Entry>, requests: seq<bool>, gs: seq<Grandparent>, maxOverlap: nat, l0Limits: seq<Key>,
                       outs: seq<Output>, firsts: seq<Key>, ends: seq<nat>)
    requires |requests| == |inp| && TablesOk(inp, requests, gs, maxOverlap, l0Limits, outs, firsts, ends) && AscendingKeys(l0Limits)
    ensures forall i, l, p, q | 0 <= i < |outs| && l in l0Limits && p in outs[i].points && q in outs[i].points :: !(p.key < l <= q.key)
  {
    hide KeepsTo, BeginsAt, Granted, PointsOf;
    forall i | 0 <= i < |outs| ensures forall l, p, q | l in l0Limits && p in outs[i].points && q in outs[i].points :: !(p.key < l <= q.key) {
      assert TableOk(inp, requests, gs, maxOverlap, l0Limits, outs[i], firsts[i], EndOf(ends, i), ends[i]);
      NoSplitWithin(gs, maxOverlap, l0Limits, firsts[i], outs[i]);
    }
  }

  /** A round makes a table as it should be, and never an empty one. */
  lemma RoundIsTable(inp: seq<Entry>, requests: seq<bool>, gs: seq<Grandparent>, maxOverlap: nat, l0Limits: seq<Key>,
                     n0: nat, outs: seq<Output>, pending0: seq<Fragment>, cut: Option<Key>, limit: Option<Key>,
                     n: nat, points: seq<Entry>, full: seq<Fragment>, spans: seq<Fragment>, pending: seq<Fragment>, first: Key)
    requires |requests| == |inp| && Written(inp, n0, outs, pending0, cut) && Round(inp, n0, pending0, limit, n, points, full, spans, pending)
    requires (n0 < |inp| && n0 < n && first == inp[n0].key) || (n0 == |inp| && pending0 != [] && first == LastStart(pending0))
    requires IsLimit(gs, maxOverlap, l0Limits, first, limit)
    requires forall m | n0 <= m < n :: !Granted(inp, requests, n0, m)
    requires n < |inp| ==> (limit.Some? && limit.value <= inp[n].key) || Granted(inp, requests, n0, n)
    ensures TableOk(inp, requests, gs, maxOverlap, l0Limits, Output(points, spans), first, n0, n)
    ensures points != [] || spans != []
  {
    hide Written, PointsOf, SpansOf, LastStart, Before, From, Granted, KeepsTo, LimitBy, IsLimit;
    var o := Output(points, spans);
    RoundBegins(inp, n0, outs, pending0, cut, limit, n, points, full, spans, pending, first);
    RoundCoverage(inp, n0, outs, pending0, cut, limit, n, points, full, spans, pending);
    RoundBetween(inp, n0, outs, pending0, cut, limit, n, points, full, spans, pending);
    if limit.Some? { BelowMore(o, SplitKey(limit, inp, n).value, limit.value); }
    KeepsToLimit(gs, maxOverlap, l0Limits, first, limit, o);
    if n < |inp| && limit.Some? && limit.value <= inp[n].key { LimitIsBy(gs, maxOverlap, l0Limits, first, limit, inp[n].key); }
  }

  lemma BelowMore(o: Output, a: Key, b: Key)
    requires Below(o, a) && a <= b
    ensures Below(o, b)
  {
  }
}
