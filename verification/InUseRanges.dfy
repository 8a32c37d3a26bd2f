/**
The key ranges in use below a compaction's output level, and the two questions
a compaction asks of them: may this point tombstone go, and may this range
tombstone go (compaction.go).
*/
module InUseRanges {
  import opened Options
  import opened Lsm

  /** Both ends are inclusive. */
  datatype KeyRange = KeyRange(start: Key, end: Key) {
    predicate Has(k: Key) { start <= k <= end }
  }

  /** A table's user key bounds. The largest bound is excluded when it is a
      range tombstone sentinel. */
  datatype Table = Table(smallest: Key, largest: Key, sentinel: bool) {
    predicate Contains(k: Key) {
      smallest <= k && (k < largest || (k == largest && !sentinel))
    }
  }

  predicate InUse(rs: seq<KeyRange>, k: Key) {
    exists i :: 0 <= i < |rs| && rs[i].Has(k)
  }

  predicate WithinBounds(ts: seq<Table>, k: Key) {
    exists i :: 0 <= i < |ts| && ts[i].smallest <= k <= ts[i].largest
  }

  /** Ranges in order. Neighbours may share one key, as neighbouring tables do. */
  predicate SortedRanges(rs: seq<KeyRange>) {
    && (forall i | 0 <= i < |rs| :: rs[i].start <= rs[i].end)
    && (forall i, j | 0 <= i < j < |rs| :: rs[i].end <= rs[j].start)
  }

  predicate SortedTables(ts: seq<Table>) {
    && (forall i | 0 <= i < |ts| :: ts[i].smallest <= ts[i].largest)
    && (forall i, j | 0 <= i < j < |ts| :: ts[i].largest <= ts[j].smallest)
  }

  /** The tables of a sorted level that Version.Overlaps returns for [lo, hi]. */
  function Overlaps(ts: seq<Table>, lo: Key, hi: Key): seq<Table> {
    if ts == [] then []
    else
      var rest := Overlaps(ts[1..], lo, hi);
      var t := ts[0];
      if (lo < t.largest || (lo == t.largest && !t.sentinel)) && t.smallest <= hi then [t] + rest else rest
  }

  lemma {:induction false} OverlapsSorted(ts: seq<Table>, lo: Key, hi: Key)
    requires SortedTables(ts)
    ensures SortedTables(Overlaps(ts, lo, hi))
    ensures forall t | t in Overlaps(ts, lo, hi) :: t in ts
  {
    if ts != [] {
      OverlapsSorted(ts[1..], lo, hi);
      var rest := Overlaps(ts[1..], lo, hi);
      forall j | 0 <= j < |rest| ensures ts[0].largest <= rest[j].smallest {
        assert rest[j] in ts[1..];
      }
    }
  }

  lemma {:induction false} OverlapsComplete(ts: seq<Table>, lo: Key, hi: Key, k: Key, i: nat)
    requires i < |ts| && ts[i].Contains(k) && lo <= k <= hi
    ensures WithinBounds(Overlaps(ts, lo, hi), k)
  {
    var r := Overlaps(ts, lo, hi);
    if i == 0 {
      assert r[0] == ts[0];
    } else {
      OverlapsComplete(ts[1..], lo, hi, k, i - 1);
      var rest := Overlaps(ts[1..], lo, hi);
      var j :| 0 <= j < |rest| && rest[j].smallest <= k <= rest[j].largest;
      assert r == rest || (|r| == |rest| + 1 && r[j + 1] == rest[j]);
    }
  }

  // ---------------------------------------------------------------------
  // calculateInuseKeyRanges
  // ---------------------------------------------------------------------

  /** The first table that ends strictly after the key. */
  method SeekGT(ts: seq<Table>, key: Key) returns (i: nat)
    requires SortedTables(ts)
    ensures i <= |ts|
    ensures forall j | 0 <= j < i :: ts[j].largest <= key
    ensures forall j | i <= j < |ts| :: key < ts[j].largest
  {
    i := 0;
    while i < |ts| && ts[i].largest < key
      invariant i <= |ts|
      invariant forall j | 0 <= j < i :: ts[j].largest < key
    {
      i := i + 1;
    }
    while i < |ts| && ts[i].largest == key
      invariant i <= |ts|
      invariant forall j | 0 <= j < i :: ts[j].largest <= key
      invariant i < |ts| ==> key <= ts[i].largest
    {
      i := i + 1;
    }
  }

  ghost predicate OneOf(r: Option<KeyRange>, k: Key) {
    r.Some? && r.value.Has(k)
  }

  /** The state of one merge: ranges written, the range being accumulated, the
      ranges after it, and the index of the current table. */
  datatype Merging = Merging(output: seq<KeyRange>, accum: Option<KeyRange>, rest: seq<KeyRange>, i: nat)

  /** What is still to be emitted, and what has been, covers the same keys from
      lo on as the ranges and tables the merge started from. */
  ghost predicate Conserved(lo: Key, input: seq<KeyRange>, ts: seq<Table>, m: Merging)
    requires m.i <= |ts|
  {
    forall k: Key | lo <= k ::
      (InUse(input, k) || WithinBounds(ts, k)) <==>
      (InUse(m.output, k) || OneOf(m.accum, k) || InUse(m.rest, k) || WithinBounds(ts[m.i..], k))
  }

  ghost predicate Ordered(ts: seq<Table>, m: Merging)
    requires m.i <= |ts|
  {
    && SortedRanges(m.output) && SortedRanges(m.rest)
    && (m.accum.None? ==> m.rest == [])
    && (m.accum.Some? ==> m.accum.value.start <= m.accum.value.end)
    && (m.accum.Some? && m.output != [] ==> m.output[|m.output| - 1].end <= m.accum.value.start)
    && (m.i < |ts| && m.output != [] ==> m.output[|m.output| - 1].end <= ts[m.i].smallest)
    && (m.accum.Some? && m.rest != [] ==> m.accum.value.end <= m.rest[0].start)
  }

  ghost predicate MergeInv(lo: Key, input: seq<KeyRange>, ts: seq<Table>, m: Merging) {
    m.i <= |ts| && Ordered(ts, m) && Conserved(lo, input, ts, m)
  }

  lemma AppendRange(rs: seq<KeyRange>, r: KeyRange)
    requires SortedRanges(rs) && r.start <= r.end && (rs != [] ==> rs[|rs| - 1].end <= r.start)
    ensures SortedRanges(rs + [r])
    ensures forall k: Key :: InUse(rs + [r], k) <==> InUse(rs, k) || r.Has(k)
  {
    var s := rs + [r];
    forall i | 0 <= i < |rs| ensures rs[i].end <= r.start {
      assert rs[i].end <= rs[|rs| - 1].end;
    }
    forall k: Key ensures InUse(s, k) <==> InUse(rs, k) || r.Has(k) {
      if InUse(rs, k) {
        var i :| 0 <= i < |rs| && rs[i].Has(k);
        assert s[i] == rs[i];
      }
      if r.Has(k) { assert s[|rs|] == r; }
    }
  }

  lemma TakeRange(rs: seq<KeyRange>)
    requires SortedRanges(rs) && rs != []
    ensures SortedRanges(rs[1..]) && (|rs| > 1 ==> rs[0].end <= rs[1].start)
    ensures forall k: Key :: InUse(rs, k) <==> rs[0].Has(k) || InUse(rs[1..], k)
  {
    forall k: Key ensures InUse(rs, k) <==> rs[0].Has(k) || InUse(rs[1..], k) {
      if InUse(rs[1..], k) {
        var i :| 0 <= i < |rs[1..]| && rs[1..][i].Has(k);
        assert rs[i + 1] == rs[1..][i];
      }
      if InUse(rs, k) {
        var i :| 0 <= i < |rs| && rs[i].Has(k);
        assert i > 0 ==> rs[1..][i - 1] == rs[i];
      }
    }
  }

  /** Skipping tables that end within a range drops only keys of that range, or
      keys before the range and the first table kept. */
  lemma SkipTables(ts: seq<Table>, from: nat, to: nat, lo: Key, end: Key)
    requires SortedTables(ts) && from <= to <= |ts|
    requires forall j | from <= j < to :: ts[j].largest <= end
    requires from < to ==> lo <= ts[from].smallest
    ensures SortedTables(ts[to..])
    ensures forall k: Key :: WithinBounds(ts[to..], k) ==> WithinBounds(ts[from..], k)
    ensures forall k: Key :: WithinBounds(ts[from..], k) ==> WithinBounds(ts[to..], k) || lo <= k <= end
  {
    forall k: Key ensures WithinBounds(ts[to..], k) ==> WithinBounds(ts[from..], k) {
      if WithinBounds(ts[to..], k) {
        var i :| 0 <= i < |ts[to..]| && ts[to..][i].smallest <= k <= ts[to..][i].largest;
        assert ts[from..][i + to - from] == ts[to..][i];
      }
    }
    forall k: Key ensures WithinBounds(ts[from..], k) ==> WithinBounds(ts[to..], k) || lo <= k <= end {
      if WithinBounds(ts[from..], k) {
        var i :| 0 <= i < |ts[from..]| && ts[from..][i].smallest <= k <= ts[from..][i].largest;
        if from + i >= to { assert ts[to..][from + i - to] == ts[from..][i]; }
        else {
          assert ts[from..][i] == ts[from + i];
          assert i > 0 ==> ts[from].largest <= ts[from + i].smallest;
        }
      }
    }
  }

  /** Folds one sorted level of tables into the ranges of the levels above it. */
  method MergeLevel(input: seq<KeyRange>, ts: seq<Table>, lo: Key) returns (output: seq<KeyRange>)
    requires SortedRanges(input) && SortedTables(ts)
    ensures SortedRanges(output)
    ensures forall k: Key | lo <= k :: InUse(output, k) <==> InUse(input, k) || WithinBounds(ts, k)
  {
    var m := StartMerge(input, ts, lo);
    while m.i < |ts| || m.accum.Some?
      invariant MergeInv(lo, input, ts, m)
      decreases |ts| - m.i, if m.accum.Some? then 1 + |m.rest| else 0
    {
      if m.accum.None? || (m.i < |ts| && ts[m.i].largest < m.accum.value.start) {
        m := EmitTable(lo, input, ts, m);
      } else if m.i == |ts| || m.accum.value.end < ts[m.i].smallest {
        m := EmitRange(lo, input, ts, m);
      } else {
        m := MergeOverlap(lo, input, ts, m);
      }
    }
    output := m.output;
    assert ts[m.i..] == [];
  }

  /** The first range, and the first table not already inside it. */
  method StartMerge(input: seq<KeyRange>, ts: seq<Table>, lo: Key) returns (m: Merging)
    requires SortedRanges(input) && SortedTables(ts)
    ensures MergeInv(lo, input, ts, m)
  {
    m := Merging([], None, input, 0);
    if |m.rest| > 0 {
      TakeRange(m.rest);
      m := m.(accum := Some(m.rest[0]), rest := m.rest[1..]);
    }
    assert ts[0..] == ts;
    if m.accum.Some? && m.accum.value.start <= lo {
      var i := SeekGT(ts, m.accum.value.end);
      SkipBelow(ts, i, lo, m.accum.value.end);
      m := m.(i := i);
    }
  }

  /** The current table is strictly before the current range, or no ranges are left. */
  method EmitTable(ghost lo: Key, ghost input: seq<KeyRange>, ts: seq<Table>, m: Merging) returns (n: Merging)
    requires SortedTables(ts) && MergeInv(lo, input, ts, m) && m.i < |ts|
    requires m.accum.Some? ==> ts[m.i].largest < m.accum.value.start
    ensures MergeInv(lo, input, ts, n) && n.i == m.i + 1
  {
    var r := KeyRange(ts[m.i].smallest, ts[m.i].largest);
    AppendRange(m.output, r);
    SkipTables(ts, m.i, m.i + 1, ts[m.i].smallest, ts[m.i].largest);
    TableInBounds(ts, m.i);
    n := m.(output := m.output + [r], i := m.i + 1);
    forall k: Key | lo <= k
      ensures (InUse(input, k) || WithinBounds(ts, k)) <==>
              (InUse(n.output, k) || OneOf(n.accum, k) || InUse(n.rest, k) || WithinBounds(ts[n.i..], k))
    {
      assert r.Has(k) ==> WithinBounds(ts[m.i..], k);
    }
  }

  /** The current range is strictly before the current table, or no tables are left. */
  method EmitRange(ghost lo: Key, ghost input: seq<KeyRange>, ts: seq<Table>, m: Merging) returns (n: Merging)
    requires MergeInv(lo, input, ts, m) && m.accum.Some?
    requires m.i < |ts| ==> m.accum.value.end < ts[m.i].smallest
    ensures MergeInv(lo, input, ts, n) && n.i == m.i
    ensures n.accum.Some? ==> |n.rest| < |m.rest|
  {
    AppendRange(m.output, m.accum.value);
    n := m.(output := m.output + [m.accum.value], accum := None);
    if |m.rest| > 0 {
      TakeRange(m.rest);
      n := n.(accum := Some(m.rest[0]), rest := m.rest[1..]);
    }
    forall k: Key | lo <= k
      ensures (InUse(input, k) || WithinBounds(ts, k)) <==>
              (InUse(n.output, k) || OneOf(n.accum, k) || InUse(n.rest, k) || WithinBounds(ts[n.i..], k))
    {
      assert OneOf(m.accum, k) <==> m.accum.value.Has(k);
    }
  }

  /** The current table overlaps the current range: the range takes in the
      table and every later range it now reaches, and the tables inside the
      result are skipped. */
  method MergeOverlap(ghost lo: Key, ghost input: seq<KeyRange>, ts: seq<Table>, m: Merging) returns (n: Merging)
    requires SortedTables(ts) && MergeInv(lo, input, ts, m) && m.i < |ts| && m.accum.Some?
    requires m.accum.value.start <= ts[m.i].largest && ts[m.i].smallest <= m.accum.value.end
    ensures MergeInv(lo, input, ts, n) && m.i < n.i
  {
    var t, range := ts[m.i], m.accum.value;
    var acc := range;
    if t.smallest < acc.start {
      acc := acc.(start := t.smallest);
    }
    if t.largest > acc.end {
      acc := acc.(end := t.largest);
    }
    TableInBounds(ts, m.i);
    var rest := m.rest;
    assert Conserved(lo, input, ts, m.(accum := Some(acc), rest := rest)) by {
      assert forall k: Key :: acc.Has(k) <==> range.Has(k) || t.smallest <= k <= t.largest;
    }
    while |rest| > 0 && rest[0].start <= acc.end
      invariant SortedRanges(rest)
      invariant acc.start <= range.start && range.end <= acc.end && acc.start <= t.smallest && t.largest <= acc.end
      invariant acc.start == range.start || acc.start == t.smallest
      invariant |rest| > 0 ==> range.end <= rest[0].start
      invariant Conserved(lo, input, ts, m.(accum := Some(acc), rest := rest))
    {
      TakeRange(rest);
      var wider := if rest[0].end > acc.end then acc.(end := rest[0].end) else acc;
      assert forall k: Key :: wider.Has(k) <==> acc.Has(k) || rest[0].Has(k);
      acc := wider;
      rest := rest[1..];
    }
    var i := SeekGT(ts, acc.end);
    SkipTables(ts, m.i, i, acc.start, acc.end);
    n := Merging(m.output, Some(acc), rest, i);
    assert Conserved(lo, input, ts, n) by {
      assert forall k: Key :: OneOf(Some(acc), k) <==> acc.start <= k <= acc.end;
    }
  }

  lemma TableInBounds(ts: seq<Table>, i: nat)
    requires i < |ts|
    ensures forall k: Key :: ts[i].smallest <= k <= ts[i].largest ==> WithinBounds(ts[i..], k)
  {
    forall k: Key | ts[i].smallest <= k <= ts[i].largest ensures WithinBounds(ts[i..], k) {
      assert ts[i..][0] == ts[i];
    }
  }

  lemma SkipBelow(ts: seq<Table>, to: nat, lo: Key, end: Key)
    requires SortedTables(ts) && to <= |ts|
    requires forall j | 0 <= j < to :: ts[j].largest <= end
    ensures SortedTables(ts[to..])
    ensures forall k: Key | lo <= k :: WithinBounds(ts, k) ==> WithinBounds(ts[to..], k) || k <= end
    ensures forall k: Key :: WithinBounds(ts[to..], k) ==> WithinBounds(ts, k)
  {
    forall k: Key ensures WithinBounds(ts[to..], k) ==> WithinBounds(ts, k) {
      if WithinBounds(ts[to..], k) {
        var i :| 0 <= i < |ts[to..]| && ts[to..][i].smallest <= k <= ts[to..][i].largest;
        assert ts[i + to] == ts[to..][i];
      }
    }
    forall k: Key | lo <= k ensures WithinBounds(ts, k) ==> WithinBounds(ts[to..], k) || k <= end {
      if WithinBounds(ts, k) {
        var i :| 0 <= i < |ts| && ts[i].smallest <= k <= ts[i].largest;
        if i >= to { assert ts[to..][i - to] == ts[i]; }
      }
    }
  }

  /** The bounds of the tables that overlap [lo, hi] at some level in [from, to). */
  ghost predicate SomeTable(levels: seq<seq<Table>>, from: nat, to: nat, lo: Key, hi: Key, k: Key)
    requires from <= to <= |levels|
  {
    exists l :: from <= l < to && WithinBounds(Overlaps(levels[l], lo, hi), k)
  }

  /** levels[l] holds the tables of level l in key order (levels[0] is not used);
      l0 holds the merged ranges of the overlapping level 0 tables. */
  method CalculateInUseKeyRanges(l0: seq<KeyRange>, levels: seq<seq<Table>>, level: nat, lo: Key, hi: Key)
    returns (output: seq<KeyRange>)
    requires 0 < |levels| && level < |levels|
    requires SortedRanges(l0)
    requires forall l | 1 <= l < |levels| :: SortedTables(levels[l])
    ensures SortedRanges(output)
    ensures forall k: Key | lo <= k ::
              InUse(output, k) <==>
              (level == 0 && InUse(l0, k)) || SomeTable(levels, if level == 0 then 1 else level, |levels|, lo, hi, k)
  {
    output := [];
    var l := level;
    if l == 0 {
      output := l0;
      l := 1;
    }
    ghost var first := l;
    while l < |levels|
      invariant first <= l <= |levels|
      invariant SortedRanges(output)
      invariant forall k: Key | lo <= k ::
                  InUse(output, k) <==> (level == 0 && InUse(l0, k)) || SomeTable(levels, first, l, lo, hi, k)
    {
      OverlapsSorted(levels[l], lo, hi);
      output := MergeLevel(output, Overlaps(levels[l], lo, hi), lo);
      l := l + 1;
    }
  }

  // ---------------------------------------------------------------------
  // Elision
  // ---------------------------------------------------------------------

  /** Binary search for the first range that ends at or after the key. */
  function FirstEndingFrom(rs: seq<KeyRange>, key: Key, lo: nat, hi: nat): (r: nat)
    requires lo <= hi <= |rs|
    ensures lo <= r <= hi
    ensures r < hi ==> key <= rs[r].end
    ensures lo < r ==> rs[r - 1].end < key
    decreases hi - lo
  {
    if lo == hi then lo
    else
      var m := (lo + hi) / 2;
      if key <= rs[m].end then FirstEndingFrom(rs, key, lo, m) else FirstEndingFrom(rs, key, m + 1, hi)
  }

  /** Binary search for the first range that starts after the key. */
  function FirstStartingAfter(rs: seq<KeyRange>, key: Key, lo: nat, hi: nat): (r: nat)
    requires lo <= hi <= |rs|
    ensures lo <= r <= hi
    ensures r < hi ==> key < rs[r].start
    ensures lo < r ==> rs[r - 1].start <= key
    decreases hi - lo
  {
    if lo == hi then lo
    else
      var m := (lo + hi) / 2;
      if key < rs[m].start then FirstStartingAfter(rs, key, lo, m) else FirstStartingAfter(rs, key, m + 1, hi)
  }

  /** Some range in use meets [start, end]. */
  predicate Meets(rs: seq<KeyRange>, start: Key, end: Key) {
    exists i :: 0 <= i < |rs| && start <= rs[i].end && rs[i].start <= end
  }

  /** The ranges as elideRangeTombstone searches them, once from each side. */
  predicate NoneMeets(rs: seq<KeyRange>, start: Key, end: Key) {
    FirstEndingFrom(rs, start, 0, |rs|) >= FirstStartingAfter(rs, end, 0, |rs|)
  }

  /** The two searches agree with looking at every range. */
  lemma NoneMeetsExact(rs: seq<KeyRange>, start: Key, end: Key)
    requires SortedRanges(rs)
    ensures NoneMeets(rs, start, end) <==> !Meets(rs, start, end)
  {
    hide FirstEndingFrom, FirstStartingAfter;
    var lower := FirstEndingFrom(rs, start, 0, |rs|);
    var upper := FirstStartingAfter(rs, end, 0, |rs|);
    if lower < upper {
      assert rs[lower].start <= rs[upper - 1].start;
      assert start <= rs[lower].end && rs[lower].start <= end;
    } else {
      forall i | 0 <= i < |rs| ensures !(start <= rs[i].end && rs[i].start <= end) {
        if i < lower { assert rs[i].end <= rs[lower - 1].end; }
        if upper <= i { assert rs[upper].start <= rs[i].start; }
      }
    }
  }

  /** The part of a compaction that decides whether tombstones may be elided. */
  class Elision {
    const inuse: seq<KeyRange>
    const smallest: Key
    const largest: Key
    const entireRange: bool
    const flushing: bool
    const disableSpanElision: bool
    var index: nat
    ghost var last: Option<Key>

    constructor (inuse: seq<KeyRange>, smallest: Key, largest: Key, flushing: bool, disableSpanElision: bool)
      requires SortedRanges(inuse)
      ensures Valid() && last == None
      ensures this.inuse == inuse && this.smallest == smallest && this.largest == largest
      ensures this.flushing == flushing && this.disableSpanElision == disableSpanElision
    {
      this.inuse := inuse;
      this.smallest := smallest;
      this.largest := largest;
      this.flushing := flushing;
      this.disableSpanElision := disableSpanElision;
      entireRange := |inuse| > 0 && inuse[0].start <= smallest && inuse[0].end >= largest;
      index := 0;
      last := None;
    }

    ghost predicate Valid()
      reads this
    {
      && SortedRanges(inuse) && index <= |inuse|
      && entireRange == (|inuse| > 0 && inuse[0].start <= smallest && inuse[0].end >= largest)
      && (index > 0 ==> last.Some? && inuse[index - 1].end < last.value)
    }

    /** On ascending keys the moving cursor answers for all ranges at once. */
    method ElideTombstone(key: Key) returns (r: bool)
      requires Valid() && (last.Some? ==> last.value <= key)
      modifies this
      ensures Valid() && last == Some(key)
      ensures r <==> !entireRange && !flushing && !InUse(inuse, key)
    {
      last := Some(key);
      if entireRange || flushing {
        return false;
      }
      r := true;
      while index < |inuse|
        invariant index <= |inuse|
        invariant index > 0 ==> inuse[index - 1].end < key
        invariant last == Some(key)
      {
        var range := inuse[index];
        if key <= range.end {
          forall i | 0 <= i < |inuse| && i != index ensures inuse[i].Has(key) ==> range.Has(key) {
            if i < index { assert inuse[i].end <= inuse[index - 1].end; }
            else { assert range.end <= inuse[i].start; }
          }
          if key >= range.start {
            assert range.Has(key);
            return false;
          }
          return true;
        }
        index := index + 1;
      }
      forall i | 0 <= i < |inuse| ensures !inuse[i].Has(key) {
        assert inuse[i].end <= inuse[|inuse| - 1].end;
      }
    }

    function ElideRangeTombstone(start: Key, end: Key): bool {
      !disableSpanElision && !flushing && NoneMeets(inuse, start, end)
    }

    function AllowZeroSeqNum(): bool {
      ElideRangeTombstone(smallest, largest)
    }

    /** A range tombstone is elided only when no key it deletes is in use. */
    lemma RangeElisionIsSound(start: Key, end: Key, k: Key)
      requires SortedRanges(inuse) && ElideRangeTombstone(start, end) && start <= k <= end
      ensures !InUse(inuse, k)
    {
      NoneMeetsExact(inuse, start, end);
    }

    /** It is elided whenever that is so, unless the compaction is a flush or elision
        is off. */
    lemma RangeElisionIsExact(start: Key, end: Key)
      requires SortedRanges(inuse) && start <= end
      ensures ElideRangeTombstone(start, end) <==>
                !disableSpanElision && !flushing && forall k: Key | start <= k <= end :: !InUse(inuse, k)
    {
      NoneMeetsExact(inuse, start, end);
      if Meets(inuse, start, end) {
        var i :| 0 <= i < |inuse| && start <= inuse[i].end && inuse[i].start <= end;
        assert InUse(inuse, if start <= inuse[i].start then inuse[i].start else start);
      }
    }

    /** When sequence numbers may be zeroed, every range tombstone inside the
        compaction's bounds may be elided, and no key in them is in use. */
    lemma ZeroingForcesElision(start: Key, end: Key)
      requires SortedRanges(inuse) && AllowZeroSeqNum() && smallest <= start && end <= largest
      ensures ElideRangeTombstone(start, end)
    {
      NoneMeetsExact(inuse, smallest, largest);
      NoneMeetsExact(inuse, start, end);
    }
  }
}
