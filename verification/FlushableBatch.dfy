/**
The flushable form of a large batch (batch.go). It takes the place of a memtable,
so its points, range tombstones and range keys have to be those of a memtable that
the batch was applied to (mem_table.go). Points get their sequence numbers when
they are looked at; tombstones and range keys are numbered when the flushable
batch is made, before the batch has a sequence number, and are corrected later.

Everything is stated of the records that the reader yields, as both the memtable
and the flushable batch read the batch's data.
*/
module FlushableBatch {
  import opened Options
  import opened Lsm
  import opened BatchCodec

  /** The three lists that records are divided into. */
  datatype Class = Points | RangeDels | RangeKeys

  function ClassOf(kind: nat): Class {
    if kind == RANGE_DELETE then RangeDels
    else if kind == RANGE_KEY_SET || kind == RANGE_KEY_UNSET || kind == RANGE_KEY_DELETE then RangeKeys
    else Points
  }

  /** A record of a batch: its offset in the data, its ordinal, and what is read of it. */
  datatype Slot = Slot(offset: nat, index: nat, r: Record)

  /** An internal key with its value. */
  datatype Point = Point(key: Bytes, sn: nat, kind: nat, value: Bytes)

  /** The records of the data d, which begin at an offset and with an ordinal. */
  function Slots(d: Bytes, offset: nat, index: nat): Option<seq<Slot>>
    decreases |d|
  {
    match Next(d)
    case End => Some([])
    case Corrupt => None
    case Read(r, rest) =>
      var more := Slots(rest, offset + |d| - |rest|, index + 1);
      if more.None? then None else Some([Slot(offset, index, r)] + more.value)
  }

  /** Offsets rise, and ordinals count. */
  predicate InOrder(ss: seq<Slot>) {
    && (forall i, j | 0 <= i < j < |ss| :: ss[i].offset < ss[j].offset)
    && (forall i | 0 <= i < |ss| :: ss[i].index == i)
  }

  lemma {:induction false} SlotsRise(d: Bytes, offset: nat, index: nat)
    requires Slots(d, offset, index).Some?
    ensures var ss := Slots(d, offset, index).value;
            && (forall i | 0 <= i < |ss| :: offset <= ss[i].offset && ss[i].index == index + i)
            && (forall i, j | 0 <= i < j < |ss| :: ss[i].offset < ss[j].offset)
    decreases |d|
  {
    hide Next;
    if Next(d).Read? {
      SlotsRise(Next(d).rest, offset + |d| - |Next(d).rest|, index + 1);
    }
  }

  /** The slots hold the records that decoding gives. */
  lemma {:induction false} SlotsAreRecords(d: Bytes, offset: nat, index: nat)
    ensures Slots(d, offset, index).Some? <==> DecodeAll(d).Some?
    ensures Slots(d, offset, index).Some? ==>
              var ss, rs := Slots(d, offset, index).value, DecodeAll(d).value;
              |ss| == |rs| && forall i | 0 <= i < |rs| :: ss[i].r == rs[i]
    decreases |d|
  {
    hide Next;
    if Next(d).Read? {
      SlotsAreRecords(Next(d).rest, offset + |d| - |Next(d).rest|, index + 1);
    }
  }

  // ---------------------------------------------------------------------
  // The memtable
  // ---------------------------------------------------------------------

  /** How many sequence numbers the records take. */
  function Taken(ss: seq<Slot>): nat {
    if ss == [] then 0 else Taken(ss[..|ss| - 1]) + (if ss[|ss| - 1].r.kind == LOG_DATA then 0 else 1)
  }

  /** What memTable.apply adds to one of its skiplists. */
  function MemEntries(c: Class, ss: seq<Slot>, sn: nat): seq<Point> {
    if ss == [] then []
    else
      var n := |ss| - 1;
      var r, older := ss[n].r, MemEntries(c, ss[..n], sn);
      if r.kind == LOG_DATA || ClassOf(r.kind) != c then older
      else older + [Point(r.key, sn + Taken(ss[..n]), r.kind, r.value)]
  }

  /** memTable.apply: each record goes to a skiplist under the next number; log data is
      passed over and takes none. A record of an ingested table is a panic. The sum of
      the numbers is the batch's count. */
  method MemApply(d: Bytes, sn: nat) returns (ok: bool, points: seq<Point>, rangeDels: seq<Point>, rangeKeys: seq<Point>, end: nat)
    ensures ok <==> DecodeAll(d).Some? && NoIngest(DecodeAll(d).value)
    ensures ok ==> Slots(d, HEADER_LEN, 0).Some? && end == sn + Taken(Slots(d, HEADER_LEN, 0).value)
                   && points == MemEntries(Points, Slots(d, HEADER_LEN, 0).value, sn)
                   && rangeDels == MemEntries(RangeDels, Slots(d, HEADER_LEN, 0).value, sn)
                   && rangeKeys == MemEntries(RangeKeys, Slots(d, HEADER_LEN, 0).value, sn)
  {
    hide Next;
    SlotsAreRecords(d, HEADER_LEN, 0);
    points, rangeDels, rangeKeys, end := [], [], [], sn;
    var rest := d;
    ghost var all := Slots(d, HEADER_LEN, 0);
    ghost var seen: seq<Slot> := [];
    while rest != []
      invariant |rest| <= |d| && SplitsAt(d, all, seen, rest) && end == sn + Taken(seen)
      invariant points == MemEntries(Points, seen, sn) && rangeDels == MemEntries(RangeDels, seen, sn) && rangeKeys == MemEntries(RangeKeys, seen, sn)
      invariant forall i | 0 <= i < |seen| :: seen[i].r.kind != INGEST_SST
      decreases |rest|
    {
      var item := Next(rest);
      MoreToRead(rest);
      SplitsOn(d, all, seen, rest);
      if item.Corrupt? { return false, [], [], [], sn; }
      var r := item.r;
      ghost var slot := Slot(HEADER_LEN + |d| - |rest|, |seen|, r);
      if r.kind == INGEST_SST {
        if all.Some? { assert all.value[|seen|].r == r; }
        return false, [], [], [], sn;
      }
      assert (seen + [slot])[..|seen|] == seen;
      var p := Point(r.key, end, r.kind, r.value);
      if r.kind == RANGE_DELETE {
        rangeDels := rangeDels + [p];
      } else if r.kind == RANGE_KEY_SET || r.kind == RANGE_KEY_UNSET || r.kind == RANGE_KEY_DELETE {
        rangeKeys := rangeKeys + [p];
      } else if r.kind != LOG_DATA {
        points := points + [p];
      }
      end := if r.kind == LOG_DATA then end else end + 1;
      seen := seen + [slot];
      rest := item.rest;
    }
    SplitsEnd(d, all, seen);
    ok := true;
  }

  /** The slots of d are those seen so far and those of the rest. */
  ghost predicate SplitsAt(d: Bytes, all: Option<seq<Slot>>, seen: seq<Slot>, rest: Bytes) {
    |rest| <= |d| &&
    var more := Slots(rest, HEADER_LEN + |d| - |rest|, |seen|);
    (all.Some? <==> more.Some?) && (all.Some? ==> all.value == seen + more.value)
  }

  lemma SplitsOn(d: Bytes, all: Option<seq<Slot>>, seen: seq<Slot>, rest: Bytes)
    requires SplitsAt(d, all, seen, rest) && rest != []
    ensures Next(rest).Corrupt? ==> all.None?
    ensures Next(rest).Read? ==>
              var slot := Slot(HEADER_LEN + |d| - |rest|, |seen|, Next(rest).r);
              SplitsAt(d, all, seen + [slot], Next(rest).rest) && (all.Some? ==> |seen| < |all.value| && all.value[|seen|] == slot)
  {
    hide Next;
    MoreToRead(rest);
    if Next(rest).Read? && all.Some? {
      var slot := Slot(HEADER_LEN + |d| - |rest|, |seen|, Next(rest).r);
      var more := Slots(Next(rest).rest, HEADER_LEN + |d| - |Next(rest).rest|, |seen| + 1).value;
      assert seen + ([slot] + more) == seen + [slot] + more;
    }
  }

  lemma SplitsEnd(d: Bytes, all: Option<seq<Slot>>, seen: seq<Slot>)
    requires SplitsAt(d, all, seen, [])
    ensures all == Some(seen)
  {
    NothingToRead();
    assert seen + [] == seen;
  }

  // ---------------------------------------------------------------------
  // The flushable batch
  // ---------------------------------------------------------------------

  /** The records of one class, in order. Log data is among the points. */
  function Pick(c: Class, ss: seq<Slot>): seq<Slot> {
    if ss == [] then []
    else
      var n := |ss| - 1;
      Pick(c, ss[..n]) + if ClassOf(ss[n].r.kind) == c then [ss[n]] else []
  }

  /** newFlushableBatch's loop: the records are divided into three lists. */
  method Divide(d: Bytes) returns (ok: bool, points: seq<Slot>, rangeDels: seq<Slot>, rangeKeys: seq<Slot>)
    ensures ok <==> Slots(d, HEADER_LEN, 0).Some?
    ensures ok ==> var ss := Slots(d, HEADER_LEN, 0).value;
                   points == Pick(Points, ss) && rangeDels == Pick(RangeDels, ss) && rangeKeys == Pick(RangeKeys, ss)
  {
    hide Next;
    points, rangeDels, rangeKeys := [], [], [];
    var rest, index := d, 0;
    ghost var all := Slots(d, HEADER_LEN, 0);
    ghost var seen: seq<Slot> := [];
    while rest != []
      invariant |rest| <= |d| && SplitsAt(d, all, seen, rest) && index == |seen|
      invariant points == Pick(Points, seen) && rangeDels == Pick(RangeDels, seen) && rangeKeys == Pick(RangeKeys, seen)
      decreases |rest|
    {
      var item := Next(rest);
      MoreToRead(rest);
      SplitsOn(d, all, seen, rest);
      if item.Corrupt? { return false, [], [], []; }
      var slot := Slot(HEADER_LEN + |d| - |rest|, index, item.r);
      assert (seen + [slot])[..|seen|] == seen;
      if item.r.kind == RANGE_DELETE {
        rangeDels := rangeDels + [slot];
      } else if item.r.kind == RANGE_KEY_SET || item.r.kind == RANGE_KEY_UNSET || item.r.kind == RANGE_KEY_DELETE {
        rangeKeys := rangeKeys + [slot];
      } else {
        points := points + [slot];
      }
      seen := seen + [slot];
      rest, index := item.rest, index + 1;
    }
    SplitsEnd(d, all, seen);
    ok := true;
  }

  /** getKey and value: the batch's number and the ordinal make the sequence number. */
  function PointOf(e: Slot, sn: nat): Point {
    Point(e.r.key, sn + e.index, e.r.kind, e.r.value)
  }

  function Numbered(es: seq<Slot>, sn: nat): (r: seq<Point>)
    ensures |r| == |es| && forall i | 0 <= i < |es| :: r[i] == PointOf(es[i], sn)
  {
    if es == [] then [] else Numbered(es[..|es| - 1], sn) + [PointOf(es[|es| - 1], sn)]
  }

  /** flushableBatch.Less. The comparer's order is given by an embedding of keys in
      the reals. */
  predicate Less(rank: Bytes -> real, a: Slot, b: Slot) {
    rank(a.r.key) < rank(b.r.key) || (rank(a.r.key) == rank(b.r.key) && a.offset > b.offset)
  }

  /** The order of internal keys. */
  predicate Precedes(rank: Bytes -> real, a: Point, b: Point) {
    rank(a.key) < rank(b.key) || (rank(a.key) == rank(b.key) && a.sn > b.sn)
  }

  /** es is the sorted form of entries. */
  ghost predicate SortedSlots(rank: Bytes -> real, es: seq<Slot>, entries: seq<Slot>) {
    && (forall i, j | 0 <= i < j < |es| :: Less(rank, es[i], es[j]))
    && (forall e :: e in es <==> e in entries)
  }

  /** ps is what a skiplist with the given entries yields. */
  ghost predicate SortedPoints(rank: Bytes -> real, ps: seq<Point>, entries: seq<Point>) {
    && (forall i, j | 0 <= i < j < |ps| :: Precedes(rank, ps[i], ps[j]))
    && (forall p :: p in ps <==> p in entries)
  }

  /** Log data comes before, or is, a record of the class. */
  predicate Disturbed(c: Class, ss: seq<Slot>) {
    exists i, j :: 0 <= i <= j < |ss| && ss[i].r.kind == LOG_DATA && ClassOf(ss[j].r.kind) == c
  }

  lemma {:induction false} TakenAtMost(ss: seq<Slot>)
    ensures Taken(ss) <= |ss|
    ensures Taken(ss) == |ss| <==> forall i | 0 <= i < |ss| :: ss[i].r.kind != LOG_DATA
  {
    if ss != [] { TakenAtMost(ss[..|ss| - 1]); }
  }

  lemma {:induction false} PickedIs(c: Class, ss: seq<Slot>, e: Slot)
    ensures e in Pick(c, ss) <==> e in ss && ClassOf(e.r.kind) == c
  {
    if ss != [] {
      var n := |ss| - 1;
      PickedIs(c, ss[..n], e);
      assert ss == ss[..n] + [ss[n]];
    }
  }

  lemma NumberedHas(es: seq<Slot>, sn: nat, p: Point)
    ensures p in Numbered(es, sn) <==> exists e :: e in es && PointOf(e, sn) == p
  {
    hide Numbered;
    if p in Numbered(es, sn) {
      var i :| 0 <= i < |es| && Numbered(es, sn)[i] == p;
      assert es[i] in es;
    }
    if e :| e in es && PointOf(e, sn) == p {
      var i :| 0 <= i < |es| && es[i] == e;
      assert Numbered(es, sn)[i] == p;
    }
  }

  lemma NumberedMore(es: seq<Slot>, e: Slot, sn: nat)
    ensures Numbered(es + [e], sn) == Numbered(es, sn) + [PointOf(e, sn)]
  {
    assert (es + [e])[..|es|] == es;
  }

  /** Undisturbed, the entries have the memtable's numbers. */
  lemma {:induction false} SameNumbers(c: Class, ss: seq<Slot>, sn: nat)
    requires InOrder(ss) && !Disturbed(c, ss)
    ensures Numbered(Pick(c, ss), sn) == MemEntries(c, ss, sn)
  {
    hide Numbered, Taken;
    if ss == [] {
      assert Numbered([], sn) == [] by { NoneNumbered(sn); }
    } else {
      var n := |ss| - 1;
      forall i, j | 0 <= i <= j < n && ss[..n][i].r.kind == LOG_DATA ensures ClassOf(ss[..n][j].r.kind) != c { assert ss[i].r.kind == LOG_DATA; }
      SameNumbers(c, ss[..n], sn);
      if ClassOf(ss[n].r.kind) == c {
        forall i | 0 <= i < n ensures ss[..n][i].r.kind != LOG_DATA { assert ss[i] == ss[..n][i]; }
        TakenAtMost(ss[..n]);
        NumberedMore(Pick(c, ss[..n]), ss[n], sn);
        assert ss[n].r.kind != LOG_DATA;
      }
    }
  }

  lemma NoneNumbered(sn: nat)
    ensures Numbered([], sn) == []
  {
  }

  /** Sorting by key and offset is sorting by key and sequence number. */
  lemma SortedAlike(rank: Bytes -> real, c: Class, ss: seq<Slot>, sn: nat, es: seq<Slot>)
    requires InOrder(ss) && SortedSlots(rank, es, Pick(c, ss))
    ensures forall i, j | 0 <= i < j < |es| :: Precedes(rank, Numbered(es, sn)[i], Numbered(es, sn)[j])
  {
    hide Numbered, Pick;
    forall i, j | 0 <= i < j < |es| ensures Precedes(rank, PointOf(es[i], sn), PointOf(es[j], sn)) {
      assert Less(rank, es[i], es[j]) && es[i] in es && es[j] in es;
      PickedIs(c, ss, es[i]);
      PickedIs(c, ss, es[j]);
      var a :| 0 <= a < |ss| && ss[a] == es[i];
      var b :| 0 <= b < |ss| && ss[b] == es[j];
      assert ss[a].index == a && ss[b].index == b;
      if ss[b].offset < ss[a].offset { assert b < a; }
    }
  }

  /** Two sorted sequences with the same points are the same. */
  lemma {:induction false} SortedOnce(rank: Bytes -> real, a: seq<Point>, b: seq<Point>)
    requires forall i, j | 0 <= i < j < |a| :: Precedes(rank, a[i], a[j])
    requires forall i, j | 0 <= i < j < |b| :: Precedes(rank, b[i], b[j])
    requires forall p :: p in a <==> p in b
    ensures a == b
  {
    assert forall i | 0 <= i < |a| :: a[i] in b;
    assert forall i | 0 <= i < |b| :: b[i] in a;
    if a != [] && b != [] {
      assert a[0] == b[0];
      forall p ensures p in a[1..] <==> p in b[1..] {
        assert p in a <==> p == a[0] || p in a[1..];
        assert p in b <==> p == b[0] || p in b[1..];
        assert a[0] !in a[1..] && b[0] !in b[1..];
      }
      SortedOnce(rank, a[1..], b[1..]);
    }
  }

  lemma {:induction false} MemNumbers(c: Class, ss: seq<Slot>, sn: nat)
    ensures forall i | 0 <= i < |MemEntries(c, ss, sn)| :: MemEntries(c, ss, sn)[i].sn < sn + Taken(ss) && MemEntries(c, ss, sn)[i].kind != LOG_DATA
  {
    if ss != [] { MemNumbers(c, ss[..|ss| - 1], sn); }
  }

  /** Records after the last of a class add nothing to it. */
  lemma {:induction false} MemUpTo(c: Class, ss: seq<Slot>, sn: nat, n: nat)
    requires n <= |ss| && forall i | n <= i < |ss| :: ClassOf(ss[i].r.kind) != c
    ensures MemEntries(c, ss, sn) == MemEntries(c, ss[..n], sn)
    decreases |ss|
  {
    if n == |ss| {
      assert ss[..n] == ss;
    } else {
      var m := |ss| - 1;
      MemUpTo(c, ss[..m], sn, n);
      assert ss[..m][..n] == ss[..n];
    }
  }

  function LastOf(c: Class, ss: seq<Slot>): (n: nat)
    ensures n <= |ss| && (forall i | n <= i < |ss| :: ClassOf(ss[i].r.kind) != c)
    ensures n > 0 ==> ClassOf(ss[n - 1].r.kind) == c
  {
    if ss == [] then 0 else if ClassOf(ss[|ss| - 1].r.kind) == c then |ss| else LastOf(c, ss[..|ss| - 1])
  }

  /** Disturbed, some entry of the flushable batch is not in the memtable: the last of the
      class, which has too high a number, or is log data itself. */
  lemma DisturbedDiffers(c: Class, ss: seq<Slot>, sn: nat) returns (e: Slot)
    requires InOrder(ss) && Disturbed(c, ss)
    ensures e in Pick(c, ss) && PointOf(e, sn) !in MemEntries(c, ss, sn)
  {
    hide Pick, MemEntries, Taken, LastOf;
    var i, j :| 0 <= i <= j < |ss| && ss[i].r.kind == LOG_DATA && ClassOf(ss[j].r.kind) == c;
    var n := LastOf(c, ss);
    e := ss[n - 1];
    PickedIs(c, ss, e);
    MemUpTo(c, ss, sn, n);
    MemNumbers(c, ss[..n], sn);
    TakenAtMost(ss[..n]);
    assert ss[..n][i].r.kind == LOG_DATA;
  }

  /** Each of the three streams of a flushable batch is that of a memtable that the batch
      was applied to, in keys, numbers, kinds, values and order, exactly when no log
      data comes before a record of the stream, or is one. */
  lemma StreamsAgree(rank: Bytes -> real, c: Class, ss: seq<Slot>, sn: nat, es: seq<Slot>, ps: seq<Point>)
    requires InOrder(ss) && SortedSlots(rank, es, Pick(c, ss)) && SortedPoints(rank, ps, MemEntries(c, ss, sn))
    ensures Numbered(es, sn) == ps <==> !Disturbed(c, ss)
  {
    hide Numbered, Pick, MemEntries, Disturbed, InOrder;
    if Disturbed(c, ss) {
      var e := DisturbedDiffers(c, ss, sn);
      NumberedHas(es, sn, PointOf(e, sn));
    } else {
      SameNumbers(c, ss, sn);
      SortedAlike(rank, c, ss, sn, es);
      forall p ensures p in Numbered(es, sn) <==> p in ps {
        NumberedHas(es, sn, p);
        NumberedHas(Pick(c, ss), sn, p);
      }
      SortedOnce(rank, Numbered(es, sn), ps);
    }
  }

  // ---------------------------------------------------------------------
  // Fragments and setSeqNum
  // ---------------------------------------------------------------------

  /** A tombstone or range key as a fragment carries it. */
  datatype Item = Item(sn: nat, kind: nat, value: Bytes)

  datatype Frag = Frag(start: real, end: real, items: seq<Item>)

  predicate ItemOver(fs: seq<Frag>, k: real, x: Item) {
    exists i :: 0 <= i < |fs| && fs[i].start <= k < fs[i].end && x in fs[i].items
  }

  /** An entry with this item reaches over k. Where it ends is told by its kind and value. */
  predicate EntryOver(rank: Bytes -> real, ends: (nat, Bytes) -> real, ps: seq<Point>, k: real, x: Item) {
    exists i :: 0 <= i < |ps| && rank(ps[i].key) <= k < ends(ps[i].kind, ps[i].value) && x == Item(ps[i].sn, ps[i].kind, ps[i].value)
  }

  /** What the fragmenter promises: over each key, the entries that reach over it, newest
      first. */
  ghost predicate FragsOf(rank: Bytes -> real, ends: (nat, Bytes) -> real, ps: seq<Point>, fs: seq<Frag>) {
    && (forall i, a, b | 0 <= i < |fs| && 0 <= a < b < |fs[i].items| :: fs[i].items[b].sn <= fs[i].items[a].sn)
    && (forall k, x :: ItemOver(fs, k, x) <==> EntryOver(rank, ends, ps, k, x))
  }

  function ShiftItems(xs: seq<Item>, n: nat): (r: seq<Item>)
    ensures |r| == |xs| && forall i | 0 <= i < |xs| :: r[i] == xs[i].(sn := xs[i].sn + n)
  {
    if xs == [] then [] else ShiftItems(xs[..|xs| - 1], n) + [xs[|xs| - 1].(sn := xs[|xs| - 1].sn + n)]
  }

  /** All numbers raised by n. */
  ghost predicate Shifted(fs: seq<Frag>, n: nat, gs: seq<Frag>) {
    |fs| == |gs| && forall i | 0 <= i < |fs| :: gs[i] == fs[i].(items := ShiftItems(fs[i].items, n))
  }

  /** setSeqNum's loop over fragments. */
  method Shift(fs: seq<Frag>, n: nat) returns (gs: seq<Frag>)
    ensures Shifted(fs, n, gs)
  {
    gs := fs;
    for i := 0 to |fs|
      invariant |gs| == |fs| && (forall a | i <= a < |fs| :: gs[a] == fs[a])
      invariant forall a | 0 <= a < i :: gs[a] == fs[a].(items := ShiftItems(fs[a].items, n))
    {
      for j := 0 to |fs[i].items|
        invariant |gs| == |fs| && gs[i] == fs[i].(items := gs[i].items) && |gs[i].items| == |fs[i].items|
        invariant forall a | 0 <= a < |fs| && a != i :: gs[a] == if a < i then fs[a].(items := ShiftItems(fs[a].items, n)) else fs[a]
        invariant forall b | 0 <= b < |fs[i].items| :: gs[i].items[b] == if b < j then ShiftItems(fs[i].items, n)[b] else fs[i].items[b]
      {
        var x := gs[i].items[j];
        gs := gs[i := gs[i].(items := gs[i].items[j := x.(sn := x.sn + n)])];
      }
      assert gs[i].items == ShiftItems(fs[i].items, n);
    }
  }

  lemma ShiftedOver(fs: seq<Frag>, n: nat, gs: seq<Frag>, k: real, x: Item)
    requires Shifted(fs, n, gs)
    ensures ItemOver(gs, k, x) <==> x.sn >= n && ItemOver(fs, k, x.(sn := x.sn - n))
  {
    hide ShiftItems;
    if i :| 0 <= i < |gs| && gs[i].start <= k < gs[i].end && x in gs[i].items {
      var j :| 0 <= j < |gs[i].items| && gs[i].items[j] == x;
      assert fs[i].items[j] == x.(sn := x.sn - n);
    }
    if x.sn >= n && ItemOver(fs, k, x.(sn := x.sn - n)) {
      var y := x.(sn := x.sn - n);
      var i :| 0 <= i < |fs| && fs[i].start <= k < fs[i].end && y in fs[i].items;
      var j :| 0 <= j < |fs[i].items| && fs[i].items[j] == y;
      assert gs[i].items[j] == x;
    }
  }

  lemma NumberedOver(rank: Bytes -> real, ends: (nat, Bytes) -> real, es: seq<Slot>, n: nat, k: real, x: Item)
    ensures EntryOver(rank, ends, Numbered(es, n), k, x) <==> x.sn >= n && EntryOver(rank, ends, Numbered(es, 0), k, x.(sn := x.sn - n))
  {
    hide Numbered;
    var ps, qs := Numbered(es, n), Numbered(es, 0);
    if i :| 0 <= i < |ps| && rank(ps[i].key) <= k < ends(ps[i].kind, ps[i].value) && x == Item(ps[i].sn, ps[i].kind, ps[i].value) {
      assert qs[i].sn == x.sn - n;
    }
    if x.sn >= n && EntryOver(rank, ends, qs, k, x.(sn := x.sn - n)) {
      var i :| 0 <= i < |qs| && rank(qs[i].key) <= k < ends(qs[i].kind, qs[i].value) && x.(sn := x.sn - n) == Item(qs[i].sn, qs[i].kind, qs[i].value);
      assert ps[i].sn == x.sn;
    }
  }

  /** Numbering the entries from 0, fragmenting, and raising the numbers is numbering them
      from n and fragmenting. */
  lemma ShiftIsRenumbering(rank: Bytes -> real, ends: (nat, Bytes) -> real, es: seq<Slot>, n: nat, fs: seq<Frag>, gs: seq<Frag>)
    requires FragsOf(rank, ends, Numbered(es, 0), fs) && Shifted(fs, n, gs)
    ensures FragsOf(rank, ends, Numbered(es, n), gs)
  {
    hide Numbered, ItemOver, EntryOver, ShiftItems;
    forall k, x ensures ItemOver(gs, k, x) <==> EntryOver(rank, ends, Numbered(es, n), k, x) {
      ShiftedOver(fs, n, gs, k, x);
      NumberedOver(rank, ends, es, n, k, x);
    }
  }

  class Flushable {
    ghost const rank: Bytes -> real
    ghost const ends: (nat, Bytes) -> real
    ghost const slots: seq<Slot>          // the batch's records
    ghost const dels: seq<Slot>           // its range tombstones, sorted
    ghost const keys: seq<Slot>           // its range keys, sorted
    const points: seq<Slot>
    var seqNum: nat
    var tombstones: seq<Frag>
    var rangeKeys: seq<Frag>

    ghost predicate Valid()
      reads this
    {
      && InOrder(slots) && SortedSlots(rank, points, Pick(Points, slots))
      && SortedSlots(rank, dels, Pick(RangeDels, slots)) && SortedSlots(rank, keys, Pick(RangeKeys, slots))
      && FragsOf(rank, ends, Numbered(dels, seqNum), tombstones) && FragsOf(rank, ends, Numbered(keys, seqNum), rangeKeys)
    }

    /** newFlushableBatch, after sorting and fragmenting: the number is that of the batch's
        header, which is 0 unless the batch is replayed from the WAL. */
    constructor (ghost rank: Bytes -> real, ghost ends: (nat, Bytes) -> real, ghost slots: seq<Slot>, header: nat,
                 points: seq<Slot>, ghost dels: seq<Slot>, ghost keys: seq<Slot>, tombstones: seq<Frag>, rangeKeys: seq<Frag>)
      requires InOrder(slots) && SortedSlots(rank, points, Pick(Points, slots))
      requires SortedSlots(rank, dels, Pick(RangeDels, slots)) && SortedSlots(rank, keys, Pick(RangeKeys, slots))
      requires FragsOf(rank, ends, Numbered(dels, header), tombstones) && FragsOf(rank, ends, Numbered(keys, header), rangeKeys)
      ensures Valid() && seqNum == header && this.rank == rank && this.ends == ends && this.slots == slots
    {
      this.rank, this.ends, this.slots, this.dels, this.keys := rank, ends, slots, dels, keys;
      this.points, this.seqNum, this.tombstones, this.rangeKeys := points, header, tombstones, rangeKeys;
    }

    /** The number a batch gets when it is committed. Setting it twice is a panic. */
    method SetSeqNum(sn: nat)
      requires Valid() && seqNum == 0
      modifies this
      ensures Valid() && seqNum == sn
    {
      hide FragsOf, Numbered, SortedSlots, InOrder;
      var ts := Shift(tombstones, sn);
      var ks := Shift(rangeKeys, sn);
      ShiftIsRenumbering(rank, ends, dels, sn, tombstones, ts);
      ShiftIsRenumbering(rank, ends, keys, sn, rangeKeys, ks);
      seqNum, tombstones, rangeKeys := sn, ts, ks;
    }

    /** The flushable batch looks like a memtable that the batch was applied to at the same
        number: the same points in the same order, if and only if there is no log data;
        and fragments of the memtable's tombstones and of its range keys. */
    lemma LooksLikeMemtable(ps: seq<Point>, ds: seq<Point>, ks: seq<Point>)
      requires Valid() && SortedPoints(rank, ps, MemEntries(Points, slots, seqNum))
      requires SortedPoints(rank, ds, MemEntries(RangeDels, slots, seqNum)) && SortedPoints(rank, ks, MemEntries(RangeKeys, slots, seqNum))
      ensures Numbered(points, seqNum) == ps <==> forall i | 0 <= i < |slots| :: slots[i].r.kind != LOG_DATA
      ensures !Disturbed(RangeDels, slots) ==> FragsOf(rank, ends, ds, tombstones)
      ensures !Disturbed(RangeKeys, slots) ==> FragsOf(rank, ends, ks, rangeKeys)
    {
      hide FragsOf, Numbered, SortedSlots, SortedPoints, MemEntries, Pick, InOrder;
      StreamsAgree(rank, Points, slots, seqNum, points, ps);
      StreamsAgree(rank, RangeDels, slots, seqNum, dels, ds);
      StreamsAgree(rank, RangeKeys, slots, seqNum, keys, ks);
      if i :| 0 <= i < |slots| && slots[i].r.kind == LOG_DATA { assert Disturbed(Points, slots); }
    }
  }

  /** With log data in front, the flushable form gives a record a later number than
      the memtable does. */
  lemma LogDataShiftsNumbers(sn: nat, key: Bytes, note: Bytes) returns (ss: seq<Slot>)
    ensures InOrder(ss) && MemEntries(Points, ss, sn) == [Point(key, sn, DELETE, [])]
    ensures Numbered(Pick(Points, ss), sn) == [Point(note, sn, LOG_DATA, []), Point(key, sn + 1, DELETE, [])]
  {
    var log, del := Slot(HEADER_LEN, 0, Record(LOG_DATA, note, [])), Slot(HEADER_LEN + 1, 1, Record(DELETE, key, []));
    ss := [log, del];
    OneSlot(log, sn);
    assert ss[..1] == [log];
  }

  lemma OneSlot(log: Slot, sn: nat)
    requires log.r.kind == LOG_DATA
    ensures MemEntries(Points, [log], sn) == [] && Taken([log]) == 0 && Pick(Points, [log]) == [log]
  {
    assert [log][..0] == [];
  }
}
