/**
Picking the inputs of a compaction (compaction_picker.go): the files of the start
level, the files of the output level that have a user key in common with them, and
the bounds of both; from a level below L0, from L0, over three levels, within one
level, and by deletion hints. What each way of picking computes is what the
scheduler lets a compaction start with.
*/
module Picking {
  import opened Options
  import opened Lsm
  import opened Compactions
  import DeleteOnly

  /** Files of a level in order. Neighbours may share a user key. */
  predicate LevelSorted(fs: seq<Meta>) {
    && (forall i | 0 <= i < |fs| :: MetaOk(fs[i]))
    && (forall i, j | 0 <= i < j < |fs| :: Less(fs[i].largest, fs[j].smallest))
  }

  predicate StartsBy(f: Meta, hi: IKey) {
    !UserBefore(hi, f.smallest)
  }

  predicate EndsAtOrAfter(f: Meta, lo: IKey) {
    !UserBefore(f.largest, lo)
  }

  /** Version.Overlaps on a level: the files that have a user key within bounds. */
  function Overlaps(fs: seq<Meta>, lo: IKey, hi: IKey): (r: (nat, nat))
    ensures r.0 <= r.1 <= |fs|
  {
    var i := FirstEnding(fs, lo);
    (i, i + CountStarting(fs[i..], hi))
  }

  function FirstEnding(fs: seq<Meta>, lo: IKey): (i: nat)
    ensures i <= |fs| && (forall k | 0 <= k < i :: !EndsAtOrAfter(fs[k], lo)) && (i < |fs| ==> EndsAtOrAfter(fs[i], lo))
  {
    if fs == [] || EndsAtOrAfter(fs[0], lo) then 0 else 1 + FirstEnding(fs[1..], lo)
  }

  function CountStarting(fs: seq<Meta>, hi: IKey): (n: nat)
    ensures n <= |fs| && (forall k | 0 <= k < n :: StartsBy(fs[k], hi)) && (n < |fs| ==> !StartsBy(fs[n], hi))
  {
    if fs == [] || !StartsBy(fs[0], hi) then 0 else 1 + CountStarting(fs[1..], hi)
  }

  /** Files outside a slice have no user key within bounds. */
  predicate Full(fs: seq<Meta>, i: nat, j: nat, lo: IKey, hi: IKey) {
    && i <= j <= |fs|
    && (forall k | 0 <= k < i :: UserBefore(fs[k].largest, lo))
    && (forall k | j <= k < |fs| :: UserBefore(hi, fs[k].smallest))
  }

  lemma OverlapsIsFull(fs: seq<Meta>, lo: IKey, hi: IKey)
    requires LevelSorted(fs)
    ensures Full(fs, Overlaps(fs, lo, hi).0, Overlaps(fs, lo, hi).1, lo, hi)
  {
    hide FirstEnding, CountStarting;
    var i := FirstEnding(fs, lo);
    var j := i + CountStarting(fs[i..], hi);
    forall k | j <= k < |fs| ensures UserBefore(hi, fs[k].smallest) {
      assert !StartsBy(fs[i..][j - i], hi) && fs[i..][j - i] == fs[j];
      if j < k { assert Less(fs[j].largest, fs[k].smallest) && MetaOk(fs[j]); }
    }
  }

  /** The files taken are exactly those with a user key within bounds. */
  lemma OverlapsIsExact(fs: seq<Meta>, lo: IKey, hi: IKey, k: nat)
    requires LevelSorted(fs) && k < |fs| && lo.tail > 0 && !Less(hi, lo)
    ensures var r := Overlaps(fs, lo, hi); r.0 <= k < r.1 <==> !UserBefore(fs[k].largest, lo) && !UserBefore(hi, fs[k].smallest)
  {
    OverlapsIsFull(fs, lo, hi);
    hide FirstEnding, CountStarting;
    var r := Overlaps(fs, lo, hi);
    if r.0 <= k < r.1 {
      assert fs[r.0..][k - r.0] == fs[k] && StartsBy(fs[k], hi);
      assert MetaOk(fs[r.0]) && MetaOk(fs[k]);
      if r.0 < k { assert Less(fs[r.0].largest, fs[k].smallest); }
    }
  }

  /** Neighbours that share a user key belong together. */
  predicate Shares(f: Meta, g: Meta) {
    f.largest.user >= g.smallest.user && f.largest.tail > 0
  }

  /** Neither end of a slice cuts through an atomic compaction unit. */
  predicate CleanCut(fs: seq<Meta>, i: nat, j: nat) {
    && i <= j <= |fs|
    && (0 < i < |fs| ==> !Shares(fs[i - 1], fs[i]))
    && (0 < j < |fs| ==> !Shares(fs[j - 1], fs[j]))
  }

  /** The atomic compaction unit around a slice. */
  function UnitLo(fs: seq<Meta>, i: nat): (r: nat)
    ensures r <= i
  {
    if 0 < i < |fs| && Shares(fs[i - 1], fs[i]) then UnitLo(fs, i - 1) else i
  }

  function UnitHi(fs: seq<Meta>, j: nat): (r: nat)
    ensures j <= r && (j <= |fs| ==> r <= |fs|)
    decreases |fs| - j
  {
    if 0 < j < |fs| && Shares(fs[j - 1], fs[j]) then UnitHi(fs, j + 1) else j
  }

  function Unit(fs: seq<Meta>, i: nat, j: nat): (r: (nat, nat))
    ensures i <= j <= |fs| ==> r.0 <= i && j <= r.1 <= |fs| && (i == j ==> r == (i, j))
  {
    if i == j then (i, j) else (UnitLo(fs, i), UnitHi(fs, j))
  }

  /** A file of a slice is being compacted. */
  predicate SomeBusy(fs: seq<Meta>, i: nat, j: nat, compacting: set<nat>) {
    exists k :: i <= k < j && k < |fs| && fs[k].num in compacting
  }

  lemma SomeBusyMore(fs: seq<Meta>, i: nat, j: nat, compacting: set<nat>)
    requires i < j <= |fs|
    ensures SomeBusy(fs, i, j, compacting) <==> SomeBusy(fs, i + 1, j, compacting) || fs[i].num in compacting
    ensures SomeBusy(fs, i, j, compacting) <==> SomeBusy(fs, i, j - 1, compacting) || fs[j - 1].num in compacting
  {
  }

  /** One of the files that are looked at on the way to the ends of the unit, the ends
      included, is being compacted. Files within the slice are not looked at. */
  predicate UnitBusy(fs: seq<Meta>, i: nat, j: nat, compacting: set<nat>) {
    i < j && (SomeBusy(fs, UnitLo(fs, i), i + 1, compacting) || SomeBusy(fs, j - 1, UnitHi(fs, j), compacting))
  }

  /** expandToAtomicUnit: the least slice around the inputs with clean cuts. The flag is
      raised exactly when a file that was looked at is being compacted. */
  method ExpandToAtomicUnit(fs: seq<Meta>, i0: nat, j0: nat, compacting: set<nat>) returns (i: nat, j: nat, busy: bool)
    requires i0 <= j0 <= |fs|
    ensures (i, j) == Unit(fs, i0, j0) && i <= i0 && j0 <= j <= |fs|
    ensures i0 < j0 ==> CleanCut(fs, i, j)
    ensures forall k | i < k <= i0 && k < |fs| :: Shares(fs[k - 1], fs[k])
    ensures forall k | j0 <= k < j && 0 < k :: Shares(fs[k - 1], fs[k])
    ensures busy <==> UnitBusy(fs, i0, j0, compacting)
    ensures busy ==> exists k :: i <= k < j && fs[k].num in compacting
    ensures !busy && i < j ==> fs[i].num !in compacting && fs[j - 1].num !in compacting
  {
    hide Shares, SomeBusy;
    i, j, busy := i0, j0, false;
    if i0 == j0 { return; }
    NoneBusy(fs, i0 + 1, compacting);
    NoneBusy(fs, j0 - 1, compacting);
    while 0 < i
      invariant i <= i0 && (forall k | i < k <= i0 :: Shares(fs[k - 1], fs[k])) && UnitLo(fs, i) == UnitLo(fs, i0)
      invariant busy <==> SomeBusy(fs, i + 1, i0 + 1, compacting)
      decreases i
    {
      SomeBusyMore(fs, i, i0 + 1, compacting);
      if fs[i].num in compacting { busy := true; }
      if !Shares(fs[i - 1], fs[i]) { break; }
      i := i - 1;
    }
    SomeBusyMore(fs, i, i0 + 1, compacting);
    ghost var left := busy || fs[i].num in compacting;
    while j < |fs|
      invariant j0 <= j <= |fs| && (forall k | j0 <= k < j :: Shares(fs[k - 1], fs[k])) && UnitHi(fs, j) == UnitHi(fs, j0)
      invariant busy || fs[i].num in compacting <==> left || SomeBusy(fs, j0 - 1, j - 1, compacting)
    {
      SomeBusyMore(fs, j0 - 1, j, compacting);
      if fs[j - 1].num in compacting { busy := true; }
      if !Shares(fs[j - 1], fs[j]) { break; }
      j := j + 1;
    }
    SomeBusyMore(fs, j0 - 1, j, compacting);
    busy := busy || fs[i].num in compacting || fs[j - 1].num in compacting;
    BusyWithin(fs, i, i0, j0, j, compacting);
  }

  lemma NoneBusy(fs: seq<Meta>, i: nat, compacting: set<nat>)
    ensures !SomeBusy(fs, i, i, compacting)
  {
  }

  lemma BusyWithin(fs: seq<Meta>, i: nat, i0: nat, j0: nat, j: nat, compacting: set<nat>)
    requires i <= i0 < j0 <= j <= |fs|
    ensures SomeBusy(fs, i, i0 + 1, compacting) || SomeBusy(fs, j0 - 1, j, compacting) ==> exists k :: i <= k < j && fs[k].num in compacting
  {
  }

  /** The slice of a level that is taken for bounds: the unit around what they overlap. */
  function Taken(fs: seq<Meta>, lo: IKey, hi: IKey): (nat, nat) {
    var r := Overlaps(fs, lo, hi);
    Unit(fs, r.0, r.1)
  }

  predicate TakenBusy(fs: seq<Meta>, lo: IKey, hi: IKey, compacting: set<nat>) {
    var r := Overlaps(fs, lo, hi);
    UnitBusy(fs, r.0, r.1, compacting)
  }

  function Min(a: IKey, b: IKey): IKey { if Less(b, a) then b else a }
  function Max(a: IKey, b: IKey): IKey { if Less(a, b) then b else a }

  /** Bounds widened to take in a slice of a level. */
  function Lo(fs: seq<Meta>, i: nat, j: nat, lo: IKey): IKey
    requires i <= j <= |fs|
  {
    if i == j then lo else Min(lo, fs[i].smallest)
  }

  function Hi(fs: seq<Meta>, i: nat, j: nat, hi: IKey): IKey
    requires i <= j <= |fs|
  {
    if i == j then hi else Max(hi, fs[j - 1].largest)
  }

  /** A slice that has all files within bounds still does when it is widened to clean
      cuts and the bounds are widened to take it in. */
  lemma WidenedIsFull(fs: seq<Meta>, i0: nat, j0: nat, i: nat, j: nat, lo: IKey, hi: IKey)
    requires LevelSorted(fs) && Full(fs, i0, j0, lo, hi) && i <= i0 && j0 <= j <= |fs| && (i < j ==> CleanCut(fs, i, j))
    ensures Full(fs, i, j, Lo(fs, i, j, lo), Hi(fs, i, j, hi))
  {
    forall k | 0 <= k < i ensures UserBefore(fs[k].largest, Lo(fs, i, j, lo)) {
      if i < j { BeforeSlice(fs, i, k); }
    }
    forall k | j <= k < |fs| ensures UserBefore(Hi(fs, i, j, hi), fs[k].smallest) {
      if i < j { AfterSlice(fs, j, k); }
    }
  }

  lemma BeforeSlice(fs: seq<Meta>, i: nat, k: nat)
    requires LevelSorted(fs) && k < i < |fs| && !Shares(fs[i - 1], fs[i])
    ensures UserBefore(fs[k].largest, fs[i].smallest)
  {
    if k < i - 1 { assert Less(fs[k].largest, fs[i - 1].smallest) && MetaOk(fs[i - 1]); }
  }

  lemma AfterSlice(fs: seq<Meta>, j: nat, k: nat)
    requires LevelSorted(fs) && 0 < j <= k < |fs| && !Shares(fs[j - 1], fs[j])
    ensures UserBefore(fs[j - 1].largest, fs[k].smallest)
  {
    if j < k { assert Less(fs[j].largest, fs[k].smallest) && MetaOk(fs[j]); }
  }

  // ---------------------------------------------------------------------
  // setupInputs
  // ---------------------------------------------------------------------

  /** Files of a slice lie within bounds. */
  predicate Covered(fs: seq<Meta>, i: nat, j: nat, lo: IKey, hi: IKey) {
    i <= j <= |fs| && forall k | i <= k < j :: !Less(fs[k].smallest, lo) && !Less(hi, fs[k].largest)
  }

  /** A file of a slice has the bound. */
  predicate LoFrom(fs: seq<Meta>, i: nat, j: nat, lo: IKey) {
    exists k :: i <= k < j <= |fs| && fs[k].smallest == lo
  }

  predicate HiFrom(fs: seq<Meta>, i: nat, j: nat, hi: IKey) {
    exists k :: i <= k < j <= |fs| && fs[k].largest == hi
  }

  lemma WidenedCovers(fs: seq<Meta>, i: nat, j: nat, lo: IKey, hi: IKey)
    requires LevelSorted(fs) && i <= j <= |fs|
    ensures Covered(fs, i, j, Lo(fs, i, j, lo), Hi(fs, i, j, hi))
    ensures !Less(lo, Lo(fs, i, j, lo)) && !Less(Hi(fs, i, j, hi), hi)
    ensures Lo(fs, i, j, lo) == lo || LoFrom(fs, i, j, Lo(fs, i, j, lo))
    ensures Hi(fs, i, j, hi) == hi || HiFrom(fs, i, j, Hi(fs, i, j, hi))
  {
    forall k | i <= k < j ensures !Less(fs[k].smallest, Lo(fs, i, j, lo)) && !Less(Hi(fs, i, j, hi), fs[k].largest) {
      assert MetaOk(fs[k]) && MetaOk(fs[i]) && MetaOk(fs[j - 1]);
      if i < k { assert Less(fs[i].largest, fs[k].smallest); }
      if k < j - 1 { assert Less(fs[k].largest, fs[j - 1].smallest); }
    }
  }

  lemma CoveredMore(fs: seq<Meta>, i: nat, j: nat, lo: IKey, hi: IKey, lo': IKey, hi': IKey)
    requires Covered(fs, i, j, lo, hi) && !Less(lo, lo') && !Less(hi', hi)
    ensures Covered(fs, i, j, lo', hi')
  {
  }

  /** The slice of the output level for bounds, and the bounds with it. */
  method PickOutput(out: seq<Meta>, lo0: IKey, hi0: IKey, compacting: set<nat>)
    returns (a: nat, b: nat, lo: IKey, hi: IKey, busy: bool)
    requires LevelSorted(out) && lo0.tail > 0
    ensures a <= b <= |out| && Full(out, a, b, lo, hi) && Covered(out, a, b, lo, hi) && (a < b ==> CleanCut(out, a, b))
    ensures !Less(lo0, lo) && !Less(hi, hi0) && lo.tail > 0
    ensures lo == Lo(out, a, b, lo0) && hi == Hi(out, a, b, hi0)
    ensures (lo == lo0 || LoFrom(out, a, b, lo)) && (hi == hi0 || HiFrom(out, a, b, hi))
    ensures (a, b) == Taken(out, lo0, hi0) && (busy <==> TakenBusy(out, lo0, hi0, compacting))
    ensures busy ==> exists k :: a <= k < b && out[k].num in compacting
    ensures !busy && a < b ==> out[a].num !in compacting && out[b - 1].num !in compacting
  {
    hide LevelSorted, Full, Covered, Less, Overlaps, LoFrom, HiFrom, Lo, Hi;
    var r := Overlaps(out, lo0, hi0);
    OverlapsIsFull(out, lo0, hi0);
    a, b, busy := ExpandToAtomicUnit(out, r.0, r.1, compacting);
    WidenedIsFull(out, r.0, r.1, a, b, lo0, hi0);
    lo, hi := Lo(out, a, b, lo0), Hi(out, a, b, hi0);
    WidenedCovers(out, a, b, lo0, hi0);
    LoTail(out, a, b, lo0);
  }

  lemma LoTail(fs: seq<Meta>, i: nat, j: nat, lo: IKey)
    requires LevelSorted(fs) && i <= j <= |fs| && lo.tail > 0
    ensures Lo(fs, i, j, lo).tail > 0
  {
  }

  /** What setupInputs has put together: slices of the two levels within bounds, with no
      other file of the output level having a user key within them. */
  predicate Setup(start: seq<Meta>, i: nat, j: nat, out: seq<Meta>, a: nat, b: nat, lo: IKey, hi: IKey) {
    && i <= j <= |start| && (i < j ==> CleanCut(start, i, j)) && Covered(start, i, j, lo, hi)
    && a <= b <= |out| && Full(out, a, b, lo, hi) && Covered(out, a, b, lo, hi) && (a < b ==> CleanCut(out, a, b)) && lo.tail > 0
  }

  /** The bounds are those of some input, or the ones that were there before. */
  predicate Ends(start: seq<Meta>, i: nat, j: nat, out: seq<Meta>, a: nat, b: nat, before: Option<(IKey, IKey)>, lo: IKey, hi: IKey) {
    && ((before.Some? && lo == before.value.0) || LoFrom(start, i, j, lo) || LoFrom(out, a, b, lo))
    && ((before.Some? && hi == before.value.1) || HiFrom(start, i, j, hi) || HiFrom(out, a, b, hi))
  }

  /** A slice within bounds is inside the slice that has all files within them. */
  lemma SliceInside(fs: seq<Meta>, i: nat, j: nat, i': nat, j': nat, lo: IKey, hi: IKey)
    requires LevelSorted(fs) && i < j && Covered(fs, i, j, lo, hi) && Full(fs, i', j', lo, hi)
    ensures i' <= i && j <= j'
  {
    assert MetaOk(fs[i]) && MetaOk(fs[j - 1]);
  }

  lemma FullLess(fs: seq<Meta>, i: nat, j: nat, lo: IKey, hi: IKey, lo': IKey, hi': IKey)
    requires Full(fs, i, j, lo, hi) && !Less(lo', lo) && !Less(hi, hi')
    ensures Full(fs, i, j, lo', hi')
  {
  }

  lemma FullBoth(fs: seq<Meta>, i: nat, j: nat, lo: IKey, hi: IKey, lo': IKey, hi': IKey)
    requires Full(fs, i, j, lo, hi) && Full(fs, i, j, lo', hi')
    ensures Full(fs, i, j, Min(lo, lo'), Max(hi, hi'))
  {
  }

  /** Wider slices have all files that narrower ones have. */
  lemma FullWider(fs: seq<Meta>, i: nat, j: nat, i': nat, j': nat, lo: IKey, hi: IKey)
    requires Full(fs, i, j, lo, hi) && i' <= i && j <= j' <= |fs|
    ensures Full(fs, i', j', lo, hi)
  {
  }

  /** More files of the start level are within bounds, they fit, and they take no more
      files of the output level, with nothing in the way. */
  predicate MayGrow(start: seq<Meta>, i0: nat, j0: nat, out: seq<Meta>, a: nat, b: nat, lo: IKey, hi: IKey, compacting: set<nat>, fits: bool) {
    var u := Taken(start, lo, hi);
    && i0 <= j0 && a < b <= |out| && fits && !TakenBusy(start, lo, hi, compacting) && u.0 < u.1 <= |start| && j0 - i0 < u.1 - u.0
    && var lo1, hi1 := Lo(out, a, b, start[u.0].smallest), Hi(out, a, b, start[u.1 - 1].largest);
       var t := Taken(out, lo1, hi1);
       !TakenBusy(out, lo1, hi1, compacting) && t.1 - t.0 == b - a
  }

  /** grow: more files of the start level, exactly if that takes no more files of the
      output level. The bounds do not shrink. What is taken then is all that is within
      the bounds there were. */
  method Grow(start: seq<Meta>, i0: nat, j0: nat, out: seq<Meta>, a: nat, b: nat, lo0: IKey, hi0: IKey, compacting: set<nat>, fits: bool)
    returns (i: nat, j: nat, lo: IKey, hi: IKey)
    requires LevelSorted(start) && LevelSorted(out) && Setup(start, i0, j0, out, a, b, lo0, hi0)
    ensures Setup(start, i, j, out, a, b, lo, hi) && !Less(lo0, lo) && !Less(hi, hi0)
    ensures (i, j) == if MayGrow(start, i0, j0, out, a, b, lo0, hi0, compacting, fits) then Taken(start, lo0, hi0) else (i0, j0)
    ensures (i, j) == (i0, j0) || (Full(start, i, j, lo0, hi0) && (i0 < j0 ==> i <= i0 && j0 <= j) && start[i].num !in compacting && start[j - 1].num !in compacting)
    ensures (lo == lo0 || LoFrom(start, i, j, lo)) && (hi == hi0 || HiFrom(start, i, j, hi))
  {
    hide LevelSorted, Full, Less, Overlaps, CleanCut, Covered, LoFrom, HiFrom, UnitBusy, Unit, Shares;
    i, j, lo, hi := i0, j0, lo0, hi0;
    NotLess(lo0);
    NotLess(hi0);
    if a == b { return; }
    var g := Overlaps(start, lo0, hi0);
    OverlapsIsFull(start, lo0, hi0);
    if i0 < j0 { SliceInside(start, i0, j0, g.0, g.1, lo0, hi0); }
    var i1, j1, busy := ExpandToAtomicUnit(start, g.0, g.1, compacting);
    if busy || j1 - i1 <= j0 - i0 || !fits { return; }
    FullWider(start, g.0, g.1, i1, j1, lo0, hi0);
    var lo1, hi1 := Lo(out, a, b, start[i1].smallest), Hi(out, a, b, start[j1 - 1].largest);
    FileTail(start, i1);
    LoTail(out, a, b, start[i1].smallest);
    var a1, b1, lo2, hi2, busy1 := PickOutput(out, lo1, hi1, compacting);
    if busy1 || b1 - a1 != b - a { return; }
    WidenedCovers(out, a, b, start[i1].smallest, start[j1 - 1].largest);
    CoveredMore(out, a, b, lo1, hi1, lo2, hi2);
    SliceInside(out, a, b, a1, b1, lo2, hi2);
    i, j := i1, j1;
    lo, hi := Lo(start, i, j, lo0), Hi(start, i, j, hi0);
    GrownIsFull(out, a, b, lo0, hi0, start[i].smallest, start[j - 1].largest, lo1, hi1, lo2, hi2);
    WidenedCovers(start, i, j, lo0, hi0);
    CoveredMore(out, a, b, lo0, hi0, lo, hi);
    LoTail(start, i, j, lo0);
  }

  lemma NotLess(k: IKey)
    ensures !Less(k, k)
  {
  }

  lemma FileTail(fs: seq<Meta>, i: nat)
    requires LevelSorted(fs) && i < |fs|
    ensures fs[i].smallest.tail > 0
  {
    assert MetaOk(fs[i]);
  }

  lemma GrownIsFull(out: seq<Meta>, a: nat, b: nat, lo0: IKey, hi0: IKey, lo: IKey, hi: IKey, lo1: IKey, hi1: IKey, lo2: IKey, hi2: IKey)
    requires Full(out, a, b, lo0, hi0) && Full(out, a, b, lo2, hi2) && !Less(lo1, lo2) && !Less(hi2, hi1)
    requires a < b && lo1 == Lo(out, a, b, lo) && hi1 == Hi(out, a, b, hi)
    ensures Full(out, a, b, Min(lo0, lo), Max(hi0, hi))
  {
    FullLess(out, a, b, lo2, hi2, lo, hi);
    FullBoth(out, a, b, lo0, hi0, lo, hi);
  }

  /** The bounds of the unit around the start slice, with those that there were before. */
  function StartLo(start: seq<Meta>, i0: nat, j0: nat, before: Option<(IKey, IKey)>): IKey
    requires i0 <= j0 <= |start| && (before.None? ==> i0 < j0)
  {
    var u := Unit(start, i0, j0);
    Lo(start, u.0, u.1, if before.Some? then before.value.0 else start[u.0].smallest)
  }

  function StartHi(start: seq<Meta>, i0: nat, j0: nat, before: Option<(IKey, IKey)>): IKey
    requires i0 <= j0 <= |start| && (before.None? ==> i0 < j0)
  {
    var u := Unit(start, i0, j0);
    Hi(start, u.0, u.1, if before.Some? then before.value.1 else start[u.1 - 1].largest)
  }

  /** A file that is looked at in the start level, or in the output level within the
      bounds of the start level's unit, is being compacted. */
  predicate SetupBusy(start: seq<Meta>, i0: nat, j0: nat, out: seq<Meta>, before: Option<(IKey, IKey)>, compacting: set<nat>)
    requires i0 <= j0 <= |start| && (before.None? ==> i0 < j0)
  {
    || UnitBusy(start, i0, j0, compacting)
    || TakenBusy(out, StartLo(start, i0, j0, before), StartHi(start, i0, j0, before), compacting)
  }

  /** The slices that a setup ends with: what the unit's bounds take of the output level,
      and the unit, or what those bounds take of the start level if that may be. */
  ghost predicate SlicesOf(start: seq<Meta>, i0: nat, j0: nat, out: seq<Meta>, before: Option<(IKey, IKey)>, compacting: set<nat>, fits: bool,
                           i: nat, j: nat, a: nat, b: nat)
    requires i0 <= j0 <= |start| && (before.None? ==> i0 < j0)
  {
    var lo, hi, u := StartLo(start, i0, j0, before), StartHi(start, i0, j0, before), Unit(start, i0, j0);
    && (a, b) == Taken(out, lo, hi) && a <= b <= |out|
    && var lo1, hi1 := Lo(out, a, b, lo), Hi(out, a, b, hi);
       (i, j) == if MayGrow(start, u.0, u.1, out, a, b, lo1, hi1, compacting, fits) then Taken(start, lo1, hi1) else u
  }

  /** setupInputs for a start level below L0. When it adds a level to a compaction, there
      are bounds before, and the slice, which may then be empty, is the output slice so
      far. If it succeeds, the slices are taken with clean cuts, all inputs are within
      the bounds, and the output slice has every file of the output level that has a
      user key within the bounds. It fails exactly when a file that it looks at is being
      compacted, and then i..j and a..b are the slices in which that file is. */
  method SetupInputs(start: seq<Meta>, i0: nat, j0: nat, out: seq<Meta>, before: Option<(IKey, IKey)>, compacting: set<nat>, fits: bool)
    returns (ok: bool, i: nat, j: nat, a: nat, b: nat, lo: IKey, hi: IKey)
    requires LevelSorted(start) && LevelSorted(out) && i0 <= j0 <= |start|
    requires if before.Some? then before.value.0.tail > 0 else i0 < j0
    ensures i <= j <= |start| && a <= b <= |out| && (ok <==> !SetupBusy(start, i0, j0, out, before, compacting))
    ensures !ok ==> exists f :: f in start[i..j] + out[a..b] && f.num in compacting
    ensures ok ==> SlicesOf(start, i0, j0, out, before, compacting, fits, i, j, a, b)
    ensures ok && i < j ==> start[i].num !in compacting && start[j - 1].num !in compacting
    ensures ok && a < b ==> out[a].num !in compacting && out[b - 1].num !in compacting
    ensures ok ==> Setup(start, i, j, out, a, b, lo, hi) && Ends(start, i, j, out, a, b, before, lo, hi) && (i0 < j0 ==> i <= i0 && j0 <= j)
    ensures ok && before.Some? ==> !Less(before.value.0, lo) && !Less(hi, before.value.1)
    ensures ok && before.Some? && Full(start, i0, j0, before.value.0, before.value.1) ==> Full(start, i, j, before.value.0, before.value.1)
  {
    hide LevelSorted, Full, Less, Overlaps, CleanCut, Covered, LoFrom, HiFrom, UnitBusy, Unit, Shares, Lo, Hi, MayGrow, Taken, TakenBusy;
    var busy: bool;
    a, b := 0, 0;
    i, j, busy := ExpandToAtomicUnit(start, i0, j0, compacting);
    lo, hi := if before.Some? then before.value.0 else start[i].smallest, if before.Some? then before.value.1 else start[j - 1].largest;
    if busy {
      ok := false;
      BusyIn(start, i, j, out, a, b, compacting);
      return;
    }
    ghost var lo0, hi0 := lo, hi;
    if i < j { FileTail(start, i); }
    WidenedCovers(start, i, j, lo, hi);
    LoTail(start, i, j, lo);
    lo, hi := Lo(start, i, j, lo), Hi(start, i, j, hi);
    var lo1, hi1 := lo, hi;
    a, b, lo, hi, busy := PickOutput(out, lo1, hi1, compacting);
    if busy {
      ok := false;
      BusyIn(start, i, j, out, a, b, compacting);
      return;
    }
    CoveredMore(start, i, j, lo1, hi1, lo, hi);
    var i2, j2, lo2, hi2 := i, j, lo, hi;
    i, j, lo, hi := Grow(start, i2, j2, out, a, b, lo2, hi2, compacting, fits);
    ok := true;
    Further(lo0, hi0, lo1, hi1, lo2, hi2);
    Further(lo0, hi0, lo2, hi2, lo, hi);
    EndsGrown(start, i2, j2, i, j, out, a, b, lo0, hi0, lo1, hi1, lo2, hi2, lo, hi, before);
    if before.Some? && Full(start, i0, j0, lo0, hi0) {
      FullWider(start, i0, j0, i2, j2, lo0, hi0);
      if (i, j) != (i2, j2) { FullLess(start, i, j, lo2, hi2, lo0, hi0); }
    }
  }

  lemma BusyIn(start: seq<Meta>, i: nat, j: nat, out: seq<Meta>, a: nat, b: nat, compacting: set<nat>)
    requires i <= j <= |start| && a <= b <= |out|
    requires (exists k :: i <= k < j && start[k].num in compacting) || exists k :: a <= k < b && out[k].num in compacting
    ensures exists f :: f in start[i..j] + out[a..b] && f.num in compacting
  {
    var all := start[i..j] + out[a..b];
    if k :| i <= k < j && start[k].num in compacting {
      assert all[k - i] == start[k];
    } else {
      var k :| a <= k < b && out[k].num in compacting;
      assert all[j - i + k - a] == out[k];
    }
  }

  lemma Further(lo: IKey, hi: IKey, lo1: IKey, hi1: IKey, lo2: IKey, hi2: IKey)
    requires !Less(lo, lo1) && !Less(hi1, hi) && !Less(lo1, lo2) && !Less(hi2, hi1)
    ensures !Less(lo, lo2) && !Less(hi2, hi)
  {
  }

  lemma FromWider(fs: seq<Meta>, i: nat, j: nat, i': nat, j': nat, lo: IKey, hi: IKey)
    requires i' <= i <= j <= j' <= |fs| || i == j
    ensures (LoFrom(fs, i, j, lo) ==> LoFrom(fs, i', j', lo)) && (HiFrom(fs, i, j, hi) ==> HiFrom(fs, i', j', hi))
  {
  }

  /** Where the bounds come from, step by step. */
  lemma EndsGrown(start: seq<Meta>, i2: nat, j2: nat, i: nat, j: nat, out: seq<Meta>, a: nat, b: nat,
                  lo0: IKey, hi0: IKey, lo1: IKey, hi1: IKey, lo2: IKey, hi2: IKey, lo: IKey, hi: IKey, before: Option<(IKey, IKey)>)
    requires i2 <= j2 <= |start| && i <= j <= |start| && (i2 < j2 ==> i <= i2 && j2 <= j)
    requires if before.Some? then lo0 == before.value.0 && hi0 == before.value.1
             else i2 < j2 && lo0 == start[i2].smallest && hi0 == start[j2 - 1].largest
    requires (lo1 == lo0 || LoFrom(start, i2, j2, lo1)) && (hi1 == hi0 || HiFrom(start, i2, j2, hi1))
    requires (lo2 == lo1 || LoFrom(out, a, b, lo2)) && (hi2 == hi1 || HiFrom(out, a, b, hi2))
    requires (lo == lo2 || LoFrom(start, i, j, lo)) && (hi == hi2 || HiFrom(start, i, j, hi))
    ensures Ends(start, i, j, out, a, b, before, lo, hi)
  {
    hide LoFrom, HiFrom;
    FromWider(start, i2, j2, i, j, lo1, hi1);
    if before.None? { OwnEnds(start, i2, j2); FromWider(start, i2, j2, i, j, lo0, hi0); }
  }

  lemma OwnEnds(fs: seq<Meta>, i: nat, j: nat)
    requires i < j <= |fs|
    ensures LoFrom(fs, i, j, fs[i].smallest) && HiFrom(fs, i, j, fs[j - 1].largest)
  {
  }

  // ---------------------------------------------------------------------
  // setupInputs from L0
  // ---------------------------------------------------------------------

  /** The files of L0 whose bits are set. */
  function Included(l0: seq<Meta>, bits: seq<bool>): (fs: seq<Meta>)
    requires |l0| == |bits|
    ensures forall f :: f in fs <==> exists k :: 0 <= k < |l0| && bits[k] && l0[k] == f
  {
    if l0 == [] then []
    else
      var n := |l0| - 1;
      var fs := Included(l0[..n], bits[..n]);
      assert forall k | 0 <= k < n :: l0[..n][k] == l0[k] && bits[..n][k] == bits[k];
      if bits[n] then fs + [l0[n]] else fs
  }

  /** Files with different numbers are included once. */
  lemma {:induction false} IncludedOnce(l0: seq<Meta>, bits: seq<bool>)
    requires |l0| == |bits| && DeleteOnly.Once(l0)
    ensures DeleteOnly.Once(Included(l0, bits))
  {
    if l0 != [] {
      var n := |l0| - 1;
      IncludedOnce(l0[..n], bits[..n]);
      var fs := Included(l0[..n], bits[..n]);
      assert Included(l0, bits) == if bits[n] then fs + [l0[n]] else fs;
      assert forall i | 0 <= i < |fs| :: fs[i] in fs;
      forall f | f in fs ensures f != l0[n] {
        var k :| 0 <= k < n && bits[..n][k] && l0[..n][k] == f;
        assert l0[k] != l0[n];
      }
    }
  }

  /** newPickedCompactionFromL0 goes over the files of L0 for those included. */
  method Collect(l0: seq<Meta>, bits: seq<bool>) returns (fs: seq<Meta>)
    requires |l0| == |bits|
    ensures fs == Included(l0, bits)
  {
    fs := [];
    for k := 0 to |l0|
      invariant fs == Included(l0[..k], bits[..k])
    {
      assert l0[..k + 1][..k] == l0[..k] && bits[..k + 1][..k] == bits[..k];
      if bits[k] { fs := fs + [l0[k]]; }
    }
    assert l0[..|l0|] == l0 && bits[..|bits|] == bits;
  }

  /** Bounds of files, in any order. */
  predicate Hull(fs: seq<Meta>, lo: IKey, hi: IKey) {
    && (forall f | f in fs :: !Less(f.smallest, lo) && !Less(hi, f.largest))
    && (exists f :: f in fs && f.smallest == lo) && (exists f :: f in fs && f.largest == hi)
  }

  /** manifest.KeyRange. */
  method KeyRange(fs: seq<Meta>) returns (lo: IKey, hi: IKey)
    requires fs != []
    ensures Hull(fs, lo, hi)
  {
    lo, hi := fs[0].smallest, fs[0].largest;
    for k := 1 to |fs|
      invariant Hull(fs[..k], lo, hi)
    {
      ghost var was := fs[..k];
      assert fs[..k + 1] == was + [fs[k]];
      ghost var f, g :| f in was && f.smallest == lo && g in was && g.largest == hi;
      assert f in fs[..k + 1] && g in fs[..k + 1] && fs[k] in fs[..k + 1];
      lo, hi := Min(lo, fs[k].smallest), Max(hi, fs[k].largest);
    }
    assert fs[..|fs|] == fs;
  }

  lemma HullHas(fs: seq<Meta>, lo: IKey, hi: IKey)
    requires Hull(fs, lo, hi)
    ensures (forall f | f in fs :: !Less(f.smallest, lo) && !Less(hi, f.largest))
    ensures (exists f :: f in fs && f.smallest == lo) && (exists f :: f in fs && f.largest == hi)
    ensures (forall f | f in fs :: MetaOk(f)) ==> lo.tail > 0
  {
  }

  lemma OneHull(fs: seq<Meta>, lo: IKey, hi: IKey, lo': IKey, hi': IKey)
    requires Hull(fs, lo, hi) && Hull(fs, lo', hi')
    ensures lo == lo' && hi == hi'
  {
  }

  /** A file of L0 at either end of the list, or one that is looked at in the output level
      within the bounds of the list, is being compacted. */
  ghost predicate BaseBusy(fs: seq<Meta>, out: seq<Meta>, compacting: set<nat>) {
    UnitBusy(fs, 0, |fs|, compacting) || exists l, h :: Hull(fs, l, h) && TakenBusy(out, l, h, compacting)
  }

  /** What setupInputs has put together from files of L0. */
  predicate SetupFromL0(fs: seq<Meta>, out: seq<Meta>, a: nat, b: nat, lo: IKey, hi: IKey) {
    && fs != [] && a <= b <= |out| && (forall f | f in fs :: !Less(f.smallest, lo) && !Less(hi, f.largest))
    && Full(out, a, b, lo, hi) && Covered(out, a, b, lo, hi) && (a < b ==> CleanCut(out, a, b)) && lo.tail > 0
    && ((exists f :: f in fs && f.smallest == lo) || LoFrom(out, a, b, lo))
    && ((exists f :: f in fs && f.largest == hi) || HiFrom(out, a, b, hi))
  }

  /** setupInputs from L0, up to the point where it looks for more files of L0. If it
      fails, the caller for the base level goes on regardless, but then some input is
      being compacted, and the gate will refuse. */
  method SetupBase(fs: seq<Meta>, out: seq<Meta>, compacting: set<nat>) returns (ok: bool, a: nat, b: nat, lo: IKey, hi: IKey)
    requires fs != [] && (forall f | f in fs :: MetaOk(f)) && LevelSorted(out)
    ensures a <= b <= |out| && (ok ==> SetupFromL0(fs, out, a, b, lo, hi))
    ensures ok <==> !BaseBusy(fs, out, compacting)
    ensures !ok ==> exists f :: f in fs + out[a..b] && f.num in compacting
  {
    hide LevelSorted, Full, Less, CleanCut, Covered, LoFrom, HiFrom, UnitBusy, Unit, Overlaps, Shares, Taken, TakenBusy, Hull;
    var i, j, busy := ExpandToAtomicUnit(fs, 0, |fs|, compacting);
    a, b := 0, 0;
    lo, hi := KeyRange(fs);
    HullHas(fs, lo, hi);
    forall l, h | Hull(fs, l, h) ensures l == lo && h == hi { OneHull(fs, l, h, lo, hi); }
    ok := !busy;
    if busy {
      ghost var k :| i <= k < j && fs[k].num in compacting;
      assert fs[k] in fs + out[a..b];
      return;
    }
    var lo0, hi0 := lo, hi;
    a, b, lo, hi, busy := PickOutput(out, lo0, hi0, compacting);
    ok := !busy;
    if busy {
      ghost var k :| a <= k < b && out[k].num in compacting;
      assert out[k] == out[a..b][k - a];
      assert out[k] in fs + out[a..b];
      return;
    }
    forall f | f in fs ensures !Less(f.smallest, lo) && !Less(hi, f.largest) { Further(f.smallest, f.largest, lo0, hi0, lo, hi); }
  }

  function KeyBefore(out: seq<Meta>, a: nat): Option<IKey>
    requires a <= |out|
  {
    if a > 0 then Some(out[a - 1].largest) else None
  }

  /** Where files of the output level go on: after the slice or, when that is empty, with
      the first file that does not end before hi. */
  predicate KeyAfter(out: seq<Meta>, a: nat, b: nat, hi: IKey, la: Option<IKey>)
    requires a <= b <= |out|
  {
    if a < b then
      la == if b < |out| then Some(out[b].smallest) else None
    else if la.None? then
      forall k | 0 <= k < |out| :: out[k].largest.user < hi.user
    else
      exists n :: 0 <= n < |out| && FirstFrom(out, hi, n) && la.value == out[n].smallest
  }

  predicate FirstFrom(out: seq<Meta>, hi: IKey, n: nat)
    requires n < |out|
  {
    hi.user <= out[n].largest.user && forall k | 0 <= k < n :: out[k].largest.user < hi.user
  }

  /** The keys next to the output slice, which L0 files may not touch. */
  method Neighbours(out: seq<Meta>, a: nat, b: nat, lo: IKey, hi: IKey) returns (sm: Option<IKey>, la: Option<IKey>)
    requires LevelSorted(out) && a <= b <= |out| && Full(out, a, b, lo, hi) && !Less(hi, lo)
    ensures sm == KeyBefore(out, a) && KeyAfter(out, a, b, hi, la)
    ensures b < |out| ==> la.Some? && !Less(out[b].smallest, la.value)
  {
    sm, la := None, None;
    if a == b {
      var k := 0;
      while k < |out| && out[k].smallest.user < lo.user
        invariant k <= |out| && forall n | 0 <= n < k :: out[n].smallest.user < lo.user
      { k := k + 1; }
      SeekLTFinds(out, a, k, lo, hi);
      if k > 0 { sm := Some(out[k - 1].largest); }
      var n := 0;
      while n < |out| && out[n].largest.user < hi.user
        invariant n <= |out| && forall m | 0 <= m < n :: out[m].largest.user < hi.user
      { n := n + 1; }
      SeekGEFinds(out, a, n, lo, hi);
      if n < |out| {
        la := Some(out[n].smallest);
        assert FirstFrom(out, hi, n);
      }
    } else {
      if a > 0 { sm := Some(out[a - 1].largest); }
      if b < |out| { la := Some(out[b].smallest); }
    }
  }

  /** The last file that starts before the bounds is the last one before the empty slice. */
  lemma SeekLTFinds(out: seq<Meta>, a: nat, k: nat, lo: IKey, hi: IKey)
    requires LevelSorted(out) && Full(out, a, a, lo, hi) && !Less(hi, lo) && k <= |out|
    requires (forall n | 0 <= n < k :: out[n].smallest.user < lo.user) && (k < |out| ==> out[k].smallest.user >= lo.user)
    ensures k == a
  {
    assert (k < |out| ==> MetaOk(out[k])) && (a < |out| ==> UserBefore(hi, out[a].smallest));
  }

  /** The first file that does not end before the bounds is not after the empty slice. */
  lemma SeekGEFinds(out: seq<Meta>, a: nat, n: nat, lo: IKey, hi: IKey)
    requires LevelSorted(out) && Full(out, a, a, lo, hi) && !Less(hi, lo) && n <= |out|
    requires (forall m | 0 <= m < n :: out[m].largest.user < hi.user) && (n < |out| ==> out[n].largest.user >= hi.user)
    ensures n <= a && (a < |out| ==> n < |out| && !Less(out[a].smallest, out[n].smallest))
  {
    assert a < |out| ==> UserBefore(hi, out[a].smallest) && MetaOk(out[a]);
    if n < a && a < |out| { assert Less(out[n].largest, out[a].smallest) && MetaOk(out[n]); }
  }

  /** What ExtendL0ForBaseCompactionTo promises: files that it adds do not touch the keys. */
  predicate Extends(fs: seq<Meta>, more: seq<Meta>, sm: Option<IKey>, la: Option<IKey>) {
    forall g | g in more && g !in fs :: (sm.Some? ==> UserBefore(sm.value, g.smallest)) && (la.Some? ==> UserBefore(g.largest, la.value))
  }

  /** More files of L0 for a compaction into the base level, as L0Sublevels gives them. */
  method ExtendBase(fs: seq<Meta>, more: seq<Meta>, out: seq<Meta>, a: nat, b: nat, lo0: IKey, hi0: IKey, ghost sm: Option<IKey>, ghost la: Option<IKey>)
    returns (lo: IKey, hi: IKey)
    requires LevelSorted(out) && SetupFromL0(fs, out, a, b, lo0, hi0) && more != [] && (forall f | f in more :: MetaOk(f))
    requires a > 0 ==> sm == Some(out[a - 1].largest)
    requires b < |out| ==> la.Some? && !Less(out[b].smallest, la.value)
    requires Extends(fs, more, sm, la)
    ensures SetupFromL0(more, out, a, b, lo, hi)
  {
    hide Less, CleanCut, LoFrom, HiFrom, LevelSorted, Full, Covered;
    lo, hi := KeyRange(more + out[a..b]);
    HullOfBoth(more, out, a, b, lo, hi);
    ExtendedIsFull(fs, more, out, a, b, lo0, hi0, sm, la, lo, hi);
  }

  lemma HullOfBoth(fs: seq<Meta>, out: seq<Meta>, a: nat, b: nat, lo: IKey, hi: IKey)
    requires a <= b <= |out| && Hull(fs + out[a..b], lo, hi) && LevelSorted(out) && forall f | f in fs :: MetaOk(f)
    ensures (forall f | f in fs :: !Less(f.smallest, lo) && !Less(hi, f.largest)) && Covered(out, a, b, lo, hi) && lo.tail > 0
    ensures (exists f :: f in fs && f.smallest == lo) || LoFrom(out, a, b, lo)
    ensures (exists f :: f in fs && f.largest == hi) || HiFrom(out, a, b, hi)
  {
    hide Less;
    var all := fs + out[a..b];
    forall k | a <= k < b ensures out[k] in all { assert out[k] == out[a..b][k - a]; }
    var f :| f in all && f.smallest == lo;
    if f !in fs { var k :| 0 <= k < b - a && out[a..b][k] == f; assert out[a + k] == f; }
    var g :| g in all && g.largest == hi;
    if g !in fs { var k :| 0 <= k < b - a && out[a..b][k] == g; assert out[a + k] == g; }
    assert MetaOk(f);
  }

  lemma ExtendedIsFull(fs: seq<Meta>, more: seq<Meta>, out: seq<Meta>, a: nat, b: nat, lo0: IKey, hi0: IKey,
                       sm: Option<IKey>, la: Option<IKey>, lo: IKey, hi: IKey)
    requires LevelSorted(out) && SetupFromL0(fs, out, a, b, lo0, hi0) && Extends(fs, more, sm, la)
    requires a > 0 ==> sm == Some(out[a - 1].largest)
    requires b < |out| ==> la.Some? && !Less(out[b].smallest, la.value)
    requires (exists f :: f in more && f.smallest == lo) || LoFrom(out, a, b, lo)
    requires (exists f :: f in more && f.largest == hi) || HiFrom(out, a, b, hi)
    ensures Full(out, a, b, lo, hi)
  {
    hide Covered, CleanCut;
    forall k | 0 <= k < a ensures UserBefore(out[k].largest, lo) {
      if k < a - 1 { assert Less(out[k].largest, out[a - 1].smallest) && MetaOk(out[a - 1]); }
      if f :| f in more && f.smallest == lo { assert f in fs ==> !Less(lo, lo0); }
      else { SliceLo(out, a, b, lo, k, lo0, hi0); }
    }
    forall k | b <= k < |out| ensures UserBefore(hi, out[k].smallest) {
      if b < k { assert Less(out[b].largest, out[k].smallest) && MetaOk(out[b]); }
      if f :| f in more && f.largest == hi { assert f in fs ==> !Less(hi0, hi); }
      else { SliceHi(out, a, b, hi, k, lo0, hi0); }
    }
  }

  lemma SliceLo(out: seq<Meta>, a: nat, b: nat, lo: IKey, k: nat, lo0: IKey, hi0: IKey)
    requires LevelSorted(out) && LoFrom(out, a, b, lo) && Full(out, a, b, lo0, hi0) && Covered(out, a, b, lo0, hi0) && k < a
    ensures UserBefore(out[k].largest, lo)
  {
  }

  lemma SliceHi(out: seq<Meta>, a: nat, b: nat, hi: IKey, k: nat, lo0: IKey, hi0: IKey)
    requires LevelSorted(out) && HiFrom(out, a, b, hi) && Full(out, a, b, lo0, hi0) && Covered(out, a, b, lo0, hi0) && b <= k < |out|
    ensures UserBefore(hi, out[k].smallest)
  {
  }

  /** More files of L0 fit, and take no more files of the output level, with nothing in
      the way. */
  ghost predicate MayGrowBase(fs: seq<Meta>, more: seq<Meta>, out: seq<Meta>, a: nat, b: nat, compacting: set<nat>, fits: bool) {
    && a < b <= |out| && fits && |fs| < |more| && !UnitBusy(more, 0, |more|, compacting)
    && forall l, h | Hull(more + out[a..b], l, h) :: !TakenBusy(out, l, h, compacting) && Taken(out, l, h).1 - Taken(out, l, h).0 == b - a
  }

  /** More files of L0 for a manual or a read compaction: all that overlap, exactly if that
      takes no more files of the output level. */
  method GrowBase(fs: seq<Meta>, more: seq<Meta>, out: seq<Meta>, a: nat, b: nat, lo0: IKey, hi0: IKey, compacting: set<nat>, fits: bool)
    returns (grown: bool, lo: IKey, hi: IKey)
    requires LevelSorted(out) && SetupFromL0(fs, out, a, b, lo0, hi0) && (forall f | f in more :: MetaOk(f)) && (forall f | f in fs :: f in more)
    ensures SetupFromL0(if grown then more else fs, out, a, b, lo, hi)
    ensures grown <==> MayGrowBase(fs, more, out, a, b, compacting, fits)
  {
    hide Less, CleanCut, LoFrom, HiFrom, LevelSorted, Full, Covered, UnitBusy, Unit, Overlaps, Shares, Taken, TakenBusy;
    grown, lo, hi := false, lo0, hi0;
    if a == b || more == [] { return; }
    var i, j, busy := ExpandToAtomicUnit(more, 0, |more|, compacting);
    if busy || |more| <= |fs| || !fits { return; }
    var lo1, hi1 := KeyRange(more + out[a..b]);
    HullOfBoth(more, out, a, b, lo1, hi1);
    var a1, b1, lo2, hi2, busy1 := PickOutput(out, lo1, hi1, compacting);
    forall l, h | Hull(more + out[a..b], l, h) ensures l == lo1 && h == hi1 { OneHull(more + out[a..b], l, h, lo1, hi1); }
    if busy1 || b1 - a1 != b - a { return; }
    CoveredMore(out, a, b, lo1, hi1, lo2, hi2);
    SliceInside(out, a, b, a1, b1, lo2, hi2);
    FullLess(out, a, b, lo2, hi2, lo1, hi1);
    grown, lo, hi := true, Min(lo0, lo1), Max(hi0, hi1);
    HullWider(fs, more, out, a, b, lo0, hi0, lo1, hi1);
  }

  /** The bounds there were are no wider. */
  lemma HullWider(fs: seq<Meta>, more: seq<Meta>, out: seq<Meta>, a: nat, b: nat, lo0: IKey, hi0: IKey, lo1: IKey, hi1: IKey)
    requires SetupFromL0(fs, out, a, b, lo0, hi0) && Hull(more + out[a..b], lo1, hi1) && forall f | f in fs :: f in more
    ensures Min(lo0, lo1) == lo1 && Max(hi0, hi1) == hi1
  {
    hide Full, CleanCut, Covered;
    var all := more + out[a..b];
    forall k | a <= k < b ensures out[k] in all { assert out[k] == out[a..b][k - a]; }
    assert !Less(lo0, lo1) && !Less(hi1, hi0);
  }

  // ---------------------------------------------------------------------
  // The ways to a compaction
  // ---------------------------------------------------------------------

  /** How the inputs of a compaction were come by. */
  datatype Path =
    | FromLevel(from: nat, start: seq<Meta>, i: nat, j: nat, to: nat, out: seq<Meta>, a: nat, b: nat)
    | FromL0(l0: seq<Meta>, bits: seq<bool>, to: nat, out: seq<Meta>, a: nat, b: nat)
    // two levels as above, within bounds, and the level below: slice i..j of the middle one
    | MultiLevel(first: Path, lo: IKey, hi: IKey, i: nat, j: nat, to: nat, out: seq<Meta>, a: nat, b: nat)
    | IntraL0(l0: seq<Meta>, bits: seq<bool>)
    | InPlace(level: nat, fs: seq<Meta>, i: nat, j: nat)           // elision-only and rewrite compactions
    | ByHints(levels: seq<nat>, inputs: seq<seq<Meta>>)            // delete-only compactions

  function Slice(fs: seq<Meta>, i: nat, j: nat): seq<Meta> { if i <= j <= |fs| then fs[i..j] else [] }

  function Chosen(l0: seq<Meta>, bits: seq<bool>): seq<Meta> { if |l0| == |bits| then Included(l0, bits) else [] }

  function InputsOf(p: Path): seq<seq<Meta>> {
    match p
    case FromLevel(_, start, i, j, _, out, a, b) => [Slice(start, i, j), Slice(out, a, b)]
    case FromL0(l0, bits, _, out, a, b) => [Chosen(l0, bits), Slice(out, a, b)]
    case MultiLevel(first, _, _, i, j, _, out, a, b) =>
      if first.FromLevel? then [Slice(first.start, first.i, first.j), Slice(first.out, i, j), Slice(out, a, b)]
      else if first.FromL0? then [Chosen(first.l0, first.bits), Slice(first.out, i, j), Slice(out, a, b)]
      else []
    case IntraL0(l0, bits) => [Chosen(l0, bits), []]
    case InPlace(_, fs, i, j) => [Slice(fs, i, j), []]
    case ByHints(_, inputs) => inputs
  }

  function LevelsOf(p: Path): seq<nat> {
    match p
    case FromLevel(from, _, _, _, to, _, _, _) => [from, to]
    case FromL0(_, _, to, _, _, _) => [0, to]
    case MultiLevel(first, _, _, _, _, to, _, _, _) =>
      if first.FromLevel? then [first.from, first.to, to] else if first.FromL0? then [0, first.to, to] else []
    case IntraL0(_, _) => [0, 0]
    case InPlace(level, _, _, _) => [level, level]
    case ByHints(levels, _) => levels
  }

  function OutputOf(p: Path): Option<nat> {
    match p
    case FromLevel(_, _, _, _, to, _, _, _) => Some(to)
    case FromL0(_, _, to, _, _, _) => Some(to)
    case MultiLevel(_, _, _, _, _, to, _, _, _) => Some(to)
    case IntraL0(_, _) => Some(0)
    case InPlace(level, _, _, _) => Some(level)
    case ByHints(_, _) => None
  }

  /** A level of the version, each file listed once; in order below L0. */
  ghost predicate Lists(s: State, level: nat, fs: seq<Meta>) {
    && (level > 0 ==> LevelSorted(fs)) && DeleteOnly.Once(fs)
    && (forall f :: f in fs <==> f in s.version && s.version[f] == level)
  }

  function Concat(inputs: seq<seq<Meta>>): seq<Meta> {
    if inputs == [] then [] else inputs[0] + Concat(inputs[1..])
  }

  /** What the pickers compute. */
  ghost predicate PathOk(s: State, p: Path, lo: IKey, hi: IKey)
    decreases p
  {
    match p
    case FromLevel(from, start, i, j, to, out, a, b) =>
      && 0 < from && to == from + 1 && Lists(s, from, start) && Lists(s, to, out)
      && i < j && Setup(start, i, j, out, a, b, lo, hi) && Ends(start, i, j, out, a, b, None, lo, hi)
    case FromL0(l0, bits, to, out, a, b) =>
      && 0 < to && |l0| == |bits| && Lists(s, 0, l0) && Lists(s, to, out) && SetupFromL0(Included(l0, bits), out, a, b, lo, hi)
    case MultiLevel(first, lo1, hi1, i, j, to, out, a, b) =>
      && (first.FromLevel? || first.FromL0?) && PathOk(s, first, lo1, hi1) && to == first.to + 1 && Lists(s, to, out)
      && Setup(first.out, i, j, out, a, b, lo, hi) && Ends(first.out, i, j, out, a, b, Some((lo1, hi1)), lo, hi)
      && Full(first.out, i, j, lo1, hi1) && !Less(lo1, lo) && !Less(hi, hi1) && (first.a < first.b ==> i <= first.a && first.b <= j)
    case IntraL0(l0, bits) =>
      |l0| == |bits| && Lists(s, 0, l0) && |Included(l0, bits)| >= 2 && Hull(Included(l0, bits), lo, hi)
    case InPlace(level, fs, i, j) =>
      Lists(s, level, fs) && i < j <= |fs| && (if level > 0 then CleanCut(fs, i, j) else j == i + 1) && Hull(fs[i..j], lo, hi)
    case ByHints(levels, inputs) =>
      && |levels| == |inputs| && (forall k, l | 0 <= k < l < |levels| :: levels[k] < levels[l]) && Hull(Concat(inputs), lo, hi)
      && (forall k | 0 <= k < |inputs| :: DeleteOnly.Once(inputs[k]) && LetGo(s, levels[k], inputs[k]))
  }

  /** Files of a level that are not being compacted. */
  predicate LetGo(s: State, level: nat, fs: seq<Meta>) {
    forall f | f in fs :: f in s.version && s.version[f] == level && !MarkOf(s, f.num).Compacting?
  }

  /** newCompaction makes a move of a compaction with one file and nothing to merge it with. */
  predicate CanMove(p: Path) {
    (p.FromLevel? || p.FromL0? || p.MultiLevel?) && |InputsOf(p)| > 0 && |InputsOf(p)[0]| == 1 && forall l | 0 < l < |InputsOf(p)| :: InputsOf(p)[l] == []
  }

  /** A compaction that is about to start: the picker's inputs and bounds and, unless it
      comes from hints, the gate's consent. */
  ghost predicate PickOk(s: State, p: Path, c: Compaction) {
    && c.inputs == InputsOf(p) && c.levels == LevelsOf(p) && c.output == OutputOf(p) && !c.applied && !c.cancelled
    && PathOk(s, p, c.smallest, c.largest) && (c.move ==> CanMove(p)) && (p.ByHints? || !Conflict(s, c))
  }

  // ---------------------------------------------------------------------
  // What the scheduler relies on
  // ---------------------------------------------------------------------

  /** Files of a level, each once. */
  predicate Part(s: State, level: nat, fs: seq<Meta>) {
    DeleteOnly.Once(fs) && forall f | f in fs :: f in s.version && s.version[f] == level
  }

  lemma SlicePart(s: State, level: nat, fs: seq<Meta>, i: nat, j: nat)
    requires Lists(s, level, fs)
    ensures Part(s, level, Slice(fs, i, j))
  {
    hide LevelSorted;
    var r := Slice(fs, i, j);
    forall k | 0 <= k < |r| ensures r[k] in fs && r[k] == fs[i + k] { }
  }

  lemma ChosenPart(s: State, l0: seq<Meta>, bits: seq<bool>)
    requires Lists(s, 0, l0)
    ensures Part(s, 0, Chosen(l0, bits))
  {
    if |l0| == |bits| {
      IncludedOnce(l0, bits);
      forall f | f in Included(l0, bits) ensures f in l0 { }
    }
  }

  /** Inputs are files of the version, each list within its level, and no level is listed
      twice unless there is nothing in the second list. */
  ghost predicate Parts(s: State, levels: seq<nat>, inputs: seq<seq<Meta>>) {
    && |levels| == |inputs| && (forall l | 0 <= l < |inputs| :: Part(s, levels[l], inputs[l]))
    && (forall l, m | 0 <= l < m < |inputs| :: levels[l] != levels[m] || inputs[m] == [])
  }

  lemma PathParts(s: State, p: Path, lo: IKey, hi: IKey)
    requires PathOk(s, p, lo, hi)
    ensures Parts(s, LevelsOf(p), InputsOf(p))
  {
    hide Setup, SetupFromL0, Ends, Full, Hull, CleanCut, Lists, Slice, Chosen, LetGo, Part, DeleteOnly.Once;
    assert Part(s, 0, []) by { EmptyPart(s, 0); }
    match p
    case FromLevel(from, start, i, j, to, out, a, b) =>
      SlicePart(s, from, start, i, j);
      SlicePart(s, to, out, a, b);
    case FromL0(l0, bits, to, out, a, b) =>
      ChosenPart(s, l0, bits);
      SlicePart(s, to, out, a, b);
    case MultiLevel(first, _, _, i, j, to, out, a, b) =>
      if first.FromLevel? { SlicePart(s, first.from, first.start, first.i, first.j); } else { ChosenPart(s, first.l0, first.bits); }
      SlicePart(s, first.to, first.out, i, j);
      SlicePart(s, to, out, a, b);
    case IntraL0(l0, bits) =>
      ChosenPart(s, l0, bits);
    case InPlace(level, fs, i, j) =>
      SlicePart(s, level, fs, i, j);
      EmptyPart(s, level);
    case ByHints(levels, inputs) =>
      forall l | 0 <= l < |inputs| ensures Part(s, levels[l], inputs[l]) { HintsPart(s, levels[l], inputs[l]); }
  }

  lemma EmptyPart(s: State, level: nat)
    ensures Part(s, level, [])
  {
  }

  lemma HintsPart(s: State, level: nat, fs: seq<Meta>)
    requires LetGo(s, level, fs) && DeleteOnly.Once(fs)
    ensures Part(s, level, fs)
  {
  }

  lemma PartsLocated(s: State, c: Compaction)
    requires Parts(s, c.levels, c.inputs) && NumbersOk(s)
    ensures Located(s, c) && Distinct(c)
  {
    forall l, i | 0 <= l < |c.inputs| && 0 <= i < |c.inputs[l]|
      ensures c.inputs[l][i] in s.version && s.version[c.inputs[l][i]] == c.levels[l]
    {
      assert Part(s, c.levels[l], c.inputs[l]);
    }
    forall l, i, m, j | 0 <= l < |c.inputs| && 0 <= i < |c.inputs[l]| && 0 <= m < |c.inputs| && 0 <= j < |c.inputs[m]| && (l, i) != (m, j)
      ensures c.inputs[l][i].num != c.inputs[m][j].num
    {
      PartsDiffer(s, c, l, i, m, j);
    }
  }

  lemma PartsDiffer(s: State, c: Compaction, l: nat, i: nat, m: nat, j: nat)
    requires Parts(s, c.levels, c.inputs) && NumbersOk(s)
    requires l < |c.inputs| && i < |c.inputs[l]| && m < |c.inputs| && j < |c.inputs[m]| && (l, i) != (m, j)
    ensures c.inputs[l][i].num != c.inputs[m][j].num
  {
    hide MetaOk, Nums;
    var f, g := c.inputs[l][i], c.inputs[m][j];
    assert Part(s, c.levels[l], c.inputs[l]) && Part(s, c.levels[m], c.inputs[m]);
    assert f in s.version && g in s.version;
    if l == m { assert f != g; } else { assert s.version[f] != s.version[g]; }
  }

  // Bounds

  predicate Bounding(fs: seq<Meta>, lo: IKey, hi: IKey) {
    forall f | f in fs :: !Less(f.smallest, lo) && !Less(hi, f.largest)
  }

  predicate HasLo(fs: seq<Meta>, lo: IKey) { exists f :: f in fs && f.smallest == lo }

  predicate HasHi(fs: seq<Meta>, hi: IKey) { exists f :: f in fs && f.largest == hi }

  lemma SliceBounds(fs: seq<Meta>, i: nat, j: nat, lo: IKey, hi: IKey)
    requires i <= j <= |fs|
    ensures Covered(fs, i, j, lo, hi) ==> Bounding(Slice(fs, i, j), lo, hi)
    ensures (LoFrom(fs, i, j, lo) ==> HasLo(Slice(fs, i, j), lo)) && (HiFrom(fs, i, j, hi) ==> HasHi(Slice(fs, i, j), hi))
  {
    hide Less;
    if LoFrom(fs, i, j, lo) {
      var k :| i <= k < j && fs[k].smallest == lo;
      assert Slice(fs, i, j)[k - i] == fs[k];
    }
    if HiFrom(fs, i, j, hi) {
      var k :| i <= k < j && fs[k].largest == hi;
      assert Slice(fs, i, j)[k - i] == fs[k];
    }
  }

  /** All inputs are within the bounds, and some have them. */
  ghost predicate Bounds(inputs: seq<seq<Meta>>, lo: IKey, hi: IKey) {
    && (forall l | 0 <= l < |inputs| :: Bounding(inputs[l], lo, hi))
    && (exists l :: 0 <= l < |inputs| && HasLo(inputs[l], lo)) && (exists l :: 0 <= l < |inputs| && HasHi(inputs[l], hi))
  }

  lemma BoundsTight(c: Compaction)
    requires Bounds(c.inputs, c.smallest, c.largest)
    ensures Tight(c)
  {
    hide Less;
    var l :| 0 <= l < |c.inputs| && HasLo(c.inputs[l], c.smallest);
    var f :| f in c.inputs[l] && f.smallest == c.smallest;
    var m :| 0 <= m < |c.inputs| && HasHi(c.inputs[m], c.largest);
    var g :| g in c.inputs[m] && g.largest == c.largest;
    assert f in Inputs(c) && g in Inputs(c);
  }

  lemma TwoBounds(inputs: seq<seq<Meta>>, lo: IKey, hi: IKey)
    requires |inputs| == 2 && Bounding(inputs[0], lo, hi) && Bounding(inputs[1], lo, hi)
    requires (HasLo(inputs[0], lo) || HasLo(inputs[1], lo)) && (HasHi(inputs[0], hi) || HasHi(inputs[1], hi))
    ensures Bounds(inputs, lo, hi)
  {
  }

  lemma ThreeBounds(inputs: seq<seq<Meta>>, lo: IKey, hi: IKey)
    requires |inputs| == 3 && Bounding(inputs[0], lo, hi) && Bounding(inputs[1], lo, hi) && Bounding(inputs[2], lo, hi)
    requires (HasLo(inputs[0], lo) || HasLo(inputs[1], lo) || HasLo(inputs[2], lo)) && (HasHi(inputs[0], hi) || HasHi(inputs[1], hi) || HasHi(inputs[2], hi))
    ensures Bounds(inputs, lo, hi)
  {
  }

  lemma BoundingMore(fs: seq<Meta>, lo: IKey, hi: IKey, lo': IKey, hi': IKey)
    requires Bounding(fs, lo, hi) && !Less(lo, lo') && !Less(hi', hi)
    ensures Bounding(fs, lo', hi')
  {
  }

  lemma L0Bounds(fs: seq<Meta>, out: seq<Meta>, a: nat, b: nat, lo: IKey, hi: IKey)
    requires SetupFromL0(fs, out, a, b, lo, hi)
    ensures Bounding(fs, lo, hi) && Bounding(Slice(out, a, b), lo, hi)
    ensures (HasLo(fs, lo) || LoFrom(out, a, b, lo)) && (HasHi(fs, hi) || HiFrom(out, a, b, hi))
  {
    hide Less, Full, CleanCut, LoFrom, HiFrom;
    SliceBounds(out, a, b, lo, hi);
  }

  /** The first two levels of a compaction: what their files are within, and where the
      bounds come from. */
  lemma FirstBounds(s: State, p: Path, lo: IKey, hi: IKey)
    requires (p.FromLevel? || p.FromL0?) && PathOk(s, p, lo, hi)
    ensures var inputs := InputsOf(p);
            && p.a <= p.b <= |p.out| && Full(p.out, p.a, p.b, lo, hi) && lo.tail > 0
            && Bounding(inputs[0], lo, hi) && Bounding(inputs[1], lo, hi)
            && (HasLo(inputs[0], lo) || LoFrom(p.out, p.a, p.b, lo)) && (HasHi(inputs[0], hi) || HiFrom(p.out, p.a, p.b, hi))
  {
    hide Less, Full, CleanCut, Lists, LoFrom, HiFrom, Slice, Bounding, HasLo, HasHi;
    if p.FromLevel? {
      SliceBounds(p.start, p.i, p.j, lo, hi);
      SliceBounds(p.out, p.a, p.b, lo, hi);
    } else {
      L0Bounds(Included(p.l0, p.bits), p.out, p.a, p.b, lo, hi);
    }
  }

  lemma MultiBounds(s: State, p: Path, lo: IKey, hi: IKey)
    requires p.MultiLevel? && PathOk(s, p, lo, hi)
    ensures Bounds(InputsOf(p), lo, hi)
  {
    hide Less, Full, CleanCut, Lists, LoFrom, HiFrom, Slice, Bounding, HasLo, HasHi, Bounds, Chosen;
    FirstBounds(s, p.first, p.lo, p.hi);
    BoundingMore(InputsOf(p)[0], p.lo, p.hi, lo, hi);
    SliceBounds(p.first.out, p.i, p.j, lo, hi);
    SliceBounds(p.out, p.a, p.b, lo, hi);
    FromWider(p.first.out, p.first.a, p.first.b, p.i, p.j, p.lo, p.hi);
    ThreeBounds(InputsOf(p), lo, hi);
  }

  lemma {:induction false} ConcatHas(inputs: seq<seq<Meta>>, f: Meta)
    ensures f in Concat(inputs) <==> exists l :: 0 <= l < |inputs| && f in inputs[l]
  {
    if inputs != [] {
      ConcatHas(inputs[1..], f);
      if l: nat :| l < |inputs| && f in inputs[l] {
        if l > 0 { assert inputs[1..][l - 1] == inputs[l]; }
      }
    }
  }

  lemma HintsBounds(inputs: seq<seq<Meta>>, lo: IKey, hi: IKey)
    requires Hull(Concat(inputs), lo, hi)
    ensures Bounds(inputs, lo, hi)
  {
    hide Less, Concat;
    forall l | 0 <= l < |inputs| ensures Bounding(inputs[l], lo, hi) {
      forall f | f in inputs[l] ensures f in Concat(inputs) { ConcatHas(inputs, f); }
    }
    var f :| f in Concat(inputs) && f.smallest == lo;
    ConcatHas(inputs, f);
    var l: nat :| l < |inputs| && f in inputs[l];
    assert HasLo(inputs[l], lo);
    var g :| g in Concat(inputs) && g.largest == hi;
    ConcatHas(inputs, g);
    var m: nat :| m < |inputs| && g in inputs[m];
    assert HasHi(inputs[m], hi);
  }

  lemma HullBounds(fs: seq<Meta>, lo: IKey, hi: IKey)
    requires Hull(fs, lo, hi)
    ensures Bounds([fs, []], lo, hi)
  {
    hide Less;
    var inputs := [fs, []];
    assert inputs[0] == fs && inputs[1] == [];
    assert Bounding(fs, lo, hi) && HasLo(fs, lo) && HasHi(fs, hi);
    TwoBounds(inputs, lo, hi);
  }

  lemma PathBounds(s: State, p: Path, lo: IKey, hi: IKey)
    requires PathOk(s, p, lo, hi)
    ensures Bounds(InputsOf(p), lo, hi)
  {
    hide Less, Full, CleanCut, Lists, LoFrom, HiFrom, Bounding, HasLo, HasHi, Bounds, Hull, Included, LetGo, Concat;
    match p
    case FromLevel(_, _, _, _, _, _, _, _) => FirstBounds(s, p, lo, hi); SliceBounds(p.out, p.a, p.b, lo, hi); TwoBounds(InputsOf(p), lo, hi);
    case FromL0(_, _, _, _, _, _) => FirstBounds(s, p, lo, hi); SliceBounds(p.out, p.a, p.b, lo, hi); TwoBounds(InputsOf(p), lo, hi);
    case MultiLevel(_, _, _, _, _, _, _, _, _) => MultiBounds(s, p, lo, hi);
    case IntraL0(l0, bits) => HullBounds(Included(l0, bits), lo, hi);
    case InPlace(_, fs, i, j) => HullBounds(fs[i..j], lo, hi);
    case ByHints(_, inputs) => HintsBounds(inputs, lo, hi);
  }

  /** The lower bound is a key that a file has. */
  lemma BoundTail(s: State, c: Compaction)
    requires Tight(c) && Located(s, c) && NumbersOk(s)
    ensures c.smallest.tail > 0
  {
    var f :| f in Inputs(c) && f.smallest == c.smallest;
    assert f in s.version && MetaOk(f);
  }

  // Files of the output level, and of the level between

  lemma FullTakesAll(s: State, c: Compaction, l: nat, to: nat, out: seq<Meta>, a: nat, b: nat)
    requires Lists(s, to, out) && Full(out, a, b, c.smallest, c.largest) && l < |c.inputs| && c.inputs[l] == Slice(out, a, b) && c.output == Some(to)
    ensures TakesAll(s, c)
  {
    hide LevelSorted, UserBefore;
    forall f | f in s.version && s.version[f] == to && Reaches(c, f) ensures f in Inputs(c) {
      assert f in out;
      var k :| 0 <= k < |out| && out[k] == f;
      assert a <= k < b;
      assert c.inputs[l][k - a] == f;
    }
  }

  /** A unit with clean cuts has all files of its level within its bounds. */
  lemma UnitIsFull(fs: seq<Meta>, i: nat, j: nat, lo: IKey, hi: IKey)
    requires LevelSorted(fs) && i < j <= |fs| && CleanCut(fs, i, j) && Hull(fs[i..j], lo, hi)
    ensures Full(fs, i, j, lo, hi)
  {
    hide Hull, LevelSorted, UserBefore, Less;
    HullOfSlice(fs, i, j, lo, hi);
    forall k | 0 <= k < i ensures UserBefore(fs[k].largest, lo) { BeforeSlice(fs, i, k); }
    forall k | j <= k < |fs| ensures UserBefore(hi, fs[k].smallest) { AfterSlice(fs, j, k); }
  }

  lemma HullOfSlice(fs: seq<Meta>, i: nat, j: nat, lo: IKey, hi: IKey)
    requires LevelSorted(fs) && i < j <= |fs| && Hull(fs[i..j], lo, hi)
    ensures lo == fs[i].smallest && hi == fs[j - 1].largest
  {
    hide LevelSorted, Less;
    var r := fs[i..j];
    assert r[0] == fs[i] && r[j - i - 1] == fs[j - 1];
    var f :| f in r && f.smallest == lo;
    var k: nat :| k < |r| && r[k] == f;
    InOrder(fs, i, i + k);
    OnlyOne(lo, fs[i].smallest);
    var g :| g in r && g.largest == hi;
    var m: nat :| m < |r| && r[m] == g;
    InOrder(fs, i + m, j - 1);
    OnlyOne(hi, fs[j - 1].largest);
  }

  lemma InOrder(fs: seq<Meta>, i: nat, j: nat)
    requires LevelSorted(fs) && i <= j < |fs|
    ensures !Less(fs[j].smallest, fs[i].smallest) && !Less(fs[j].largest, fs[i].largest)
  {
    assert MetaOk(fs[i]) && MetaOk(fs[j]);
  }

  lemma OnlyOne(a: IKey, b: IKey)
    requires !Less(a, b) && !Less(b, a)
    ensures a == b
  {
  }

  lemma PathTakesAll(s: State, p: Path, c: Compaction)
    requires PathOk(s, p, c.smallest, c.largest) && c.inputs == InputsOf(p) && c.output == OutputOf(p)
    ensures TakesAll(s, c)
  {
    hide Less, Full, CleanCut, Lists, Hull, Included, LetGo, Slice, TakesAll, LevelSorted, Chosen;
    match p
    case FromLevel(_, _, _, _, to, out, a, b) => FullTakesAll(s, c, 1, to, out, a, b);
    case FromL0(_, _, to, out, a, b) => FullTakesAll(s, c, 1, to, out, a, b);
    case MultiLevel(_, _, _, _, _, to, out, a, b) => FullTakesAll(s, c, 2, to, out, a, b);
    case IntraL0(_, _) => NothingBelow(s, c);
    case InPlace(level, fs, i, j) =>
      if level > 0 {
        ListSorted(s, level, fs);
        UnitIsFull(fs, i, j, c.smallest, c.largest);
        FullTakesAll(s, c, 0, level, fs, i, j);
      } else {
        NothingBelow(s, c);
      }
    case ByHints(_, _) => NothingBelow(s, c);
  }

  lemma NothingBelow(s: State, c: Compaction)
    requires c.output.None? || c.output.value == 0
    ensures TakesAll(s, c)
  {
  }

  lemma ListSorted(s: State, level: nat, fs: seq<Meta>)
    requires Lists(s, level, fs) && level > 0
    ensures LevelSorted(fs)
  {
  }

  /** The middle slice has all files within the bounds of the first two levels. */
  lemma PathTakesMiddle(s: State, p: Path, c: Compaction)
    requires PathOk(s, p, c.smallest, c.largest) && c.inputs == InputsOf(p) && c.levels == LevelsOf(p) && c.output == OutputOf(p)
    ensures TakesMiddle(s, c) && (c.output.Some? ==> |c.levels| <= 3)
  {
    hide Less, CleanCut, Hull, Included, LetGo, LevelSorted, Ends, UserBefore, Lists, SetupFromL0, Setup, Bounding, HasLo, HasHi;
    if p.MultiLevel? && p.first.FromLevel? {
      assert c.levels == [p.first.from, p.first.to, p.to];
      FirstBounds(s, p.first, p.lo, p.hi);
      forall f, x | f in s.version && s.version[f] == p.first.to && x in c.inputs[0] && !FilesApart(f, x) ensures f in Inputs(c) {
        MiddleHas(s, p, c, f, x);
      }
    } else if p.MultiLevel? {
      assert c.levels[0] == 0;
    }
  }

  lemma MiddleHas(s: State, p: Path, c: Compaction, f: Meta, x: Meta)
    requires p.MultiLevel? && p.first.FromLevel? && Lists(s, p.first.to, p.first.out) && Full(p.first.out, p.i, p.j, p.lo, p.hi)
    requires |c.inputs| == 3 && c.inputs[1] == Slice(p.first.out, p.i, p.j) && Bounding(c.inputs[0], p.lo, p.hi)
    requires f in s.version && s.version[f] == p.first.to && x in c.inputs[0] && !FilesApart(f, x)
    ensures f in Inputs(c)
  {
    hide LevelSorted;
    assert f in p.first.out;
    var k :| 0 <= k < |p.first.out| && p.first.out[k] == f;
    assert !Less(x.smallest, p.lo) && !Less(p.hi, x.largest);
    assert p.i <= k < p.j;
    assert c.inputs[1][k - p.i] == f;
  }

  /** Whichever way its inputs were come by, a compaction that is about to start has
      files of the version, each once, that no compaction in progress has, within bounds
      that are theirs, among them every file of the output level within the bounds. */
  lemma PickIsSound(s: State, p: Path, c: Compaction)
    requires NumbersOk(s) && PickOk(s, p, c)
    ensures Picked(s, c)
  {
    hide PathOk, Conflict, Tight, Located, Distinct, TakesAll, TakesMiddle, NumbersOk, Parts, Bounds, InputsOf, LevelsOf, OutputOf, CanMove, MoveIsOne, Neighbouring, Nums, MarkOf;
    PathParts(s, p, c.smallest, c.largest);
    PartsLocated(s, c);
    PathBounds(s, p, c.smallest, c.largest);
    BoundsTight(c);
    BoundTail(s, c);
    PathTakesAll(s, p, c);
    PathTakesMiddle(s, p, c);
    PathLevels(s, p, c);
    if c.move { MoveIs(p, c); }
    forall n | n in Nums(c) ensures !MarkOf(s, n).Compacting? { Unmarked(s, p, c, n); }
  }

  lemma PathLevels(s: State, p: Path, c: Compaction)
    requires PathOk(s, p, c.smallest, c.largest) && c.levels == LevelsOf(p) && c.output == OutputOf(p)
    ensures Neighbouring(c)
  {
    hide Less, Full, CleanCut, Hull, Included, LetGo, LevelSorted, Ends, UserBefore, Lists, SetupFromL0, Setup;
  }

  lemma MoveIs(p: Path, c: Compaction)
    requires CanMove(p) && c.inputs == InputsOf(p) && c.output == OutputOf(p) && Tight(c)
    ensures c.output.Some? && MoveIsOne(c)
  {
    hide InputsOf;
    var f := c.inputs[0][0];
    assert Inputs(c) == {f};
    assert Within(c, f);
  }

  lemma Unmarked(s: State, p: Path, c: Compaction, n: nat)
    requires PickOk(s, p, c) && n in Nums(c)
    ensures !MarkOf(s, n).Compacting?
  {
    hide Less, Full, CleanCut, Hull, Included, LevelSorted, Ends, UserBefore, Lists, SetupFromL0, Setup, CanMove;
    if p.ByHints? {
      var f :| f in Inputs(c) && f.num == n;
      var l, i :| 0 <= l < |c.inputs| && 0 <= i < |c.inputs[l]| && c.inputs[l][i] == f;
      assert LetGo(s, p.levels[l], c.inputs[l]) && f in c.inputs[l];
    }
  }

  // ---------------------------------------------------------------------
  // The pickers
  // ---------------------------------------------------------------------

  ghost predicate IsCompacting(s: State, compacting: set<nat>) {
    forall n :: n in compacting <==> MarkOf(s, n).Compacting?
  }

  lemma BusyMarked(s: State, start: seq<Meta>, i: nat, j: nat, out: seq<Meta>, a: nat, b: nat, compacting: set<nat>)
    requires IsCompacting(s, compacting) && i <= j <= |start| && a <= b <= |out| && exists f :: f in start[i..j] + out[a..b] && f.num in compacting
    ensures exists f :: f in start + out && MarkOf(s, f.num).Compacting?
  {
    hide MarkOf;
    var f :| f in start[i..j] + out[a..b] && f.num in compacting;
    assert f in start + out;
  }

  /** pickAutoLPositive, and manual and read compactions, of a level below L0. */
  method PickFromLevel(s: State, from: nat, start: seq<Meta>, i0: nat, j0: nat, out: seq<Meta>, compacting: set<nat>, fits: bool)
    returns (p: Option<Path>, lo: IKey, hi: IKey)
    requires Lists(s, from, start) && Lists(s, from + 1, out) && 0 < from && i0 < j0 <= |start| && IsCompacting(s, compacting)
    ensures p.Some? ==> PathOk(s, p.value, lo, hi) && p.value.FromLevel? && p.value.i <= i0 && j0 <= p.value.j
    ensures p.Some? ==> p.value.from == from && p.value.start == start && p.value.to == from + 1 && p.value.out == out
    ensures p.Some? ==> SlicesOf(start, i0, j0, out, None, compacting, fits, p.value.i, p.value.j, p.value.a, p.value.b)
    ensures p.None? <==> SetupBusy(start, i0, j0, out, None, compacting)
    ensures p.None? ==> exists f :: f in start + out && MarkOf(s, f.num).Compacting?
  {
    hide Lists, Setup, Ends, LevelSorted, Full, SetupBusy, SlicesOf, Taken, StartLo, StartHi;
    ListSorted(s, from, start);
    ListSorted(s, from + 1, out);
    var ok, i, j, a, b;
    ok, i, j, a, b, lo, hi := SetupInputs(start, i0, j0, out, None, compacting, fits);
    if !ok { BusyMarked(s, start, i, j, out, a, b, compacting); }
    p := if ok then Some(FromLevel(from, start, i, j, from + 1, out, a, b)) else None;
  }

  /** setupMultiLevelCandidate: the level below the output level is added. */
  method AddLevel(s: State, first: Path, lo1: IKey, hi1: IKey, out: seq<Meta>, compacting: set<nat>, fits: bool)
    returns (p: Option<Path>, lo: IKey, hi: IKey)
    requires (first.FromLevel? || first.FromL0?) && PathOk(s, first, lo1, hi1) && Lists(s, first.to + 1, out) && IsCompacting(s, compacting)
    ensures p.Some? ==> PathOk(s, p.value, lo, hi) && p.value.MultiLevel? && p.value.first == first
    ensures first.a <= first.b <= |first.out|
    ensures p.Some? ==> p.value.lo == lo1 && p.value.hi == hi1 && p.value.to == first.to + 1 && p.value.out == out
    ensures p.Some? ==> SlicesOf(first.out, first.a, first.b, out, Some((lo1, hi1)), compacting, fits, p.value.i, p.value.j, p.value.a, p.value.b)
    ensures p.None? <==> SetupBusy(first.out, first.a, first.b, out, Some((lo1, hi1)), compacting)
    ensures p.None? ==> exists f :: f in first.out + out && MarkOf(s, f.num).Compacting?
  {
    hide Setup, Ends, LevelSorted, Full, Lists, SetupFromL0, SetupBusy, SlicesOf, Taken, StartLo, StartHi;
    FirstBounds(s, first, lo1, hi1);
    ListSorted(s, first.to, first.out);
    ListSorted(s, first.to + 1, out);
    var ok, i, j, a, b;
    ok, i, j, a, b, lo, hi := SetupInputs(first.out, first.a, first.b, out, Some((lo1, hi1)), compacting, fits);
    if !ok { BusyMarked(s, first.out, i, j, out, a, b, compacting); }
    p := if ok then Some(MultiLevel(first, lo1, hi1, i, j, first.to + 1, out, a, b)) else None;
  }

  lemma IncludedOk(s: State, l0: seq<Meta>, bits: seq<bool>)
    requires NumbersOk(s) && Lists(s, 0, l0) && |l0| == |bits|
    ensures forall f | f in Included(l0, bits) :: MetaOk(f)
  {
    hide MetaOk, Nums;
    forall f | f in Included(l0, bits) ensures MetaOk(f) { assert f in l0; }
  }

  /** A compaction of L0 into the base level that L0Sublevels has picked, with what it
      gives in addition. */
  method PickFromL0(s: State, l0: seq<Meta>, bits: seq<bool>, to: nat, out: seq<Meta>, extended: (Option<IKey>, Option<IKey>) -> seq<bool>, compacting: set<nat>, fits: bool)
    returns (p: Option<Path>, lo: IKey, hi: IKey)
    requires NumbersOk(s) && Lists(s, 0, l0) && 0 < to && Lists(s, to, out) && |l0| == |bits| && Included(l0, bits) != [] && IsCompacting(s, compacting)
    requires forall sm, la :: |extended(sm, la)| == |l0| && Extends(Included(l0, bits), Included(l0, extended(sm, la)), sm, la) && Included(l0, extended(sm, la)) != []
    ensures p.Some? ==> PathOk(s, p.value, lo, hi) && p.value.FromL0?
    ensures p.None? <==> BaseBusy(Included(l0, bits), out, compacting)
    ensures p.Some? ==> p.value.l0 == l0 && p.value.to == to && p.value.out == out
    ensures p.Some? ==> if fits then ExtendedTo(l0, bits, out, p.value.a, p.value.b, extended, p.value.bits) else p.value.bits == bits
  {
    hide SetupFromL0, LevelSorted, Full, Lists, Included, Extends, MetaOk, NumbersOk, BaseBusy, MayGrowBase, KeyAfter;
    var fs := Collect(l0, bits);
    IncludedOk(s, l0, bits);
    ListSorted(s, to, out);
    var ok, a, b;
    ok, a, b, lo, hi := SetupBase(fs, out, compacting);
    if !ok { return None, lo, hi; }
    p := Some(FromL0(l0, bits, to, out, a, b));
    L0Facts(fs, out, a, b, lo, hi);
    var sm, la := Neighbours(out, a, b, lo, hi);
    var bits1 := extended(sm, la);
    assert ExtendedTo(l0, bits, out, a, b, extended, bits1);
    if fits {
      IncludedOk(s, l0, bits1);
      var more := Collect(l0, bits1);
      lo, hi := ExtendBase(fs, more, out, a, b, lo, hi, sm, la);
      p := Some(FromL0(l0, bits1, to, out, a, b));
    }
  }

  /** The files are all that overlap the bounds of those picked and of the output slice, if
      that may be, and otherwise those picked. */
  ghost predicate GrownTo(l0: seq<Meta>, bits: seq<bool>, out: seq<Meta>, a: nat, b: nat, overlapping: (IKey, IKey) -> seq<bool>,
                          compacting: set<nat>, fits: bool, bits1: seq<bool>)
    requires |l0| == |bits| && forall l, h :: |overlapping(l, h)| == |l0|
  {
    exists lo: IKey, hi: IKey ::
      && SetupFromL0(Included(l0, bits), out, a, b, lo, hi)
      && bits1 == if MayGrowBase(Included(l0, bits), Included(l0, overlapping(lo, hi)), out, a, b, compacting, fits) then overlapping(lo, hi) else bits
  }

  /** The files are those picked and what lies with them between the keys next to the
      output slice. */
  ghost predicate ExtendedTo(l0: seq<Meta>, bits: seq<bool>, out: seq<Meta>, a: nat, b: nat,
                             extended: (Option<IKey>, Option<IKey>) -> seq<bool>, bits1: seq<bool>)
    requires |l0| == |bits|
  {
    && a <= b <= |out|
    && exists lo: IKey, hi: IKey, la: Option<IKey> ::
         SetupFromL0(Included(l0, bits), out, a, b, lo, hi) && KeyAfter(out, a, b, hi, la) && bits1 == extended(KeyBefore(out, a), la)
  }

  lemma L0Facts(fs: seq<Meta>, out: seq<Meta>, a: nat, b: nat, lo: IKey, hi: IKey)
    requires SetupFromL0(fs, out, a, b, lo, hi) && forall f | f in fs :: MetaOk(f)
    ensures a <= b <= |out| && Full(out, a, b, lo, hi) && !Less(hi, lo)
  {
    assert fs[0] in fs;
  }

  /** A manual or a read compaction of L0: files that overlap, and then all that overlap
      those and their bounds. */
  method PickFromL0Range(s: State, l0: seq<Meta>, bits: seq<bool>, to: nat, out: seq<Meta>, overlapping: (IKey, IKey) -> seq<bool>, compacting: set<nat>, fits: bool)
    returns (p: Option<Path>, lo: IKey, hi: IKey)
    requires NumbersOk(s) && Lists(s, 0, l0) && 0 < to && Lists(s, to, out) && |l0| == |bits| && Included(l0, bits) != [] && IsCompacting(s, compacting)
    requires forall l, h :: |overlapping(l, h)| == |l0| && forall f | f in Included(l0, bits) :: f in Included(l0, overlapping(l, h))
    ensures p.Some? ==> PathOk(s, p.value, lo, hi) && p.value.FromL0?
    ensures p.None? <==> BaseBusy(Included(l0, bits), out, compacting)
    ensures p.Some? ==> p.value.l0 == l0 && p.value.to == to && p.value.out == out
    ensures p.Some? ==> GrownTo(l0, bits, out, p.value.a, p.value.b, overlapping, compacting, fits, p.value.bits)
  {
    hide SetupFromL0, LevelSorted, Full, Lists, Included, Extends, MetaOk, NumbersOk, BaseBusy, MayGrowBase;
    var fs := Collect(l0, bits);
    IncludedOk(s, l0, bits);
    ListSorted(s, to, out);
    var ok, a, b;
    ok, a, b, lo, hi := SetupBase(fs, out, compacting);
    if !ok { return None, lo, hi; }
    var bits1 := overlapping(lo, hi);
    IncludedOk(s, l0, bits1);
    var more := Collect(l0, bits1);
    var grown;
    ghost var lo0, hi0 := lo, hi;
    grown, lo, hi := GrowBase(fs, more, out, a, b, lo, hi, compacting, fits);
    var bits2 := if grown then bits1 else bits;
    p := Some(FromL0(l0, bits2, to, out, a, b));
    assert GrownTo(l0, bits, out, a, b, overlapping, compacting, fits, bits2) by {
      assert bits2 == if MayGrowBase(fs, Included(l0, overlapping(lo0, hi0)), out, a, b, compacting, fits) then overlapping(lo0, hi0) else bits;
    }
  }

  /** The base level picker passes on a setup that has failed. The gate refuses it. */
  lemma FailedSetupIsRefused(s: State, c: Compaction, fs: seq<Meta>, out: seq<Meta>, a: nat, b: nat, compacting: set<nat>)
    requires a <= b <= |out| && IsCompacting(s, compacting) && exists f :: f in fs + out[a..b] && f.num in compacting
    requires forall f | f in fs + out[a..b] :: f in Inputs(c)
    ensures Conflict(s, c)
  {
    hide MarkOf, Inputs;
    var f :| f in fs + out[a..b] && f.num in compacting;
    assert f in Inputs(c);
    assert f.num in Nums(c);
  }

  /** An intra-L0 compaction. */
  method PickIntraL0(s: State, l0: seq<Meta>, bits: seq<bool>, compacting: set<nat>) returns (p: Option<Path>, lo: IKey, hi: IKey)
    requires Lists(s, 0, l0) && |l0| == |bits| && Included(l0, bits) != [] && IsCompacting(s, compacting)
    ensures p.Some? ==> PathOk(s, p.value, lo, hi) && p.value == IntraL0(l0, bits)
    ensures p.None? <==> |Included(l0, bits)| < 2 || UnitBusy(Included(l0, bits), 0, |Included(l0, bits)|, compacting)
  {
    hide Hull, LevelSorted, Lists, Included, UnitBusy, Unit, Shares;
    var fs := Collect(l0, bits);
    var i, j, busy := ExpandToAtomicUnit(fs, 0, |fs|, compacting);
    lo, hi := KeyRange(fs);
    p := if busy || |fs| < 2 then None else Some(IntraL0(l0, bits));
  }

  /** An elision-only compaction, or one that rewrites file k. */
  method PickInPlace(s: State, level: nat, fs: seq<Meta>, k: nat, compacting: set<nat>) returns (p: Option<Path>, lo: IKey, hi: IKey)
    requires Lists(s, level, fs) && k < |fs| && IsCompacting(s, compacting)
    ensures p.Some? ==> PathOk(s, p.value, lo, hi) && p.value.InPlace? && p.value.i <= k < p.value.j
    ensures p.Some? ==> p.value.level == level && p.value.fs == fs && (p.value.i, p.value.j) == if level > 0 then Unit(fs, k, k + 1) else (k, k + 1)
    ensures p.None? <==> level > 0 && UnitBusy(fs, k, k + 1, compacting)
  {
    hide Hull, LevelSorted, Lists, CleanCut, UnitBusy, Unit, Shares;
    var i, j, busy := k, k + 1, false;
    if level > 0 { i, j, busy := ExpandToAtomicUnit(fs, k, k + 1, compacting); }
    lo, hi := KeyRange(fs[i..j]);
    p := if busy then None else Some(InPlace(level, fs, i, j));
  }

  /** Level by level, the files of the version. */
  ghost predicate AllListed(s: State, levels: seq<seq<Meta>>) {
    forall l | 0 <= l < |levels| :: Lists(s, l, levels[l])
  }

  /** A delete-only compaction: what the hints let go, if that is anything. */
  method PickByHints<H(!new, ==)>(s: State, levels: seq<seq<Meta>>, hints: seq<H>, resolvable: H -> bool, above: H -> nat, lets: (H, Meta) -> bool)
    returns (p: Option<Path>, unresolved: seq<H>, lo: IKey, hi: IKey)
    requires AllListed(s, levels)
    ensures forall h :: h in unresolved <==> h in hints && !resolvable(h)
    ensures p.Some? ==> PathOk(s, p.value, lo, hi) && p.value.ByHints?
    ensures p.Some? ==> forall k, m | 0 <= k < |p.value.inputs| && m in p.value.inputs[k] :: DeleteOnly.LetGo(hints, resolvable, above, lets, p.value.levels[k], m)
    ensures forall l, m | 0 <= l < |levels| && m in levels[l] && DeleteOnly.LetGo(hints, resolvable, above, lets, l, m) ::
              MarkOf(s, m.num).Compacting? || (p.Some? && exists k :: 0 <= k < |p.value.inputs| && p.value.levels[k] == l && m in p.value.inputs[k])
  {
    hide Hull, Concat, AllListed, DeleteOnly.LetGo, MarkOf, DeleteOnly.Once, LetGo, DeleteOnly.Chosen;
    var byLevel;
    var busy := (m: Meta) => MarkOf(s, m.num).Compacting?;
    byLevel, unresolved := DeleteOnly.CheckHints(hints, levels, busy, resolvable, above, lets);
    var ls, inputs := DeleteOnly.NonEmpty(byLevel);
    lo, hi := IKey(0.0, 0), IKey(0.0, 0);
    p := None;
    assert |byLevel| == |levels| by { ChosenLevels(hints, levels, busy, resolvable, above, lets, byLevel); }
    if inputs != [] {
      ConcatHas(inputs, inputs[0][0]);
      lo, hi := KeyRange(Concat(inputs));
      p := Some(ByHints(ls, inputs));
      forall k | 0 <= k < |inputs|
        ensures LetGo(s, ls[k], inputs[k]) && DeleteOnly.Once(inputs[k]) && forall m | m in inputs[k] :: DeleteOnly.LetGo(hints, resolvable, above, lets, ls[k], m)
      {
        HintsLetGo(s, levels, byLevel, hints, busy, resolvable, above, lets, ls[k]);
      }
    }
    forall l, m | 0 <= l < |levels| && m in levels[l] && DeleteOnly.LetGo(hints, resolvable, above, lets, l, m)
      ensures MarkOf(s, m.num).Compacting? || exists k :: 0 <= k < |inputs| && ls[k] == l && m in inputs[k]
    {
      HintsLetGo(s, levels, byLevel, hints, busy, resolvable, above, lets, l);
    }
  }

  lemma ChosenLevels<H(!new)>(hints: seq<H>, levels: seq<seq<Meta>>, busy: Meta -> bool, resolvable: H -> bool, above: H -> nat, lets: (H, Meta) -> bool, byLevel: seq<seq<Meta>>)
    requires DeleteOnly.Chosen(hints, levels, busy, resolvable, above, lets, byLevel)
    ensures |byLevel| == |levels|
  {
  }

  /** Files that hints have chosen are free. */
  lemma HintsLetGo<H(!new)>(s: State, levels: seq<seq<Meta>>, byLevel: seq<seq<Meta>>, hints: seq<H>,
                            busy: Meta -> bool, resolvable: H -> bool, above: H -> nat, lets: (H, Meta) -> bool, l: nat)
    requires DeleteOnly.Chosen(hints, levels, busy, resolvable, above, lets, byLevel) && AllListed(s, levels) && l < |byLevel|
    requires forall m: Meta :: busy(m) == MarkOf(s, m.num).Compacting?
    ensures LetGo(s, l, byLevel[l]) && DeleteOnly.Once(byLevel[l])
    ensures forall m | m in byLevel[l] :: DeleteOnly.LetGo(hints, resolvable, above, lets, l, m)
    ensures l < |levels| && forall m | m in levels[l] && DeleteOnly.LetGo(hints, resolvable, above, lets, l, m) :: MarkOf(s, m.num).Compacting? || m in byLevel[l]
  {
    hide LevelSorted, MarkOf, DeleteOnly.Once, DeleteOnly.LetGo;
    assert Lists(s, l, levels[l]);
    assert DeleteOnly.ChosenAt(hints, l, levels[l], busy, resolvable, above, lets, byLevel[l]);
    forall m | m in byLevel[l] ensures m in s.version && s.version[m] == l && !MarkOf(s, m.num).Compacting? {
      assert m in levels[l] && !busy(m);
    }
  }

  /** The gate, and newCompaction. */
  method NewCompaction(s: State, p: Path, lo: IKey, hi: IKey, ids: seq<nat>, mayMove: bool) returns (c: Option<Compaction>)
    requires PathOk(s, p, lo, hi) && forall id :: id in s.running <==> id in ids
    ensures c.Some? ==> PickOk(s, p, c.value)
    ensures c.Some? && mayMove && (p.FromLevel? || p.FromL0? || p.MultiLevel?) ==>
              (c.value.move <==> |c.value.inputs| > 0 && |c.value.inputs[0]| == 1 && forall l | 0 < l < |c.value.inputs| :: c.value.inputs[l] == [])
    ensures c.Some? && c.value.move ==> mayMove
    ensures c.None? <==> !p.ByHints? && Conflict(s, Compaction(false, LevelsOf(p), InputsOf(p), OutputOf(p), lo, hi, false, false))
  {
    hide PathOk;
    var d := Compaction(false, LevelsOf(p), InputsOf(p), OutputOf(p), lo, hi, false, false);
    if !p.ByHints? {
      var busy := AlreadyCompacting(s, d, ids);
      if busy { return None; }
    }
    var move := mayMove && CanMove(p);
    MoveConflict(s, d, d.(move := move));
    c := Some(d.(move := move));
    assert c.value.inputs == InputsOf(p);
  }

  lemma MoveConflict(s: State, c: Compaction, d: Compaction)
    requires d == c.(move := d.move)
    ensures Conflict(s, c) == Conflict(s, d)
  {
    assert Inputs(c) == Inputs(d) && Nums(c) == Nums(d);
  }
}
