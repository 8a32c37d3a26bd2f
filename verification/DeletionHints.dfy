/**
Deletion hints (compaction.go, table_stats.go): a range tombstone may let whole
tables below it be dropped without reading them. The decision looks only at
sequence number bounds, and compactions that zero sequence numbers could make a
live key look old. This module follows every record's original sequence number
through arbitrary runs of new tables, compactions with and without zeroing,
moves, snapshots and hints, and shows that a table dropped through a hint holds
nothing that a reader can see.
*/
module DeletionHints {
  import opened Lsm
  import DeleteOnly

  predicate Over(t: Tombstone, k: Key) { t.start <= k < t.end }

  /** A stored point: its sequence number now, and the one it was written with. */
  datatype Rec = Rec(key: Key, sn: nat, orig: nat)

  /** A table and its metadata. */
  datatype File = File(num: nat, lo: Key, hi: Key, recs: set<Rec>, tombs: set<Tombstone>, smallestSn: nat, largestSn: nat)

  /** A hint from the range tombstones of a table of some level over [start, end). */
  datatype Hint = Hint(start: Key, end: Key, level: nat, file: File, smallest: nat, largest: nat, fileSmallest: nat)

  /** The tables, each in a sorted run. Runs are numbered from the newest down: L0
      sublevels, and then levels. Hints in use, and hints read from tables but not
      in use yet; and every range tombstone ever written. */
  datatype State = State(
    at: map<File, int>, snaps: seq<nat>, nextSn: nat,
    hints: set<Hint>, scanned: set<Hint>, history: set<Tombstone>)

  datatype Event =
    | NewTable(i: int, f: File)                  // a flush on top, or an ingestion into run i
    // taken: the snapshots that were open when the compaction started
    | Compact(j: int, ins: set<File>, outs: set<File>, lo: Key, hi: Key, zeroes: bool, taken: seq<nat>)
    | Move(f: File, j: int)
    | Scan(h: Hint)                              // read a table's tombstones
    | AddHint(h: Hint)                           // put what was read to use
    | DropHint(h: Hint)
    | Resolve(h: Hint, files: set<File>)         // a delete-only compaction
    | OpenSnapshot | CloseSnapshot(n: nat) | Advance   // Advance: a sequence number is used

  predicate Overlap(f: File, g: File) { f.lo <= g.hi && g.lo <= f.hi }

  predicate FileOk(f: File) {
    && (forall r | r in f.recs :: f.lo <= r.key <= f.hi && f.smallestSn <= r.sn <= f.largestSn && (r.sn == r.orig || r.sn == 0))
    && (forall t | t in f.tombs :: f.lo <= t.start && t.end <= f.hi && f.smallestSn <= t.sn <= f.largestSn)
  }

  // ---------------------------------------------------------------------
  // What the steps check
  // ---------------------------------------------------------------------

  /** Data arrives in the order in which it was written: it is newer than all that
      the store has, or had, about the same keys. */
  predicate Arrives(s: State, f: File) {
    && f !in s.at && FileOk(f) && (forall r | r in f.recs :: r.sn == r.orig)
    && (forall r, t | r in f.recs && t in s.history && Over(t, r.key) :: t.sn <= r.orig)
    && (forall t, g, r | t in f.tombs && g in s.at && r in g.recs && Over(t, r.key) :: r.orig < t.sn)
    && (forall t | t in f.tombs :: t.sn < s.nextSn)
  }

  /** Nothing in the runs down to i overlaps the table. */
  predicate Clear(s: State, i: int, f: File) {
    forall g | g in s.at && s.at[g] <= i :: !Overlap(f, g)
  }

  /** An output record is an input record, with its number kept, or zeroed when it
      is in the last stripe of a compaction that zeroes. */
  predicate FromRec(s: State, ins: set<File>, zeroes: bool, taken: seq<nat>, r: Rec) {
    exists f, x :: f in ins && x in f.recs && x.key == r.key && x.orig == r.orig
                   && (x.sn == r.sn || (zeroes && r.sn == 0 && Stripe(x.sn, taken) == 0))
  }

  /** An output tombstone is a piece of an input tombstone. A compaction that zeroes
      elides every tombstone of the last stripe. */
  predicate FromTomb(s: State, ins: set<File>, zeroes: bool, taken: seq<nat>, t: Tombstone) {
    && (exists f, x :: f in ins && x in f.tombs && x.start <= t.start && t.end <= x.end && x.sn == t.sn)
    && (zeroes ==> Stripe(t.sn, taken) != 0)
  }

  /** The inputs of a compaction into run j: with a table, all tables below it down
      to run j that overlap it. */
  predicate InputsOk(s: State, j: int, ins: set<File>, lo: Key, hi: Key) {
    && (forall f | f in ins :: f in s.at && s.at[f] <= j && lo <= f.lo && f.hi <= hi)
    && (forall f, g | f in ins && g in s.at && s.at[f] < s.at[g] <= j && Overlap(f, g) :: g in ins)
  }

  /** Zeroing is allowed when nothing below overlaps the compaction. */
  predicate MayZero(s: State, j: int, lo: Key, hi: Key) {
    forall g | g in s.at && j < s.at[g] :: g.hi < lo || hi < g.lo
  }

  predicate OutputsOk(s: State, j: int, ins: set<File>, outs: set<File>, zeroes: bool, taken: seq<nat>) {
    && (forall f | f in outs ::
          && f !in s.at && FileOk(f)
          && (forall r | r in f.recs :: FromRec(s, ins, zeroes, taken, r))
          && (forall t | t in f.tombs :: FromTomb(s, ins, zeroes, taken, t)))
    && (forall f, g | f in outs && g in outs && f != g :: !Overlap(f, g))
    && (forall f, g | f in outs && g in s.at && s.at[g] == j && g !in ins :: !Overlap(f, g))
  }

  predicate CompactOk(s: State, j: int, ins: set<File>, outs: set<File>, lo: Key, hi: Key, zeroes: bool, taken: seq<nat>) {
    Ascending(taken) && InputsOk(s, j, ins, lo, hi) && (zeroes ==> MayZero(s, j, lo, hi)) && OutputsOk(s, j, ins, outs, zeroes, taken)
  }

  predicate MoveOk(s: State, f: File, j: int) {
    && f in s.at && s.at[f] < j
    && forall g | g in s.at && s.at[f] < s.at[g] <= j :: !Overlap(f, g)
  }

  /** A tombstone over k with a number of the hint. */
  predicate Covering(ts: set<Tombstone>, h: Hint, k: Key) {
    exists t :: t in ts && Over(t, k) && h.smallest <= t.sn <= h.largest
  }

  /** The hint's table has tombstones over all of [start, end). */
  ghost predicate Describes(h: Hint) {
    forall k: Key | h.start <= k < h.end :: Covering(h.file.tombs, h, k)
  }

  /** deleteCompactionHint.canDelete, for tables without range keys. */
  predicate CanDelete(h: Hint, m: File, snaps: seq<nat>) {
    && !(h.smallest <= m.largestSn || m.smallestSn < h.fileSmallest)
    && Stripe(h.largest, snaps) == Stripe(m.smallestSn, snaps)
    && h.start <= m.lo && m.hi < h.end
  }

  /** maybeUpdateDeleteCompactionHints: which hints survive a compaction that zeroes. */
  predicate Survives(h: Hint, ins: set<File>, lo: Key, hi: Key) {
    || h.end < lo || hi < h.start
    || forall f | f in ins :: f.largestSn < h.smallest
  }

  function Replace(at: map<File, int>, ins: set<File>, outs: set<File>, j: int): map<File, int> {
    map f | f in at.Keys + outs && (f in outs || f !in ins) :: if f in outs then j else at[f]
  }

  ghost function Step(s: State, e: Event): State {
    match e
    case NewTable(i, f) =>
      if Arrives(s, f) && Clear(s, i, f) then s.(at := s.at[f := i], history := s.history + f.tombs) else s
    case Compact(j, ins, outs, lo, hi, zeroes, taken) =>
      if CompactOk(s, j, ins, outs, lo, hi, zeroes, taken) then
        s.(at := Replace(s.at, ins, outs, j),
           hints := if zeroes then (set h | h in s.hints && Survives(h, ins, lo, hi)) else s.hints)
      else s
    case Move(f, j) => if MoveOk(s, f, j) then s.(at := s.at[f := j]) else s
    case Scan(h) => if h.file in s.at && Describes(h) then s.(scanned := s.scanned + {h}) else s
    case AddHint(h) =>
      if h !in s.scanned then s
      else s.(scanned := s.scanned - {h}, hints := if h.file in s.at then s.hints + {h} else s.hints)
    case DropHint(h) => s.(hints := s.hints - {h})
    case Resolve(h, files) =>
      if h in s.hints && forall m | m in files :: CanDelete(h, m, s.snaps) then
        s.(hints := s.hints - {h}, at := s.at - files)
      else s
    case OpenSnapshot => s.(snaps := s.snaps + [s.nextSn])
    case CloseSnapshot(i) => if i < |s.snaps| then s.(snaps := s.snaps[..i] + s.snaps[i + 1..]) else s
    case Advance => s.(nextSn := s.nextSn + 1)
  }

  // ---------------------------------------------------------------------
  // The invariant
  // ---------------------------------------------------------------------

  predicate Tables(s: State) {
    && (forall f | f in s.at :: FileOk(f))
    && (forall f, g | f in s.at && g in s.at && f != g && s.at[f] == s.at[g] :: !Overlap(f, g))
  }

  predicate Snapshots(s: State) {
    && Ascending(s.snaps) && (forall i | 0 <= i < |s.snaps| :: s.snaps[i] <= s.nextSn)
    && (forall t | t in s.history :: t.sn < s.nextSn)
  }

  /** What a newer run has deleted, it deleted later than older runs wrote it. */
  predicate TombOrder(s: State) {
    forall f, g, t, r | f in s.at && g in s.at && s.at[f] < s.at[g] && t in f.tombs && r in g.recs && Over(t, r.key) :: r.orig < t.sn
  }

  /** While a tombstone is in some table, no newer record under it has been zeroed. */
  predicate Unzeroed(s: State) {
    forall f, g, t, r | f in s.at && g in s.at && t in f.tombs && r in g.recs && Over(t, r.key) && t.sn <= r.orig :: r.sn == r.orig
  }

  predicate PieceOf(ts: set<Tombstone>, t: Tombstone) {
    exists x :: x in ts && x.start <= t.start && t.end <= x.end && x.sn == t.sn
  }

  predicate Recorded(s: State) {
    forall f, t | f in s.at && t in f.tombs :: PieceOf(s.history, t)
  }

  /** A record that was deleted no later than the hint's newest tombstone. */
  predicate DeletedBy(s: State, h: Hint, r: Rec) {
    exists t :: t in s.history && Over(t, r.key) && r.orig < t.sn <= h.largest
  }

  /** What looks older than a hint's tombstones under it is deleted. */
  predicate Honest(s: State, h: Hint) {
    forall f, r | f in s.at && r in f.recs && h.start <= r.key < h.end && r.sn < h.smallest :: DeletedBy(s, h, r)
  }

  ghost predicate Backed(s: State, h: Hint) {
    forall k: Key | h.start <= k < h.end :: Covering(s.history, h, k)
  }

  ghost predicate HintsOk(s: State) {
    && (forall h | h in s.hints :: Backed(s, h) && Honest(s, h))
    && (forall h | h in s.scanned :: Backed(s, h) && Describes(h))
  }

  ghost predicate Inv(s: State) {
    Tables(s) && Snapshots(s) && TombOrder(s) && Unzeroed(s) && Recorded(s) && HintsOk(s)
  }

  // ---------------------------------------------------------------------
  // Every step keeps it
  // ---------------------------------------------------------------------

  lemma Touch(f: File, g: File, t: Tombstone, r: Rec)
    requires FileOk(f) && FileOk(g) && t in f.tombs && r in g.recs && Over(t, r.key)
    ensures Overlap(f, g)
  {
  }

  /** Hints stay honest when tables are only taken away or moved. */
  lemma SameHints(s: State, s': State)
    requires HintsOk(s) && s'.history == s.history && s'.at.Keys <= s.at.Keys && s'.hints <= s.hints && s'.scanned <= s.scanned
    ensures HintsOk(s')
  {
    forall h | h in s'.hints ensures Backed(s', h) && Honest(s', h) {
      assert Backed(s, h) && Honest(s, h);
      forall f, r | f in s'.at && r in f.recs && h.start <= r.key < h.end && r.sn < h.smallest ensures DeletedBy(s', h, r) {
        assert DeletedBy(s, h, r);
      }
    }
    forall h | h in s'.scanned ensures Backed(s', h) { assert Backed(s, h); }
  }

  lemma StepResolve(s: State, h: Hint, files: set<File>)
    requires Inv(s)
    ensures Inv(Step(s, Resolve(h, files)))
  {
    hide CanDelete, HintsOk, PieceOf;
    SameHints(s, Step(s, Resolve(h, files)));
  }

  lemma StepMove(s: State, f: File, j: int)
    requires Inv(s)
    ensures Inv(Step(s, Move(f, j)))
  {
    hide HintsOk, PieceOf, FileOk;
    var s' := Step(s, Move(f, j));
    SameHints(s, s');
    forall x, g, t, r | x in s'.at && g in s'.at && s'.at[x] < s'.at[g] && t in x.tombs && r in g.recs && Over(t, r.key) ensures r.orig < t.sn {
      Touch(x, g, t, r);
    }
  }

  lemma StepNewTable(s: State, i: int, f: File)
    requires Inv(s)
    ensures Inv(Step(s, NewTable(i, f)))
  {
    hide HintsOk, FileOk, PieceOf;
    var s' := Step(s, NewTable(i, f));
    if Arrives(s, f) && Clear(s, i, f) {
      forall x, g, t, r | x in s'.at && g in s'.at && s'.at[x] < s'.at[g] && t in x.tombs && r in g.recs && Over(t, r.key) ensures r.orig < t.sn {
        Touch(x, g, t, r);
      }
      NewRecorded(s, s', f);
      NewHints(s, s', f);
      NewUnzeroed(s, s', f);
    }
  }

  ghost predicate Gains(s: State, s': State, f: File) {
    && Inv(s) && Arrives(s, f) && s' == s.(at := s'.at, history := s.history + f.tombs)
    && f in s'.at && s'.at.Keys == s.at.Keys + {f}
  }

  lemma NewRecorded(s: State, s': State, f: File)
    requires Gains(s, s', f)
    ensures Recorded(s')
  {
    forall g, t | g in s'.at && t in g.tombs ensures PieceOf(s'.history, t) {
      if g == f { assert t in s'.history; } else { assert PieceOf(s.history, t); }
    }
  }

  lemma NewUnzeroed(s: State, s': State, f: File)
    requires Gains(s, s', f)
    ensures Unzeroed(s')
  {
    hide HintsOk, FileOk, PieceOf;
    forall x, g, t, r | x in s'.at && g in s'.at && t in x.tombs && r in g.recs && Over(t, r.key) && t.sn <= r.orig ensures r.sn == r.orig {
      assert g == f || g in s.at;
    }
  }

  lemma NewHints(s: State, s': State, f: File)
    requires Gains(s, s', f)
    ensures HintsOk(s')
  {
    hide Tables, TombOrder, Unzeroed, Recorded;
    forall h | h in s'.hints + s'.scanned ensures Backed(s', h) {
      forall k: Key | h.start <= k < h.end ensures Covering(s'.history, h, k) { assert Covering(s.history, h, k); }
    }
    forall h | h in s'.hints ensures Honest(s', h) {
      forall g, r | g in s'.at && r in g.recs && h.start <= r.key < h.end && r.sn < h.smallest ensures DeletedBy(s', h, r) {
        assert Covering(s.history, h, r.key);
        assert g in s.at;
        assert DeletedBy(s, h, r);
      }
    }
  }

  // Compactions

  ghost predicate Compacts(s: State, s': State, j: int, ins: set<File>, outs: set<File>, lo: Key, hi: Key, zeroes: bool, taken: seq<nat>) {
    && Inv(s) && CompactOk(s, j, ins, outs, lo, hi, zeroes, taken)
    && s' == s.(at := Replace(s.at, ins, outs, j),
                hints := if zeroes then (set h | h in s.hints && Survives(h, ins, lo, hi)) else s.hints)
  }

  /** Where a record of the new version comes from. */
  lemma RecFrom(s: State, s': State, j: int, ins: set<File>, outs: set<File>, lo: Key, hi: Key, zeroes: bool, taken: seq<nat>, g: File, r: Rec)
    returns (g0: File, r0: Rec)
    requires Compacts(s, s', j, ins, outs, lo, hi, zeroes, taken) && g in s'.at && r in g.recs
    ensures g0 in s.at && r0 in g0.recs && r0.key == r.key && r0.orig == r.orig && s.at[g0] <= s'.at[g] && Ascending(taken)
    ensures if g in outs then g0 in ins && s'.at[g] == j && (r0.sn == r.sn || (zeroes && r.sn == 0 && Stripe(r0.sn, taken) == 0))
            else g0 == g && r0 == r && s'.at[g] == s.at[g] && g !in ins
  {
    hide Tables, TombOrder, Unzeroed, Recorded, HintsOk, Survives, FileOk;
    if g in outs {
      assert FromRec(s, ins, zeroes, taken, r);
      g0, r0 :| g0 in ins && r0 in g0.recs && r0.key == r.key && r0.orig == r.orig
                && (r0.sn == r.sn || (zeroes && r.sn == 0 && Stripe(r0.sn, taken) == 0));
    } else {
      g0, r0 := g, r;
    }
  }

  lemma TombFrom(s: State, s': State, j: int, ins: set<File>, outs: set<File>, lo: Key, hi: Key, zeroes: bool, taken: seq<nat>, f: File, t: Tombstone)
    returns (f0: File, t0: Tombstone)
    requires Compacts(s, s', j, ins, outs, lo, hi, zeroes, taken) && f in s'.at && t in f.tombs
    ensures f0 in s.at && t0 in f0.tombs && t0.start <= t.start && t.end <= t0.end && t0.sn == t.sn && s.at[f0] <= s'.at[f]
    ensures if f in outs then s'.at[f] == j && (zeroes ==> Stripe(t.sn, taken) != 0)
            else f0 == f && t0 == t && s'.at[f] == s.at[f] && f !in ins
  {
    hide Tables, TombOrder, Unzeroed, Recorded, HintsOk, Survives, FileOk;
    if f in outs {
      assert FromTomb(s, ins, zeroes, taken, t);
      f0, t0 :| f0 in ins && t0 in f0.tombs && t0.start <= t.start && t.end <= t0.end && t0.sn == t.sn;
    } else {
      f0, t0 := f, t;
    }
  }

  /** A table that a compaction leaves behind, above its output run, has deleted
      what it has deleted of an input later than it was written. */
  lemma LeftBehind(s: State, s': State, j: int, ins: set<File>, outs: set<File>, lo: Key, hi: Key, zeroes: bool, taken: seq<nat>,
                   x: File, t: Tombstone, g0: File, r0: Rec)
    requires Compacts(s, s', j, ins, outs, lo, hi, zeroes, taken)
    requires x in s.at && x !in ins && t in x.tombs && g0 in ins && r0 in g0.recs && Over(t, r0.key)
    ensures s.at[x] <= j ==> r0.orig < t.sn
    ensures zeroes ==> s.at[x] <= j
  {
    hide Unzeroed, Recorded, HintsOk, Survives, OutputsOk, FileOk;
    assert FileOk(x) && FileOk(g0);
    Touch(x, g0, t, r0);
  }

  lemma CompactOrder(s: State, s': State, j: int, ins: set<File>, outs: set<File>, lo: Key, hi: Key, zeroes: bool, taken: seq<nat>)
    requires Compacts(s, s', j, ins, outs, lo, hi, zeroes, taken)
    ensures TombOrder(s')
  {
    hide Tables, Unzeroed, Recorded, HintsOk, Survives, CompactOk, Replace;
    forall x, g, t, r | x in s'.at && g in s'.at && s'.at[x] < s'.at[g] && t in x.tombs && r in g.recs && Over(t, r.key) ensures r.orig < t.sn {
      var g0, r0 := RecFrom(s, s', j, ins, outs, lo, hi, zeroes, taken, g, r);
      var x0, t0 := TombFrom(s, s', j, ins, outs, lo, hi, zeroes, taken, x, t);
      if x !in outs && g in outs { LeftBehind(s, s', j, ins, outs, lo, hi, zeroes, taken, x, t, g0, r0); }
    }
  }

  lemma CompactUnzeroed(s: State, s': State, j: int, ins: set<File>, outs: set<File>, lo: Key, hi: Key, zeroes: bool, taken: seq<nat>)
    requires Compacts(s, s', j, ins, outs, lo, hi, zeroes, taken)
    ensures Unzeroed(s')
  {
    hide Tables, TombOrder, Recorded, HintsOk, Survives, CompactOk, Replace, Ascending;
    forall x, g, t, r | x in s'.at && g in s'.at && t in x.tombs && r in g.recs && Over(t, r.key) && t.sn <= r.orig ensures r.sn == r.orig {
      var g0, r0 := RecFrom(s, s', j, ins, outs, lo, hi, zeroes, taken, g, r);
      var x0, t0 := TombFrom(s, s', j, ins, outs, lo, hi, zeroes, taken, x, t);
      assert r0.sn == r0.orig;
      StripeMonotone(t.sn, r0.sn, taken);
      if x !in outs && g in outs { LeftBehind(s, s', j, ins, outs, lo, hi, zeroes, taken, x, t, g0, r0); }
    }
  }

  lemma CompactTables(s: State, s': State, j: int, ins: set<File>, outs: set<File>, lo: Key, hi: Key, zeroes: bool, taken: seq<nat>)
    requires Compacts(s, s', j, ins, outs, lo, hi, zeroes, taken)
    ensures Tables(s') && Recorded(s')
  {
    hide TombOrder, Unzeroed, HintsOk, Survives, FileOk, FromRec, FromTomb;
    forall f, t | f in s'.at && t in f.tombs ensures PieceOf(s'.history, t) {
      var f0, t0 := TombFrom(s, s', j, ins, outs, lo, hi, zeroes, taken, f, t);
      assert PieceOf(s.history, t0);
    }
  }

  lemma CompactHints(s: State, s': State, j: int, ins: set<File>, outs: set<File>, lo: Key, hi: Key, zeroes: bool, taken: seq<nat>)
    requires Compacts(s, s', j, ins, outs, lo, hi, zeroes, taken)
    ensures HintsOk(s')
  {
    hide TombOrder, Unzeroed, Recorded, Replace, OutputsOk, Covering;
    forall h | h in s'.hints ensures Backed(s', h) && Honest(s', h) {
      assert Backed(s, h) && Honest(s, h);
      forall g, r | g in s'.at && r in g.recs && h.start <= r.key < h.end && r.sn < h.smallest ensures DeletedBy(s', h, r) {
        var g0, r0 := RecFrom(s, s', j, ins, outs, lo, hi, zeroes, taken, g, r);
        assert FileOk(g0);
        assert r0.sn < h.smallest;
        assert DeletedBy(s, h, r0);
      }
    }
    forall h | h in s'.scanned ensures Backed(s', h) { assert Backed(s, h); }
  }

  lemma StepCompact(s: State, j: int, ins: set<File>, outs: set<File>, lo: Key, hi: Key, zeroes: bool, taken: seq<nat>)
    requires Inv(s)
    ensures Inv(Step(s, Compact(j, ins, outs, lo, hi, zeroes, taken)))
  {
    hide Tables, TombOrder, Unzeroed, Recorded, HintsOk, CompactOk, Survives, Replace;
    var s' := Step(s, Compact(j, ins, outs, lo, hi, zeroes, taken));
    if CompactOk(s, j, ins, outs, lo, hi, zeroes, taken) {
      CompactTables(s, s', j, ins, outs, lo, hi, zeroes, taken);
      CompactOrder(s, s', j, ins, outs, lo, hi, zeroes, taken);
      CompactUnzeroed(s, s', j, ins, outs, lo, hi, zeroes, taken);
      CompactHints(s, s', j, ins, outs, lo, hi, zeroes, taken);
    }
  }

  // Hints

  lemma PieceIsOver(ts: set<Tombstone>, t: Tombstone, k: Key) returns (x: Tombstone)
    requires PieceOf(ts, t) && Over(t, k)
    ensures x in ts && Over(x, k) && x.sn == t.sn
  {
    x :| x in ts && x.start <= t.start && t.end <= x.end && x.sn == t.sn;
  }

  /** What a table's tombstones say is in the history. */
  lemma ScanBacked(s: State, h: Hint)
    requires Inv(s) && h.file in s.at && Describes(h)
    ensures Backed(s, h)
  {
    hide Tables, TombOrder, Unzeroed, HintsOk;
    forall k: Key | h.start <= k < h.end ensures Covering(s.history, h, k) {
      assert Covering(h.file.tombs, h, k);
      var t :| t in h.file.tombs && Over(t, k) && h.smallest <= t.sn <= h.largest;
      var x := PieceIsOver(s.history, t, k);
    }
  }

  /** A hint whose table is still there is honest, whatever was compacted since the
      table was read. */
  lemma FreshHintIsHonest(s: State, h: Hint)
    requires Inv(s) && h.file in s.at && Describes(h)
    ensures Honest(s, h)
  {
    hide Tables, TombOrder, HintsOk;
    forall g, r | g in s.at && r in g.recs && h.start <= r.key < h.end && r.sn < h.smallest ensures DeletedBy(s, h, r) {
      assert Covering(h.file.tombs, h, r.key);
      var t :| t in h.file.tombs && Over(t, r.key) && h.smallest <= t.sn <= h.largest;
      var x := PieceIsOver(s.history, t, r.key);
      assert r.orig < x.sn <= h.largest;
    }
  }

  lemma StepHint(s: State, e: Event)
    requires Inv(s) && (e.Scan? || e.AddHint? || e.DropHint?)
    ensures Inv(Step(s, e))
  {
    hide Tables, TombOrder, Unzeroed, Recorded, Honest, Backed, Describes;
    var s' := Step(s, e);
    assert Tables(s') && TombOrder(s') && Unzeroed(s') && Recorded(s') by { SameButHints(s, s'); }
    if h: Hint :| h in s'.scanned && h !in s.scanned { ScanBacked(s, h); }
    forall h | h in s'.scanned ensures Backed(s', h) && Describes(h) {
      if h !in s.scanned { ScanBacked(s, h); }
      SameBacking(s, s', h);
    }
    forall h | h in s'.hints ensures Backed(s', h) && Honest(s', h) {
      if h !in s.hints { FreshHintIsHonest(s, h); }
      SameBacking(s, s', h);
    }
  }

  lemma SameButHints(s: State, s': State)
    requires Tables(s) && TombOrder(s) && Unzeroed(s) && Recorded(s) && s' == s.(hints := s'.hints, scanned := s'.scanned)
    ensures Tables(s') && TombOrder(s') && Unzeroed(s') && Recorded(s')
  {
  }

  lemma SameBacking(s: State, s': State, h: Hint)
    requires s'.at == s.at && s'.history == s.history
    ensures Backed(s', h) == Backed(s, h) && Honest(s', h) == Honest(s, h)
  {
    assert forall r :: DeletedBy(s', h, r) == DeletedBy(s, h, r);
  }

  lemma StepSnapshots(s: State, e: Event)
    requires Inv(s) && (e.OpenSnapshot? || e.CloseSnapshot? || e.Advance?)
    ensures Inv(Step(s, e))
  {
    hide TombOrder, Unzeroed, Recorded, Tables, HintsOk;
    var s' := Step(s, e);
    assert Tables(s') && TombOrder(s') && Unzeroed(s') && Recorded(s') && HintsOk(s') by { SameTables(s, s'); }
  }

  lemma SameTables(s: State, s': State)
    requires Tables(s) && TombOrder(s) && Unzeroed(s) && Recorded(s) && HintsOk(s) && s' == s.(snaps := s'.snaps, nextSn := s'.nextSn)
    ensures Tables(s') && TombOrder(s') && Unzeroed(s') && Recorded(s') && HintsOk(s')
  {
    SameHints(s, s');
  }

  lemma StepInv(s: State, e: Event)
    requires Inv(s)
    ensures Inv(Step(s, e))
  {
    hide Inv, Step;
    match e
    case NewTable(i, f) => StepNewTable(s, i, f);
    case Compact(j, ins, outs, lo, hi, zeroes, taken) => StepCompact(s, j, ins, outs, lo, hi, zeroes, taken);
    case Move(f, j) => StepMove(s, f, j);
    case Scan(_) => StepHint(s, e);
    case AddHint(_) => StepHint(s, e);
    case DropHint(_) => StepHint(s, e);
    case Resolve(h, files) => StepResolve(s, h, files);
    case OpenSnapshot => StepSnapshots(s, e);
    case CloseSnapshot(_) => StepSnapshots(s, e);
    case Advance => StepSnapshots(s, e);
  }

  /** The state after a run from an empty store. */
  ghost function Reached(es: seq<Event>): (s: State)
    ensures Inv(s)
  {
    if es == [] then State(map[], [], 0, {}, {}, {})
    else
      var s := Reached(es[..|es| - 1]);
      StepInv(s, es[|es| - 1]);
      Step(s, es[|es| - 1])
  }

  // ---------------------------------------------------------------------
  // What a hint lets go
  // ---------------------------------------------------------------------

  /** At a snapshot a record is not visible, or a visible tombstone is over it. */
  predicate DeadAt(s: State, r: Rec, snap: nat) {
    snap <= r.orig || exists t :: t in s.history && Over(t, r.key) && r.orig < t.sn < snap
  }

  /** In every run, a table that a hint lets go holds only records that are dead at
      every open snapshot and for every later reader. */
  lemma HintsDropOnlyTheDead(es: seq<Event>, h: Hint, m: File, r: Rec, snap: nat)
    requires var s := Reached(es); h in s.hints && m in s.at && CanDelete(h, m, s.snaps) && r in m.recs
    requires snap in Reached(es).snaps || Reached(es).nextSn <= snap
    ensures DeadAt(Reached(es), r, snap)
  {
    hide TombOrder, Unzeroed, Recorded, Reached;
    var s := Reached(es);
    assert FileOk(m) && Honest(s, h);
    assert r.sn < h.smallest && h.start <= r.key < h.end;
    assert DeletedBy(s, h, r);
    var t :| t in s.history && Over(t, r.key) && r.orig < t.sn <= h.largest;
    if snap in s.snaps {
      SameStripeSameVisibility(h.largest, m.smallestSn, s.snaps, snap);
    }
  }

  /** Without the check that the hint's table is still there, a hint could let go a
      table with a live record: here the tombstone is gone, and a newer record
      under it has been zeroed since. */
  lemma StaleHintWouldDropTheLiving() returns (s: State, h: Hint, m: File, r: Rec)
    ensures Inv(s) && Backed(s, h) && h.file !in s.at && m in s.at && r in m.recs && CanDelete(h, m, s.snaps)
    ensures !DeadAt(s, r, s.nextSn)
  {
    var t := Tombstone(0.0, 10.0, 5);
    var gone := File(1, 0.0, 10.0, {}, {t}, 5, 5);
    r := Rec(1.0, 0, 7);
    m := File(2, 1.0, 1.0, {r}, {}, 0, 0);
    h := Hint(0.0, 10.0, 5, gone, 5, 5, 0);
    s := State(map[m := 6], [], 9, {}, {}, {t});
    forall k: Key | h.start <= k < h.end ensures Covering(s.history, h, k) {
      assert t in s.history && Over(t, k);
    }
  }

  // ---------------------------------------------------------------------
  // The hint lists
  // ---------------------------------------------------------------------

  function SetOf(fs: seq<File>): set<File> { set f | f in fs }

  /** maybeUpdateDeleteCompactionHints keeps exactly the hints that survive. */
  method UpdateHints(hints: seq<Hint>, ins: seq<File>, lo: Key, hi: Key, zeroes: bool) returns (kept: seq<Hint>)
    ensures forall h :: h in kept <==> h in hints && (zeroes ==> Survives(h, SetOf(ins), lo, hi))
    ensures forall h :: h in kept <==>
              h in hints && (!zeroes || h.end < lo || hi < h.start || forall f | f in ins :: f.largestSn < h.smallest)
  {
    if !zeroes { return hints; }
    kept := [];
    for i := 0 to |hints|
      invariant forall h :: h in kept <==> h in hints[..i] && Survives(h, SetOf(ins), lo, hi)
    {
      var h := hints[i];
      var inputsOlder := true;
      for n := 0 to |ins|
        invariant inputsOlder <==> forall f | f in ins[..n] :: f.largestSn < h.smallest
      {
        inputsOlder := inputsOlder && ins[n].largestSn < h.smallest;
      }
      assert ins[..|ins|] == ins;
      if h.end < lo || hi < h.start || inputsOlder { kept := kept + [h]; }
    }
    assert hints[..|hints|] == hints;
  }

  predicate Resolvable(h: Hint, snaps: seq<nat>) {
    Stripe(h.largest, snaps) == Stripe(h.fileSmallest, snaps)
  }

  /** A snapshot separates two numbers: it sees one of the two and not the other. */
  predicate Splits(snap: nat, a: nat, b: nat) {
    a < snap <= b || b < snap <= a
  }

  lemma SameStripeIffNoneSplits(a: nat, b: nat, snaps: seq<nat>)
    requires Ascending(snaps)
    ensures Stripe(a, snaps) == Stripe(b, snaps) <==> forall s | s in snaps :: !Splits(s, a, b)
  {
    if Stripe(a, snaps) == Stripe(b, snaps) {
      forall s | s in snaps ensures !Splits(s, a, b) { SameStripeSameVisibility(a, b, snaps, s); }
    } else {
      var i := if Stripe(a, snaps) < Stripe(b, snaps) then Stripe(a, snaps) else Stripe(b, snaps);
      StripeSees(a, snaps, i);
      StripeSees(b, snaps, i);
      assert Splits(snaps[i], a, b);
    }
  }

  /** It separates the hint's newest tombstone from the oldest of what it covers. */
  predicate Separates(snap: nat, h: Hint) {
    Splits(snap, h.fileSmallest, h.largest)
  }

  /** A hint can be resolved exactly when no open snapshot separates the two. */
  lemma ResolvableIffNoneSeparates(h: Hint, snaps: seq<nat>)
    requires Ascending(snaps)
    ensures Resolvable(h, snaps) <==> forall s | s in snaps :: !Separates(s, h)
  {
    SameStripeIffNoneSplits(h.fileSmallest, h.largest, snaps);
  }

  /** A table may go exactly when the hint's keys contain it, its numbers are all below the
      tombstones' and none is older than what the hint was made for, and no snapshot sees
      its oldest record without seeing the newest tombstone. */
  lemma CanDeleteIffAllUnseen(h: Hint, m: File, snaps: seq<nat>)
    requires Ascending(snaps)
    ensures CanDelete(h, m, snaps) <==>
              && h.start <= m.lo && m.hi < h.end
              && h.fileSmallest <= m.smallestSn && m.largestSn < h.smallest
              && forall s | s in snaps :: !Splits(s, m.smallestSn, h.largest)
  {
    SameStripeIffNoneSplits(m.smallestSn, h.largest, snaps);
  }

  /** checkDeleteCompactionHints on the tables of the store: the tables chosen are those
      that are free and that a hint whose stripes have come together lets go, below the
      hint's level. Such hints are used up: those that no open snapshot keeps apart. */
  method CheckHints(hints: seq<Hint>, levels: seq<seq<File>>, busy: set<File>, snaps: seq<nat>)
    returns (byLevel: seq<seq<File>>, unresolved: seq<Hint>)
    ensures forall h :: h in unresolved <==> h in hints && !Resolvable(h, snaps)
    ensures Ascending(snaps) ==> forall h :: h in unresolved <==> h in hints && exists s :: s in snaps && Separates(s, h)
    ensures |byLevel| == |levels| && forall l | 0 <= l < |levels| :: DeleteOnly.Once(byLevel[l])
    ensures forall l, m | 0 <= l < |levels| ::
              m in byLevel[l] <==> m in levels[l] && m !in busy && exists h :: h in hints && Resolvable(h, snaps) && h.level < l && CanDelete(h, m, snaps)
  {
    var isBusy, resolvable := (m: File) => m in busy, (h: Hint) => Resolvable(h, snaps);
    var above, lets := (h: Hint) => h.level, (h: Hint, m: File) => CanDelete(h, m, snaps);
    byLevel, unresolved := DeleteOnly.CheckHints(hints, levels, isBusy, resolvable, above, lets);
    if Ascending(snaps) {
      forall h: Hint ensures Resolvable(h, snaps) <==> forall s | s in snaps :: !Separates(s, h) { ResolvableIffNoneSeparates(h, snaps); }
    }
    forall l | 0 <= l < |levels| ensures DeleteOnly.Once(byLevel[l]) {
      assert DeleteOnly.ChosenAt(hints, l, levels[l], isBusy, resolvable, above, lets, byLevel[l]);
    }
    forall l, m | 0 <= l < |levels|
      ensures m in byLevel[l] <==> m in levels[l] && m !in busy && exists h :: h in hints && Resolvable(h, snaps) && h.level < l && CanDelete(h, m, snaps)
    {
      assert DeleteOnly.ChosenAt(hints, l, levels[l], isBusy, resolvable, above, lets, byLevel[l]);
      LetGoIs(hints, snaps, resolvable, above, lets, l, m);
    }
  }

  lemma LetGoIs(hints: seq<Hint>, snaps: seq<nat>, resolvable: Hint -> bool, above: Hint -> nat, lets: (Hint, File) -> bool, l: nat, m: File)
    requires forall h: Hint :: resolvable(h) == Resolvable(h, snaps) && above(h) == h.level && lets(h, m) == CanDelete(h, m, snaps)
    ensures DeleteOnly.LetGo(hints, resolvable, above, lets, l, m) <==>
              exists h :: h in hints && Resolvable(h, snaps) && h.level < l && CanDelete(h, m, snaps)
  {
    hide CanDelete, Resolvable;
    if h :| h in hints && Resolvable(h, snaps) && h.level < l && CanDelete(h, m, snaps) {
      assert resolvable(h) && above(h) < l && lets(h, m);
    }
    if DeleteOnly.LetGo(hints, resolvable, above, lets, l, m) {
      var h :| h in hints && resolvable(h) && above(h) < l && lets(h, m);
      assert Resolvable(h, snaps) && CanDelete(h, m, snaps);
    }
  }
}
