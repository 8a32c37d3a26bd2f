/**
Ingestion among compactions (ingest.go, compaction.go): the level that is chosen for a
table is one at which the scheduler's state machine lets the table come in, whatever
compactions are under way.
*/
module IngestSchedule {
  import opened Options
  import opened Lsm
  import opened InUseRanges
  import opened Compactions
  import Scheduling
  import Tables

  /** The bounds of a file as user keys. */
  function TableOf(f: Meta): Table {
    Table(f.smallest.user, f.largest.user, f.largest.tail == 0)
  }

  /** Every compaction in progress that writes to a level is in the list, with the user
      keys of its bounds. */
  ghost predicate Listed(s: State, busy: seq<Tables.Busy>) {
    forall id | id in s.running && s.running[id].output.Some? ::
      Tables.Busy(s.running[id].output.value, s.running[id].smallest.user, s.running[id].largest.user) in busy
  }

  /** A table may come into the level that ingestTargetLevel has chosen for it, when no
      table of the level is in its way, which a split sees to if need be: no compaction in
      progress will write a user key of it. */
  lemma TargetEnablesIngest(s: State, busy: seq<Tables.Busy>, f: Meta, level: nat)
    requires s.next <= f.num && MetaOk(f) && Listed(s, busy) && level > 0 && !Tables.Clashes(busy, level, TableOf(f))
    requires forall g | g in s.version && s.version[g] == level :: MetaOk(g) && !Tables.BoundsMeet(TableOf(g), TableOf(f))
    ensures Scheduling.Enabled(s, Scheduling.Ingest(f, level))
  {
    forall g | g in s.version && s.version[g] == level ensures FilesApart(f, g) {
      assert !Tables.BoundsMeet(TableOf(g), TableOf(f));
    }
    forall id | Wanted(s, id) && s.running[id].output == Some(level) ensures !Reaches(s.running[id], f) {
      var c := s.running[id];
      var b := Tables.Busy(level, c.smallest.user, c.largest.user);
      assert b in busy;
      var i :| 0 <= i < |busy| && busy[i] == b;
    }
  }

  lemma NoneMeets(ts: seq<Tables.Sst>, m: Table, i: nat)
    requires Tables.BoundaryOverlaps(ts, m) == [] && i < |ts|
    ensures !Tables.BoundsMeet(Tables.BoundsOf(ts[i]), m)
  {
  }

  /** So after TargetLevel has given a level below L0 without a split, the table may come
      into it. */
  lemma ChosenLevelIsOpen(s: State, levels: seq<seq<Tables.Sst>>, busy: seq<Tables.Busy>, f: Meta, target: nat, suggestSplit: bool)
    requires s.next <= f.num && MetaOk(f) && Listed(s, busy) && 0 < target < |levels|
    requires Tables.HasRoom(levels[target], target, busy, TableOf(f), suggestSplit) && Tables.BoundaryOverlaps(levels[target], TableOf(f)) == []
    requires forall g | g in s.version && s.version[g] == target :: MetaOk(g) && exists i :: 0 <= i < |levels[target]| && Tables.BoundsOf(levels[target][i]) == TableOf(g)
    ensures Scheduling.Enabled(s, Scheduling.Ingest(f, target))
  {
    hide Tables.BoundsMeet, Tables.BoundsOf, Tables.BoundaryOverlaps, Tables.Clashes;
    forall g | g in s.version && s.version[g] == target ensures !Tables.BoundsMeet(TableOf(g), TableOf(f)) {
      var i :| 0 <= i < |levels[target]| && Tables.BoundsOf(levels[target][i]) == TableOf(g);
      NoneMeets(levels[target], TableOf(f), i);
    }
    TargetEnablesIngest(s, busy, f, target);
  }
}
