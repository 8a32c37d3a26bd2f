/**
Scheduling compactions (compaction.go, compaction_picker.go): which files are
marked as compacting, which compactions may run together, and why the files of a
level stay apart whatever finishes, fails or is ingested in between. A run is any
sequence of the steps that happen under the store's mutex.
*/
module Scheduling {
  import opened Options
  import opened Lsm
  import opened Compactions
  import opened Picking

  /** A compaction from L0 can meet another one at a user key, and so can one that is
      picked while another one runs over three levels. */
  predicate MayMeet(c: Compaction, running: Compaction) {
    0 in c.levels || 0 in running.levels || |running.levels| > 2
  }

  /** Where the compaction may meet another one that writes to the same level, it does not. */
  ghost predicate NoTouch(s: State, c: Compaction) {
    c.output.Some? && c.output.value > 0 ==>
      forall id | Wanted(s, id) && s.running[id].output == c.output && MayMeet(c, s.running[id]) :: UsersApart(c, s.running[id])
  }

  /** Files with new numbers that have no user key in common. */
  predicate NewFiles(s: State, fs: set<Meta>) {
    && (forall f | f in fs :: s.next <= f.num && MetaOk(f))
    && (forall f, g | f in fs && g in fs && f != g :: f.num != g.num && FilesApart(f, g))
  }

  predicate OutputsOk(s: State, c: Compaction, outputs: set<Meta>) {
    && (if c.move then outputs == Inputs(c) else NewFiles(s, outputs))
    && (if c.output.None? then outputs == {} else forall f | f in outputs :: Within(c, f))
  }

  datatype Event =
    | Start(id: nat, path: Path, c: Compaction)
    | Finish(id: nat, outputs: set<Meta>)
    | Fail(id: nat)
    | Remove(id: nat)
    | Flush(files: set<Meta>)
    | Ingest(f: Meta, level: nat)
    | Split(f: Meta, parts: set<Meta>)
    | Cancel(id: nat)

  function At(fs: set<Meta>, level: nat): map<Meta, nat> {
    map f | f in fs :: level
  }

  function CancelInputOf(running: map<nat, Compaction>, f: Meta): map<nat, Compaction> {
    map id | id in running :: if f in Inputs(running[id]) && !running[id].applied then running[id].(cancelled := true) else running[id]
  }

  ghost predicate Enabled(s: State, ev: Event) {
    match ev
    case Start(id, path, c) => id !in s.running && PickOk(s, path, c)
    case Finish(id, outputs) => Wanted(s, id) && OutputsOk(s, s.running[id], outputs)
    case Fail(id) => Active(s, id)
    case Remove(id) => id in s.running && s.running[id].applied
    case Flush(files) => (forall f | f in files :: s.next <= f.num && MetaOk(f)) && (forall f, g | f in files && g in files && f != g :: f.num != g.num)
    case Ingest(f, level) =>
      && s.next <= f.num && MetaOk(f)
      && (level > 0 ==> && (forall g | g in s.version && s.version[g] == level :: FilesApart(f, g))
                        && (forall id | Wanted(s, id) && s.running[id].output == Some(level) :: !Reaches(s.running[id], f)))
    case Split(f, parts) =>
      f in s.version && NewFiles(s, parts) && forall g | g in parts :: !Less(g.smallest, f.smallest) && !Less(f.largest, g.largest)
    case Cancel(id) => Active(s, id)
  }

  /** What an event does. File numbers only go up. */
  ghost predicate Step(s: State, ev: Event, s': State) {
    && Enabled(s, ev) && s.next <= s'.next && (forall f | f in s'.version :: f.num < s'.next || f in s.version)
    && match ev
       case Start(id, _, c) =>
         s'.version == s.version && s'.running == s.running[id := c] && s'.marks == Marked(s.marks, Nums(c), Compacting)
       case Finish(id, outputs) =>
         var c := s.running[id];
         && s'.version == (s.version - Inputs(c)) + At(outputs, if c.output.Some? then c.output.value else 0)
         && s'.running == s.running[id := c.(applied := true)]
         && s'.marks == Marked(s.marks, Nums(c), if c.move then NotCompacting else Compacted)
       case Fail(id) =>
         var c := s.running[id];
         s'.version == s.version && s'.running == s.running[id := c.(applied := true)] && s'.marks == Marked(s.marks, Nums(c), NotCompacting)
       case Remove(id) => s'.version == s.version && s'.running == s.running - {id} && s'.marks == s.marks
       case Flush(files) => s'.version == s.version + At(files, 0) && s'.running == s.running && s'.marks == s.marks
       case Ingest(f, level) => s'.version == s.version[f := level] && s'.running == s.running && s'.marks == s.marks
       case Split(f, parts) =>
         s'.version == (s.version - {f}) + At(parts, s.version[f]) && s'.running == CancelInputOf(s.running, f) && s'.marks == s.marks
       case Cancel(id) =>
         s'.version == s.version && s'.running == s.running[id := s.running[id].(cancelled := true)] && s'.marks == s.marks
  }

  // ---------------------------------------------------------------------
  // The invariant
  // ---------------------------------------------------------------------

  /** The active compactions divide the marked files among them. */
  ghost predicate MarksOk(s: State) {
    && (forall id | Active(s, id) :: Distinct(s.running[id]))
    && (forall id, n | Active(s, id) && n in Nums(s.running[id]) :: MarkOf(s, n).Compacting?)
    && (forall n | MarkOf(s, n).Compacting? :: exists id :: Active(s, id) && n in Nums(s.running[id]))
    && (forall id, jd, n | Active(s, id) && Active(s, jd) && n in Nums(s.running[id]) && n in Nums(s.running[jd]) :: id == jd)
  }

  /** Compactions that write to the same level below L0 do so within bounds that lie apart. */
  ghost predicate BoundsOk(s: State) {
    forall id, jd | id in s.running && jd in s.running && id != jd && s.running[id].output == s.running[jd].output
                    && s.running[id].output.Some? && s.running[id].output.value > 0 ::
      BoundsApart(s.running[id], s.running[jd])
  }

  /** What a compaction will remove is in the version, where it was. */
  ghost predicate InputsOk(s: State, id: nat)
    requires id in s.running
  {
    Located(s, s.running[id]) && Formed(s.running[id])
  }

  ghost predicate WantedOk(s: State) {
    forall id | Wanted(s, id) :: InputsOk(s, id)
  }

  ghost predicate Inv(s: State) {
    NumbersOk(s) && MarksOk(s) && BoundsOk(s) && WantedOk(s)
  }

  /** Below L0, the files of a level have no user key in common. */
  ghost predicate LevelsApart(s: State) {
    forall f, g | f in s.version && g in s.version && f != g && s.version[f] == s.version[g] && s.version[f] > 0 :: FilesApart(f, g)
  }

  ghost predicate UsersOk(s: State) {
    forall id, jd | Wanted(s, id) && Wanted(s, jd) && id != jd && s.running[id].output == s.running[jd].output
                    && s.running[id].output.Some? && s.running[id].output.value > 0 ::
      UsersApart(s.running[id], s.running[jd])
  }

  ghost predicate AllTaken(s: State) {
    forall id | Wanted(s, id) :: TakesAll(s, s.running[id])
  }

  /** What keeps the levels in order. */
  ghost predicate Tidy(s: State) {
    LevelsApart(s) && UsersOk(s) && AllTaken(s)
  }

  // ---------------------------------------------------------------------
  // Every step keeps it
  // ---------------------------------------------------------------------

  /** A running compaction keeps what it was started with. */
  predicate SameWork(c: Compaction, d: Compaction) {
    c.inputs == d.inputs && c.levels == d.levels && c.output == d.output && c.smallest == d.smallest && c.largest == d.largest && c.move == d.move
  }

  lemma SameInputs(c: Compaction, d: Compaction)
    requires SameWork(c, d)
    ensures Inputs(c) == Inputs(d) && Nums(c) == Nums(d) && Distinct(c) == Distinct(d)
    ensures forall f :: Reaches(c, f) == Reaches(d, f)
    ensures forall e :: BoundsApart(c, e) == BoundsApart(d, e) && UsersApart(c, e) == UsersApart(d, e)
  {
  }

  /** Steps other than Start only change the flags of running compactions. */
  lemma WorkKept(s: State, ev: Event, s': State, id: nat)
    requires Step(s, ev, s') && id in s'.running
    ensures !(ev.Start? && ev.id == id) ==> id in s.running && SameWork(s.running[id], s'.running[id])
    ensures !(ev.Start? && ev.id == id) && Active(s', id) ==> Active(s, id)
    ensures !(ev.Start? && ev.id == id) && Wanted(s', id) ==> Wanted(s, id) && (ev.Finish? ==> id != ev.id)
    ensures ev.Finish? || ev.Fail? ==> (Active(s', id) <==> Active(s, id) && id != ev.id)
    ensures ev.Split? && Wanted(s', id) ==> ev.f !in Inputs(s.running[id])
    ensures ev.Start? && ev.id == id ==> s'.running[id] == ev.c
  {
  }

  lemma StepBounds(s: State, ev: Event, s': State)
    requires Inv(s) && Step(s, ev, s')
    ensures BoundsOk(s')
  {
    hide NumbersOk, MarksOk, WantedOk, Marked, Nums, Inputs, Step, Less, UserBefore;
    forall id, jd | id in s'.running && jd in s'.running && id != jd && s'.running[id].output == s'.running[jd].output
                    && s'.running[id].output.Some? && s'.running[id].output.value > 0
      ensures BoundsApart(s'.running[id], s'.running[jd])
    {
      WorkKept(s, ev, s', id);
      WorkKept(s, ev, s', jd);
      if ev.Start? && (ev.id == id || ev.id == jd) {
        StartBounds(s, ev, s', if ev.id == id then jd else id);
      }
    }
  }

  lemma StartBounds(s: State, ev: Event, s': State, jd: nat)
    requires Step(s, ev, s') && ev.Start? && jd in s.running && s.running[jd].output == ev.c.output
    requires ev.c.output.Some? && ev.c.output.value > 0
    ensures s'.running[ev.id] == ev.c && jd in s'.running && s'.running[jd] == s.running[jd]
    ensures BoundsApart(ev.c, s.running[jd])
  {
    hide PathOk, CanMove, InputsOf, LevelsOf, Nums, Less, UserBefore;
  }

  // Compactions that meet

  lemma LocatedAt(s: State, c: Compaction, x: Meta) returns (l: nat)
    requires Located(s, c) && x in Inputs(c)
    ensures l < |c.inputs| && |c.levels| == |c.inputs| && x in c.inputs[l] && x in s.version && s.version[x] == c.levels[l]
  {
    var m, i :| 0 <= m < |c.inputs| && 0 <= i < |c.inputs[m]| && c.inputs[m][i] == x;
    l := m;
  }

  /** Compactions whose bounds are apart, and yet share a user key, have files that share it. */
  lemma Meeting(s: State, c: Compaction, d: Compaction) returns (x: Meta, y: Meta)
    requires NumbersOk(s) && Located(s, c) && Located(s, d) && Tight(c) && Tight(d) && BoundsApart(c, d) && !UsersApart(c, d)
    ensures x in Inputs(c) && y in Inputs(d) && !FilesApart(x, y)
  {
    hide Inputs, Located, NumbersOk;
    if Less(c.largest, d.smallest) {
      x :| x in Inputs(c) && x.largest == c.largest;
      y :| y in Inputs(d) && y.smallest == d.smallest;
    } else {
      x :| x in Inputs(c) && x.smallest == c.smallest;
      y :| y in Inputs(d) && y.largest == d.largest;
    }
    InputOk(s, c, x);
    InputOk(s, d, y);
  }

  lemma InputOk(s: State, c: Compaction, x: Meta)
    requires NumbersOk(s) && Located(s, c) && x in Inputs(c)
    ensures MetaOk(x) && x in s.version
  {
    hide Nums, MetaOk;
    var l := LocatedAt(s, c, x);
  }

  lemma SharingReaches(d: Compaction, x: Meta, y: Meta)
    requires Tight(d) && y in Inputs(d) && !FilesApart(x, y)
    ensures Reaches(d, x)
  {
    assert !Less(y.smallest, d.smallest) && !Less(d.largest, y.largest);
  }

  lemma CommonConflicts(s: State, c: Compaction, jd: nat, z: Meta)
    requires MarksOk(s) && Active(s, jd) && z in Inputs(c) && z in Inputs(s.running[jd])
    ensures Conflict(s, c)
  {
    hide MarkOf, Inputs, Distinct;
    assert z.num in Nums(s.running[jd]) && z.num in Nums(c);
  }

  /** Files of two compactions into the same level that share a user key: one of them is
      an input of both. */
  lemma SharedIsCommon(s: State, c: Compaction, d: Compaction, x: Meta, y: Meta)
    requires LevelsApart(s) && Located(s, c) && Located(s, d) && Tight(c) && Tight(d) && Neighbouring(c) && Neighbouring(d)
    requires TakesAll(s, c) && TakesAll(s, d) && TakesMiddle(s, c) && |c.levels| <= 3
    requires c.output == d.output && c.output.Some? && c.output.value > 0 && !MayMeet(c, d)
    requires x in Inputs(c) && y in Inputs(d) && !FilesApart(x, y)
    ensures x in Inputs(d) || y in Inputs(c)
  {
    hide FilesApart, Tight, Inputs, Located, Reaches;
    var l := LocatedAt(s, c, x);
    var m := LocatedAt(s, d, y);
    var to := c.output.value;
    Symmetric(x, y);
    if s.version[x] == to {
      SharingReaches(d, x, y);
    } else if s.version[y] == to {
      SharingReaches(c, y, x);
    } else if s.version[x] == s.version[y] {
      assert d.levels[m] in d.levels;
      assert s.version[y] + 1 == to && s.version[y] > 0;
      assert x == y;
    } else {
      assert d.levels[m] in d.levels && c.levels[l] in c.levels;
      assert s.version[y] + 1 == to && |c.levels| == 3 && l == 0;
    }
  }

  lemma Symmetric(x: Meta, y: Meta)
    ensures FilesApart(x, y) == FilesApart(y, x)
  {
  }

  /** In a tidy store, a compaction that passes the gate does not meet another one into the
      same level, if neither is from L0 and the other is not over three levels. */
  lemma NeverMeet(s: State, p: Path, c: Compaction, jd: nat)
    requires Inv(s) && Tidy(s) && PickOk(s, p, c) && Wanted(s, jd) && !MayMeet(c, s.running[jd])
    requires c.output.Some? && c.output.value > 0 && s.running[jd].output == c.output
    ensures UsersApart(c, s.running[jd])
  {
    hide Less, UserBefore, FilesApart, Tight, Inputs, Located, Distinct, TakesAll, TakesMiddle, Neighbouring, MoveIsOne, MayMeet, UsersApart, NumbersOk, LevelsApart, MarksOk, BoundsOk, UsersOk, PathOk, InputsOf, LevelsOf, BoundsApart;
    PickIsSound(s, p, c);
    var d := s.running[jd];
    assert InputsOk(s, jd) && TakesAll(s, d);
    assert !Conflict(s, c) && BoundsApart(c, d);
    if !UsersApart(c, d) {
      var x, y := Meeting(s, c, d);
      SharedIsCommon(s, c, d, x, y);
      CommonConflicts(s, c, jd, if x in Inputs(d) then x else y);
    }
  }

  lemma StepUsers(s: State, ev: Event, s': State)
    requires Inv(s) && Tidy(s) && Step(s, ev, s') && (ev.Start? ==> NoTouch(s, ev.c))
    ensures UsersOk(s')
  {
    hide NumbersOk, MarksOk, WantedOk, Marked, Nums, Inputs, Step, Less, UserBefore, LevelsApart, AllTaken, NoTouch;
    forall id, jd | Wanted(s', id) && Wanted(s', jd) && id != jd && s'.running[id].output == s'.running[jd].output
                    && s'.running[id].output.Some? && s'.running[id].output.value > 0
      ensures UsersApart(s'.running[id], s'.running[jd])
    {
      WorkKept(s, ev, s', id);
      WorkKept(s, ev, s', jd);
      if ev.Start? && (ev.id == id || ev.id == jd) {
        var kd := if ev.id == id then jd else id;
        StartBounds(s, ev, s', kd);
        StartUsers(s, ev, s', kd);
      }
    }
  }

  lemma StartUsers(s: State, ev: Event, s': State, jd: nat)
    requires Inv(s) && Tidy(s) && Step(s, ev, s') && ev.Start? && NoTouch(s, ev.c) && Wanted(s, jd)
    requires s.running[jd].output == ev.c.output && ev.c.output.Some? && ev.c.output.value > 0
    ensures UsersApart(ev.c, s.running[jd])
  {
    hide Inv, Tidy, PickOk, UsersApart, MayMeet;
    if !MayMeet(ev.c, s.running[jd]) { NeverMeet(s, ev.path, ev.c, jd); }
  }

  // Marks

  lemma MarkedAt(s: State, s': State, nums: set<nat>, m: Mark)
    requires s'.marks == Marked(s.marks, nums, m)
    ensures forall n :: MarkOf(s', n) == if n in nums then m else MarkOf(s, n)
  {
  }

  lemma StartMarks(s: State, ev: Event, s': State)
    requires Inv(s) && Step(s, ev, s') && ev.Start?
    ensures MarksOk(s')
  {
    hide NumbersOk, BoundsOk, WantedOk, Marked, Nums, NoTouch, Inputs, Distinct, MarkOf, Step;
    var c := ev.c;
    StartDoes(s, ev, s');
    MarkedAt(s, s', Nums(c), Compacting);
    forall n | MarkOf(s', n).Compacting? ensures exists id :: Active(s', id) && n in Nums(s'.running[id]) {
      if n in Nums(c) {
        assert Active(s', ev.id);
      } else {
        var id :| Active(s, id) && n in Nums(s.running[id]);
        assert Active(s', id);
      }
    }
  }

  /** A compaction starts on files that are not marked, each listed once: that comes from
      how they were picked. */
  lemma StartDoes(s: State, ev: Event, s': State)
    requires Inv(s) && Step(s, ev, s') && ev.Start?
    ensures s'.marks == Marked(s.marks, Nums(ev.c), Compacting) && s'.running == s.running[ev.id := ev.c] && ev.id !in s.running
    ensures (forall n | n in Nums(ev.c) :: !MarkOf(s, n).Compacting?) && Distinct(ev.c) && !ev.c.applied
  {
    hide PickOk, NumbersOk, MarksOk, BoundsOk, WantedOk, Nums, Distinct, Located, Tight, TakesAll, TakesMiddle, Neighbouring, MoveIsOne, MarkOf;
    PickIsSound(s, ev.path, ev.c);
  }

  /** A compaction ends, and its files are no longer marked. */
  lemma EndMarks(s: State, ev: Event, s': State)
    requires Inv(s) && Step(s, ev, s') && (ev.Finish? || ev.Fail?)
    ensures MarksOk(s')
  {
    hide NumbersOk, BoundsOk, WantedOk, Marked, Nums, Inputs, Distinct, MarkOf, Step;
    var m := EndDoes(s, ev, s');
    MarkedAt(s, s', Nums(s.running[ev.id]), m);
    forall n | MarkOf(s', n).Compacting? ensures exists id :: Active(s', id) && n in Nums(s'.running[id]) {
      var id :| Active(s, id) && n in Nums(s.running[id]);
      assert Active(s', id);
    }
  }

  lemma EndDoes(s: State, ev: Event, s': State) returns (m: Mark)
    requires Step(s, ev, s') && (ev.Finish? || ev.Fail?)
    ensures Active(s, ev.id) && !m.Compacting? && s'.marks == Marked(s.marks, Nums(s.running[ev.id]), m)
    ensures forall id :: Active(s', id) <==> Active(s, id) && id != ev.id
    ensures forall id | Active(s', id) :: s'.running[id] == s.running[id]
  {
    hide Nums, OutputsOk;
    m := if ev.Fail? || s.running[ev.id].move then NotCompacting else Compacted;
  }

  /** The other steps neither mark nor unmark. */
  lemma OtherMarks(s: State, ev: Event, s': State)
    requires Inv(s) && Step(s, ev, s') && !ev.Finish? && !ev.Fail? && !ev.Start?
    ensures MarksOk(s')
  {
    hide NumbersOk, BoundsOk, WantedOk, Nums, Inputs, Distinct, MarkOf, Step, Active;
    OthersDo(s, ev, s');
    forall id | Active(s', id) ensures Active(s, id) && Nums(s'.running[id]) == Nums(s.running[id]) && Distinct(s.running[id]) == Distinct(s'.running[id]) {
      SameInputs(s.running[id], s'.running[id]);
    }
    forall n | MarkOf(s', n).Compacting? ensures exists id :: Active(s', id) && n in Nums(s'.running[id]) {
      var id :| Active(s, id) && n in Nums(s.running[id]);
      assert Active(s', id);
    }
  }

  lemma OthersDo(s: State, ev: Event, s': State)
    requires Step(s, ev, s') && !ev.Finish? && !ev.Fail? && !ev.Start?
    ensures forall id :: Active(s', id) <==> Active(s, id)
    ensures forall id | Active(s', id) :: id in s.running && id in s'.running && SameWork(s.running[id], s'.running[id])
    ensures forall n :: MarkOf(s', n) == MarkOf(s, n)
  {
    hide Inputs, NewFiles;
  }

  lemma StepMarks(s: State, ev: Event, s': State)
    requires Inv(s) && Step(s, ev, s')
    ensures MarksOk(s')
  {
    hide Inv, Step, MarksOk;
    if ev.Start? { StartMarks(s, ev, s'); } else if ev.Finish? || ev.Fail? { EndMarks(s, ev, s'); } else { OtherMarks(s, ev, s'); }
  }

  // Files

  /** Where the files of the new version come from. */
  ghost predicate Came(s: State, ev: Event, s': State, f: Meta)
    requires f in s'.version
  {
    || (f in s.version && s'.version[f] == s.version[f])
    || (ev.Finish? && ev.id in s.running && f in ev.outputs && s.running[ev.id].output == Some(s'.version[f]))
    || (ev.Flush? && f in ev.files && s'.version[f] == 0)
    || (ev.Ingest? && f == ev.f && s'.version[f] == ev.level)
    || (ev.Split? && ev.f in s.version && f in ev.parts && s'.version[f] == s.version[ev.f])
  }

  lemma CameFrom(s: State, ev: Event, s': State, f: Meta)
    requires Step(s, ev, s') && f in s'.version
    ensures Came(s, ev, s', f)
    ensures ev.Finish? && f !in ev.outputs ==> f !in Inputs(s.running[ev.id])
    ensures ev.Split? && f !in ev.parts ==> f != ev.f
    ensures ev.Finish? && f in ev.outputs ==> s.running[ev.id].output == Some(s'.version[f])
    ensures ev.Split? && f in ev.parts ==> s'.version[f] == s.version[ev.f]
  {
    hide Marked, Nums, PickOk, NoTouch, CancelInputOf;
  }

  /** A file is new, or was in the version already. */
  lemma NewNumber(s: State, ev: Event, s': State, f: Meta)
    requires Inv(s) && Step(s, ev, s') && f in s'.version
    ensures MetaOk(f) && f.num < s'.next && (f in s.version || s.next <= f.num)
  {
    CameFrom(s, ev, s', f);
    hide Marked, Nums, PickOk, NoTouch, CancelInputOf, LevelsApart, MarksOk, BoundsOk, MetaOk, Inputs, FilesApart;
    if ev.Finish? && f in ev.outputs && s.running[ev.id].move {
      assert InputsOk(s, ev.id);
    }
  }

  lemma TwoFiles(s: State, ev: Event, s': State, f: Meta, g: Meta)
    requires Inv(s) && Step(s, ev, s') && f in s'.version && g in s'.version && f != g
    ensures f.num != g.num
  {
    hide Marked, Nums, PickOk, NoTouch, CancelInputOf, LevelsApart, MarksOk, BoundsOk, MetaOk, Inputs, FilesApart, Within, Reaches, MoveIsOne;
    NewNumber(s, ev, s', f);
    NewNumber(s, ev, s', g);
    if f !in s.version && g !in s.version {
      CameFrom(s, ev, s', f);
      CameFrom(s, ev, s', g);
      if ev.Finish? { MovesNothingNew(s, ev, s', f); }
    }
  }

  lemma MovesNothingNew(s: State, ev: Event, s': State, f: Meta)
    requires Inv(s) && Step(s, ev, s') && ev.Finish? && f in ev.outputs && f !in s.version
    ensures ev.id in s.running && !s.running[ev.id].move
  {
    hide Marked, Nums, MarksOk, BoundsOk, MetaOk, Inputs, FilesApart, Within, Located, NewFiles, Formed;
    assert InputsOk(s, ev.id);
    if f in Inputs(s.running[ev.id]) { InputOk(s, s.running[ev.id], f); }
  }

  lemma StepNumbers(s: State, ev: Event, s': State)
    requires Inv(s) && Step(s, ev, s')
    ensures NumbersOk(s')
  {
    hide Step, Inv, Nums, MetaOk;
    NextGrows(s, ev, s');
    forall f | f in s'.version ensures f.num < s'.next && MetaOk(f) { NewNumber(s, ev, s', f); }
    forall f, g | f in s'.version && g in s'.version && f != g ensures f.num != g.num { TwoFiles(s, ev, s', f, g); }
    forall id, n | Active(s', id) && n in Nums(s'.running[id]) ensures n < s'.next { OldNumber(s, ev, s', id, n); }
    forall n | n in s'.marks ensures n < s'.next { OldMark(s, ev, s', n); }
    assert NumbersOk(s') by { AllNumbers(s'); }
  }

  lemma AllNumbers(s: State)
    requires (forall f | f in s.version :: f.num < s.next && MetaOk(f)) && (forall f, g | f in s.version && g in s.version && f != g :: f.num != g.num)
    requires (forall n | n in s.marks :: n < s.next) && (forall id, n | Active(s, id) && n in Nums(s.running[id]) :: n < s.next)
    ensures NumbersOk(s)
  {
  }

  lemma NextGrows(s: State, ev: Event, s': State)
    requires Step(s, ev, s')
    ensures s.next <= s'.next
  {
  }

  lemma OldNumber(s: State, ev: Event, s': State, id: nat, n: nat)
    requires Inv(s) && Step(s, ev, s') && Active(s', id) && n in Nums(s'.running[id])
    ensures n < s.next
  {
    WorkKept(s, ev, s', id);
    if ev.Start? && ev.id == id {
      StartNumber(s, ev, n);
    } else {
      SameInputs(s.running[id], s'.running[id]);
    }
  }

  lemma StartNumber(s: State, ev: Event, n: nat)
    requires Inv(s) && ev.Start? && Enabled(s, ev) && n in Nums(ev.c)
    ensures n < s.next
  {
    hide PickOk, LevelsApart, MarksOk, BoundsOk, WantedOk, NoTouch, Distinct, Located, Tight, TakesAll, TakesMiddle, Neighbouring, MoveIsOne, MarkOf;
    PickIsSound(s, ev.path, ev.c);
    var f :| f in Inputs(ev.c) && f.num == n;
    InputOk(s, ev.c, f);
  }

  lemma OldMark(s: State, ev: Event, s': State, n: nat)
    requires Inv(s) && Step(s, ev, s') && n in s'.marks
    ensures n < s.next
  {
    hide LevelsApart, BoundsOk, WantedOk, PickOk, NoTouch, Distinct, Nums;
    if n !in s.marks {
      if ev.Start? { StartNumber(s, ev, n); }
    }
  }

  // Levels

  lemma WithinApart(c: Compaction, f: Meta, g: Meta)
    requires Within(c, f) && !Reaches(c, g)
    ensures FilesApart(f, g) && FilesApart(g, f)
  {
  }

  predicate PartOf(g: Meta, f: Meta) {
    !Less(g.smallest, f.smallest) && !Less(f.largest, g.largest)
  }

  lemma PartApart(p: Meta, f: Meta, g: Meta)
    requires PartOf(p, f) && FilesApart(f, g)
    ensures FilesApart(p, g) && FilesApart(g, p)
  {
  }

  lemma PartReaches(c: Compaction, p: Meta, f: Meta)
    requires PartOf(p, f) && Reaches(c, p)
    ensures Reaches(c, f)
  {
  }

  /** A compaction's outputs lie apart from each other, and from the other files of
      the level, as it took all that were within its bounds. */
  lemma OutputsApart(s: State, ev: Event, s': State, f: Meta, g: Meta)
    requires Inv(s) && Tidy(s) && Step(s, ev, s') && ev.Finish? && f in s'.version && g in s'.version && f != g
    requires s'.version[f] == s'.version[g] && s'.version[f] > 0 && f in ev.outputs
    ensures FilesApart(f, g) && FilesApart(g, f)
  {
    CameFrom(s, ev, s', f);
    CameFrom(s, ev, s', g);
    var c := s.running[ev.id];
    hide Marked, Nums, PickOk, NoTouch, CancelInputOf, LevelsApart, MarksOk, BoundsOk, MetaOk, FilesApart, Reaches, UserBefore, Step, NumbersOk, Inputs;
    FinishOutputs(s, ev, s', f);
    if g in ev.outputs {
      TwoOutputs(s, ev, s', f, g);
    } else {
      assert TakesAll(s, c) by { FinishWanted(s, ev, s'); }
      assert !Reaches(c, g);
      WithinApart(c, f, g);
    }
  }

  lemma FinishWanted(s: State, ev: Event, s': State)
    requires Step(s, ev, s') && ev.Finish?
    ensures Wanted(s, ev.id)
  {
  }

  lemma FinishOutputs(s: State, ev: Event, s': State, f: Meta)
    requires Step(s, ev, s') && ev.Finish? && f in ev.outputs
    ensures ev.id in s.running && Within(s.running[ev.id], f)
  {
    hide Marked, Nums, Within, Inputs;
  }

  lemma TwoOutputs(s: State, ev: Event, s': State, f: Meta, g: Meta)
    requires Inv(s) && Step(s, ev, s') && ev.Finish? && f in ev.outputs && g in ev.outputs && f != g
    ensures FilesApart(f, g) && FilesApart(g, f)
  {
    hide Marked, Nums, Within, FilesApart, NumbersOk, LevelsApart, MarksOk, BoundsOk, MoveIsOne, Inputs;
    if s.running[ev.id].move { OnlyOne(s.running[ev.id], f, g) by { assert InputsOk(s, ev.id); } }
  }

  lemma OnlyOne(c: Compaction, f: Meta, g: Meta)
    requires MoveIsOne(c) && f in Inputs(c) && g in Inputs(c)
    ensures f == g
  {
  }

  lemma SplitApart(s: State, ev: Event, s': State, f: Meta, g: Meta)
    requires Inv(s) && Tidy(s) && Step(s, ev, s') && ev.Split? && f in s'.version && g in s'.version && f != g
    requires s'.version[f] == s'.version[g] && s'.version[f] > 0 && f in ev.parts
    ensures FilesApart(f, g) && FilesApart(g, f)
  {
    CameFrom(s, ev, s', f);
    CameFrom(s, ev, s', g);
    hide Marked, Nums, Inputs, MarksOk, BoundsOk, WantedOk, NumbersOk, FilesApart, CancelInputOf, MetaOk, Less;
    if g !in ev.parts {
      assert FilesApart(ev.f, g);
      assert PartOf(f, ev.f);
      PartApart(f, ev.f, g);
    } else {
      assert FilesApart(f, g) && FilesApart(g, f);
    }
  }

  lemma OthersApart(s: State, ev: Event, s': State, f: Meta, g: Meta)
    requires Inv(s) && Tidy(s) && Step(s, ev, s') && f in s'.version && g in s'.version && f != g
    requires s'.version[f] == s'.version[g] && s'.version[f] > 0
    requires ev.Finish? ==> f !in ev.outputs && g !in ev.outputs
    requires ev.Split? ==> f !in ev.parts && g !in ev.parts
    ensures FilesApart(f, g)
  {
    hide Marked, Nums, Inputs, MarksOk, BoundsOk, WantedOk, NumbersOk, CancelInputOf, MetaOk, Less, UserBefore, PickOk, NoTouch, OutputsOk, NewFiles;
    CameFrom(s, ev, s', f);
    CameFrom(s, ev, s', g);
  }

  lemma StepApart(s: State, ev: Event, s': State)
    requires Inv(s) && Tidy(s) && Step(s, ev, s')
    ensures LevelsApart(s')
  {
    hide Inv, Step, FilesApart;
    forall f, g | f in s'.version && g in s'.version && f != g && s'.version[f] == s'.version[g] && s'.version[f] > 0 ensures FilesApart(f, g) {
      if ev.Finish? && f in ev.outputs { OutputsApart(s, ev, s', f, g); }
      else if ev.Finish? && g in ev.outputs { OutputsApart(s, ev, s', g, f); }
      else if ev.Split? && f in ev.parts { SplitApart(s, ev, s', f, g); }
      else if ev.Split? && g in ev.parts { SplitApart(s, ev, s', g, f); }
      else { OthersApart(s, ev, s', f, g); }
    }
  }

  // Inputs

  lemma InputsStay(s: State, ev: Event, s': State, id: nat)
    requires Inv(s) && Step(s, ev, s') && Wanted(s', id) && id in s.running && Wanted(s, id)
    ensures Located(s', s.running[id])
  {
    hide Step, Inv, Formed, Located, Inputs;
    var c := s.running[id];
    OldWanted(s, id);
    forall f | f in Inputs(c) ensures f in s.version && f in s'.version && s'.version[f] == s.version[f] {
      InputStays(s, ev, s', id, f);
    }
    StillLocated(s, s', c);
  }

  lemma StillLocated(s: State, s': State, c: Compaction)
    requires Located(s, c) && forall f | f in Inputs(c) :: f in s'.version && f in s.version && s'.version[f] == s.version[f]
    ensures Located(s', c)
  {
    forall l, i | 0 <= l < |c.inputs| && 0 <= i < |c.inputs[l]|
      ensures c.inputs[l][i] in s'.version && s'.version[c.inputs[l][i]] == c.levels[l]
    {
      assert c.inputs[l][i] in Inputs(c);
    }
  }

  /** A file that a wanted compaction has for an input stays where it is. */
  lemma InputStays(s: State, ev: Event, s': State, id: nat, f: Meta)
    requires Inv(s) && Step(s, ev, s') && Wanted(s', id) && id in s.running && Wanted(s, id) && f in Inputs(s.running[id])
    ensures f in s.version && f in s'.version && s'.version[f] == s.version[f]
  {
    WorkKept(s, ev, s', id);
    hide Marked, BoundsOk, MetaOk, Less, UserBefore, PickOk, NoTouch, Formed, Located, CancelInputOf, FilesApart, Within, Reaches, MarkOf, Inputs, Nums;
    OldWanted(s, id);
    InputOk(s, s.running[id], f);
    if ev.Finish? { NotShared(s, id, ev.id, f); }
    if f in s'.version { CameFrom(s, ev, s', f); }
  }

  lemma NotShared(s: State, id: nat, jd: nat, f: Meta)
    requires MarksOk(s) && Active(s, id) && Active(s, jd) && id != jd && f in Inputs(s.running[id])
    ensures f !in Inputs(s.running[jd])
  {
    assert f.num in Nums(s.running[id]);
    assert f in Inputs(s.running[jd]) ==> f.num in Nums(s.running[jd]);
  }

  /** Nothing that comes into the output level is within the bounds. */
  lemma NothingComes(s: State, ev: Event, s': State, id: nat, f: Meta)
    requires Inv(s) && Tidy(s) && Step(s, ev, s') && Wanted(s', id) && id in s.running && Wanted(s, id)
    requires f in s'.version && s.running[id].output == Some(s'.version[f]) && s'.version[f] > 0 && Reaches(s.running[id], f)
    ensures f in Inputs(s.running[id])
  {
    WorkKept(s, ev, s', id);
    CameFrom(s, ev, s', f);
    var c := s.running[id];
    assert InputsOk(s, id) && TakesAll(s, c);
    hide Marked, LevelsApart, NumbersOk, MarksOk, MetaOk, Less, UserBefore, PickOk, NoTouch, Nums, CancelInputOf, Inputs, FilesApart;
    if ev.Finish? && f in ev.outputs {
      FinishOutputs(s, ev, s', f);
      assert UsersApart(c, s.running[ev.id]);
      ApartReaches(c, s.running[ev.id], f);
    } else if ev.Split? && f in ev.parts {
      PartReaches(c, f, ev.f);
    }
  }

  lemma ApartReaches(c: Compaction, d: Compaction, f: Meta)
    requires UsersApart(c, d) && Within(d, f) && c.smallest.tail > 0
    ensures !Reaches(c, f)
  {
  }

  lemma StepWanted(s: State, ev: Event, s': State)
    requires Inv(s) && Step(s, ev, s')
    ensures WantedOk(s') && (Tidy(s) ==> AllTaken(s'))
  {
    hide Inv, Step, Inputs, Reaches, Formed, Located, Tidy, TakesAll;
    forall id | Wanted(s', id) ensures InputsOk(s', id) && (Tidy(s) ==> TakesAll(s', s'.running[id])) {
      WorkKept(s, ev, s', id);
      if ev.Start? && ev.id == id {
        StartWanted(s, ev, s');
      } else {
        var c := s.running[id];
        OldWanted(s, id);
        InputsStay(s, ev, s', id);
        if Tidy(s) { StillTakesAll(s, ev, s', id); }
        WorkFormed(s', c, s'.running[id]);
      }
    }
  }

  lemma StillTakesAll(s: State, ev: Event, s': State, id: nat)
    requires Inv(s) && Tidy(s) && Step(s, ev, s') && Wanted(s', id) && id in s.running && Wanted(s, id)
    ensures TakesAll(s', s.running[id])
  {
    hide Inv, Step, Inputs, Reaches, Tidy;
    var c := s.running[id];
    forall f | c.output.Some? && c.output.value > 0 && f in s'.version && s'.version[f] == c.output.value && Reaches(c, f) ensures f in Inputs(c) {
      NothingComes(s, ev, s', id, f);
    }
  }

  lemma WorkFormed(s: State, c: Compaction, d: Compaction)
    requires SameWork(c, d)
    ensures Formed(c) ==> Formed(d)
    ensures (Located(s, c) ==> Located(s, d)) && (TakesAll(s, c) ==> TakesAll(s, d))
  {
    hide Less;
    SameInputs(c, d);
  }

  lemma OldWanted(s: State, id: nat)
    requires Inv(s) && Wanted(s, id)
    ensures InputsOk(s, id)
  {
  }

  lemma StartWanted(s: State, ev: Event, s': State)
    requires Inv(s) && Step(s, ev, s') && ev.Start?
    ensures ev.id in s'.running && s'.running[ev.id] == ev.c && InputsOk(s', ev.id) && TakesAll(s', ev.c)
  {
    hide PickOk, Marked, Nums, Inputs, Reaches, NumbersOk, MarksOk, BoundsOk, WantedOk, Formed, MarkOf, TakesMiddle;
    PickIsSound(s, ev.path, ev.c);
  }

  /** Every step keeps the invariant, and the order of the levels unless it starts a
      compaction that meets another one where that may happen. */
  lemma StepInv(s: State, ev: Event, s': State)
    requires Inv(s) && Step(s, ev, s')
    ensures Inv(s')
    ensures Tidy(s) && (ev.Start? ==> NoTouch(s, ev.c)) ==> Tidy(s')
  {
    hide Step, NumbersOk, MarksOk, BoundsOk, WantedOk, LevelsApart, UsersOk, AllTaken, NoTouch;
    StepNumbers(s, ev, s');
    if Tidy(s) { StepApart(s, ev, s'); }
    StepMarks(s, ev, s');
    StepBounds(s, ev, s');
    if Tidy(s) && (ev.Start? ==> NoTouch(s, ev.c)) { StepUsers(s, ev, s'); }
    StepWanted(s, ev, s');
  }

  // ---------------------------------------------------------------------
  // Runs
  // ---------------------------------------------------------------------

  /** A store that has just been opened: no compaction runs, and no file is marked. */
  ghost predicate Opened(s: State) {
    NumbersOk(s) && LevelsApart(s) && s.running == map[] && s.marks == map[]
  }

  ghost predicate Run(states: seq<State>, evs: seq<Event>) {
    && |states| == |evs| + 1 && Opened(states[0])
    && forall i | 0 <= i < |evs| :: Step(states[i], evs[i], states[i + 1])
  }

  /** Up to state i, no compaction was started that met another one where that may happen. */
  ghost predicate NoneTouch(states: seq<State>, evs: seq<Event>, i: nat)
    requires |states| == |evs| + 1 && i < |states|
  {
    forall k | 0 <= k < i && evs[k].Start? :: NoTouch(states[k], evs[k].c)
  }

  lemma {:induction false} Reached(states: seq<State>, evs: seq<Event>, i: nat)
    requires Run(states, evs) && i < |states|
    ensures Inv(states[i]) && (NoneTouch(states, evs, i) ==> Tidy(states[i]))
  {
    hide Step, NoTouch;
    if i == 0 {
      OpenedInv(states[0]);
    } else {
      Reached(states, evs, i - 1);
      StepInv(states[i - 1], evs[i - 1], states[i]);
    }
  }

  lemma OpenedInv(s: State)
    requires Opened(s)
    ensures Inv(s) && Tidy(s)
  {
  }

  /** In every run, a file is marked as compacting if and only if it is an input of
      a compaction in progress whose edit is not applied, and then of exactly one. */
  lemma MarkedIffInput(states: seq<State>, evs: seq<Event>, i: nat, n: nat)
    requires Run(states, evs) && i < |states|
    ensures MarkOf(states[i], n).Compacting? <==> exists id :: Active(states[i], id) && n in Nums(states[i].running[id])
    ensures forall id, jd | Active(states[i], id) && Active(states[i], jd) && n in Nums(states[i].running[id]) && n in Nums(states[i].running[jd]) :: id == jd
  {
    hide Nums, Run;
    Reached(states, evs, i);
  }

  /** In every run, compactions in progress that write to the same level below L0 have
      bounds that lie apart. */
  lemma OutputsLieApart(states: seq<State>, evs: seq<Event>, i: nat, id: nat, jd: nat)
    requires Run(states, evs) && i < |states| && id in states[i].running && jd in states[i].running && id != jd
    requires var c, d := states[i].running[id], states[i].running[jd]; c.output == d.output && c.output.Some? && c.output.value > 0
    ensures BoundsApart(states[i].running[id], states[i].running[jd])
  {
    hide Run;
    Reached(states, evs, i);
  }

  /** In every run in which compactions do not meet at a user key where one is from L0, or
      the other one runs over three levels, the files of each level below L0 never have
      a user key in common: whatever finishes, fails, is ingested or split in between,
      outputs fall where nothing else is. Other compactions do not meet at all. */
  lemma LevelsStayApart(states: seq<State>, evs: seq<Event>, i: nat)
    requires Run(states, evs) && i < |states| && NoneTouch(states, evs, i)
    ensures LevelsApart(states[i])
  {
    hide Run;
    Reached(states, evs, i);
  }

  /** In every run, the two fatal errors are out of reach: whichever way a compaction was
      picked, it starts on files that are not marked, and it ends with all its files
      marked. Then the loops that mark and unmark files give the marks of the next state. */
  lemma NoFatal(states: seq<State>, evs: seq<Event>, i: nat)
    requires Run(states, evs) && i < |evs|
    ensures evs[i].Start? ==> Distinct(evs[i].c) && forall n | n in Nums(evs[i].c) :: !MarkOf(states[i], n).Compacting?
    ensures evs[i].Finish? || evs[i].Fail? ==>
              var id := evs[i].id;
              id in states[i].running && Distinct(states[i].running[id]) && forall n | n in Nums(states[i].running[id]) :: MarkOf(states[i], n).Compacting?
  {
    Reached(states, evs, i);
    hide Run, Nums, Distinct, MarkOf, Step;
    assert Step(states[i], evs[i], states[i + 1]) by { RunStep(states, evs, i); }
    if evs[i].Start? { StartDoes(states[i], evs[i], states[i + 1]); }
    if evs[i].Finish? || evs[i].Fail? { var m := EndDoes(states[i], evs[i], states[i + 1]); }
  }

  lemma RunStep(states: seq<State>, evs: seq<Event>, i: nat)
    requires Run(states, evs) && i < |evs|
    ensures Step(states[i], evs[i], states[i + 1])
  {
  }
}
