/**
Compactions in progress (compaction.go, compaction_picker.go): the files of the
current version, the marks on them, the gate that every picked compaction has to
pass, and the loops that mark and unmark its files.
*/
module Compactions {
  import opened Options
  import opened Lsm

  // ---------------------------------------------------------------------
  // Files and compactions
  // ---------------------------------------------------------------------

  /** An internal key: newer versions of a user key have smaller tails. Tail 0 is the
      exclusive sentinel, which is before every version. */
  datatype IKey = IKey(user: Key, tail: nat)

  predicate Less(a: IKey, b: IKey) {
    a.user < b.user || (a.user == b.user && a.tail < b.tail)
  }

  datatype Meta = Meta(num: nat, smallest: IKey, largest: IKey)

  /** Key a, as the end of a span of user keys, is before key b. */
  predicate UserBefore(a: IKey, b: IKey) {
    a.user < b.user || (a.user == b.user && a.tail == 0)
  }

  /** Files without a user key in common. */
  predicate FilesApart(f: Meta, g: Meta) {
    UserBefore(f.largest, g.smallest) || UserBefore(g.largest, f.smallest)
  }

  datatype Mark = NotCompacting | Compacting | Compacted

  /** A compaction: its input files by level, where it writes to, and its bounds.
      Delete-only compactions write nowhere. */
  datatype Compaction = Compaction(
    move: bool, levels: seq<nat>, inputs: seq<seq<Meta>>, output: Option<nat>, smallest: IKey, largest: IKey,
    applied: bool, cancelled: bool)

  function Inputs(c: Compaction): set<Meta> {
    set l, i | 0 <= l < |c.inputs| && 0 <= i < |c.inputs[l]| :: c.inputs[l][i]
  }

  function Nums(c: Compaction): set<nat> {
    set f | f in Inputs(c) :: f.num
  }

  /** File f has a user key within the bounds of the compaction. */
  predicate Reaches(c: Compaction, f: Meta) {
    !UserBefore(f.largest, c.smallest) && !UserBefore(c.largest, f.smallest)
  }

  predicate BoundsApart(c: Compaction, d: Compaction) {
    Less(c.largest, d.smallest) || Less(d.largest, c.smallest)
  }

  predicate UsersApart(c: Compaction, d: Compaction) {
    UserBefore(c.largest, d.smallest) || UserBefore(d.largest, c.smallest)
  }

  /** The current version, the marks on files, the compactions in progress, and the
      next file number. */
  datatype State = State(version: map<Meta, nat>, marks: map<nat, Mark>, running: map<nat, Compaction>, next: nat)

  function MarkOf(s: State, n: nat): Mark {
    if n in s.marks then s.marks[n] else NotCompacting
  }

  predicate Active(s: State, id: nat) {
    id in s.running && !s.running[id].applied
  }

  /** A compaction whose outcome will be applied if it succeeds. */
  predicate Wanted(s: State, id: nat) {
    Active(s, id) && !s.running[id].cancelled
  }

  // ---------------------------------------------------------------------
  // The gate
  // ---------------------------------------------------------------------

  /** An input is being compacted, or a compaction writes to the same part of the level. */
  predicate Conflict(s: State, c: Compaction) {
    || (exists n :: n in Nums(c) && MarkOf(s, n).Compacting?)
    || (c.output.Some? && c.output.value != 0
        && exists id :: id in s.running && s.running[id].output == c.output && !BoundsApart(c, s.running[id]))
  }

  /** inputRangeAlreadyCompacting. */
  method AlreadyCompacting(s: State, c: Compaction, ids: seq<nat>) returns (r: bool)
    requires forall id :: id in s.running <==> id in ids
    ensures r <==> Conflict(s, c)
  {
    for l := 0 to |c.inputs|
      invariant forall k, i | 0 <= k < l && 0 <= i < |c.inputs[k]| :: !MarkOf(s, c.inputs[k][i].num).Compacting?
    {
      for i := 0 to |c.inputs[l]|
        invariant forall j | 0 <= j < i :: !MarkOf(s, c.inputs[l][j].num).Compacting?
      {
        if MarkOf(s, c.inputs[l][i].num).Compacting? {
          assert c.inputs[l][i] in Inputs(c);
          assert c.inputs[l][i].num in Nums(c);
          return true;
        }
      }
    }
    if c.output.Some? && c.output.value != 0 {
      for k := 0 to |ids|
        invariant forall j | 0 <= j < k :: s.running[ids[j]].output == c.output ==> BoundsApart(c, s.running[ids[j]])
      {
        var d := s.running[ids[k]];
        if c.output == d.output {
          if !(Less(d.largest, c.smallest) || Less(c.largest, d.smallest)) { return true; }
        }
      }
    }
    r := false;
  }

  /** Bounds that are apart as internal keys are apart as user keys unless they share
      the user key at which they meet. */
  lemma ApartUnlessTouching(c: Compaction, d: Compaction)
    requires c.smallest.tail > 0 && d.smallest.tail > 0 && !Less(c.largest, c.smallest) && !Less(d.largest, d.smallest)
    ensures UsersApart(c, d) <==>
              && BoundsApart(c, d)
              && !(Less(c.largest, d.smallest) && c.largest.user == d.smallest.user && c.largest.tail > 0)
              && !(Less(d.largest, c.smallest) && d.largest.user == c.smallest.user && d.largest.tail > 0)
  {
  }

  /** The gate alone lets through two compactions that write the same user key. */
  lemma GateAllowsTouching()
    ensures var f, g := Meta(1, IKey(1.0, 1), IKey(2.0, 3)), Meta(2, IKey(2.0, 7), IKey(3.0, 1));
            var c, d := Compaction(false, [0], [[f]], Some(1), f.smallest, f.largest, false, false), Compaction(false, [0], [[g]], Some(1), g.smallest, g.largest, false, false);
            !Conflict(State(map[f := 0, g := 0], map[1 := Compacting], map[0 := c], 3), d) && !UsersApart(c, d)
  {
    var f, g := Meta(1, IKey(1.0, 1), IKey(2.0, 3)), Meta(2, IKey(2.0, 7), IKey(3.0, 1));
    var d := Compaction(false, [0], [[g]], Some(1), g.smallest, g.largest, false, false);
    OneInput(d, g);
  }

  lemma OneInput(c: Compaction, f: Meta)
    requires c.inputs == [[f]]
    ensures Inputs(c) == {f} && Nums(c) == {f.num}
  {
    assert c.inputs[0][0] == f;
  }

  // ---------------------------------------------------------------------
  // Marking
  // ---------------------------------------------------------------------

  function Marked(marks: map<nat, Mark>, nums: set<nat>, m: Mark): map<nat, Mark> {
    marks + map n | n in nums :: m
  }

  /** No file is listed twice among the inputs. */
  predicate Distinct(c: Compaction) {
    forall l, i, m, j | 0 <= l < |c.inputs| && 0 <= i < |c.inputs[l]| && 0 <= m < |c.inputs| && 0 <= j < |c.inputs[m]| && (l, i) != (m, j) ::
      c.inputs[l][i].num != c.inputs[m][j].num
  }

  /** The numbers of the inputs up to file i of level l. */
  function NumsUpTo(c: Compaction, l: nat, i: nat): set<nat> {
    set m, j | 0 <= m <= l && m < |c.inputs| && 0 <= j < |c.inputs[m]| && (m < l || j < i) :: c.inputs[m][j].num
  }

  lemma NextNum(c: Compaction, l: nat, i: nat)
    requires l < |c.inputs|
    ensures i < |c.inputs[l]| ==> NumsUpTo(c, l, i + 1) == NumsUpTo(c, l, i) + {c.inputs[l][i].num}
    ensures NumsUpTo(c, l, |c.inputs[l]|) == NumsUpTo(c, l + 1, 0)
    ensures i < |c.inputs[l]| && Distinct(c) ==> c.inputs[l][i].num !in NumsUpTo(c, l, i)
  {
  }

  lemma AllNums(c: Compaction)
    ensures NumsUpTo(c, |c.inputs|, 0) == Nums(c) && NumsUpTo(c, 0, 0) == {}
  {
    forall n ensures n in NumsUpTo(c, |c.inputs|, 0) <==> n in Nums(c) {
      if n in Nums(c) {
        var f :| f in Inputs(c) && f.num == n;
      }
      if n in NumsUpTo(c, |c.inputs|, 0) {
        var m, j :| 0 <= m < |c.inputs| && 0 <= j < |c.inputs[m]| && c.inputs[m][j].num == n;
        assert c.inputs[m][j] in Inputs(c);
      }
    }
  }

  lemma MarkMore(marks: map<nat, Mark>, nums: set<nat>, n: nat, m: Mark)
    ensures Marked(marks, nums, m)[n := m] == Marked(marks, nums + {n}, m)
    ensures n !in nums ==> (n in Marked(marks, nums, m) <==> n in marks) && (n in marks ==> Marked(marks, nums, m)[n] == marks[n])
  {
  }

  lemma MarkNone(marks: map<nat, Mark>, m: Mark)
    ensures Marked(marks, {}, m) == marks
  {
  }

  lemma InputNum(c: Compaction, l: nat, i: nat)
    requires l < |c.inputs| && i < |c.inputs[l]|
    ensures c.inputs[l][i] in Inputs(c) && c.inputs[l][i].num in Nums(c)
  {
  }

  /** addInProgressCompaction's loop over the inputs. It does not come across a file
      that is marked already, which would be fatal. */
  method MarkInputs(s: State, c: Compaction) returns (marks: map<nat, Mark>)
    requires Distinct(c) && forall n | n in Nums(c) :: !MarkOf(s, n).Compacting?
    ensures marks == Marked(s.marks, Nums(c), Compacting)
  {
    hide Marked, NumsUpTo, Distinct, Nums;
    AllNums(c);
    MarkNone(s.marks, Compacting);
    marks := s.marks;
    for l := 0 to |c.inputs|
      invariant marks == Marked(s.marks, NumsUpTo(c, l, 0), Compacting)
    {
      for i := 0 to |c.inputs[l]|
        invariant marks == Marked(s.marks, NumsUpTo(c, l, i), Compacting)
      {
        var n := c.inputs[l][i].num;
        NextNum(c, l, i);
        InputNum(c, l, i);
        MarkMore(s.marks, NumsUpTo(c, l, i), n, Compacting);
        assert !MarkOf(s.(marks := marks), n).Compacting?;
        marks := marks[n := Compacting];
      }
      NextNum(c, l, |c.inputs[l]|);
    }
  }

  /** clearCompactingState's loop. Every input is still marked: one that is not would
      be fatal. */
  method UnmarkInputs(s: State, c: Compaction, m: Mark) returns (marks: map<nat, Mark>)
    requires Distinct(c) && (forall n | n in Nums(c) :: MarkOf(s, n).Compacting?) && !m.Compacting?
    ensures marks == Marked(s.marks, Nums(c), m)
  {
    hide Marked, NumsUpTo, Distinct, Nums;
    AllNums(c);
    MarkNone(s.marks, m);
    marks := s.marks;
    for l := 0 to |c.inputs|
      invariant marks == Marked(s.marks, NumsUpTo(c, l, 0), m)
    {
      for i := 0 to |c.inputs[l]|
        invariant marks == Marked(s.marks, NumsUpTo(c, l, i), m)
      {
        var n := c.inputs[l][i].num;
        NextNum(c, l, i);
        InputNum(c, l, i);
        MarkMore(s.marks, NumsUpTo(c, l, i), n, m);
        assert MarkOf(s.(marks := marks), n).Compacting?;
        marks := marks[n := m];
      }
      NextNum(c, l, |c.inputs[l]|);
    }
  }

  predicate MetaOk(f: Meta) {
    f.smallest.tail > 0 && !Less(f.largest, f.smallest)
  }

  /** File numbers are given out once. */
  ghost predicate NumbersOk(s: State) {
    && (forall f | f in s.version :: f.num < s.next && MetaOk(f))
    && (forall f, g | f in s.version && g in s.version && f != g :: f.num != g.num)
    && (forall n | n in s.marks :: n < s.next)
    && (forall id, n | Active(s, id) && n in Nums(s.running[id]) :: n < s.next)
  }

  // ---------------------------------------------------------------------
  // What a compaction is when it starts
  // ---------------------------------------------------------------------

  /** Every input is in the version, in its level. */
  predicate Located(s: State, c: Compaction) {
    && |c.levels| == |c.inputs|
    && forall l, i | 0 <= l < |c.inputs| && 0 <= i < |c.inputs[l]| ::
         c.inputs[l][i] in s.version && s.version[c.inputs[l][i]] == c.levels[l]
  }

  /** The bounds are those of the inputs. */
  predicate Tight(c: Compaction) {
    && (forall f | f in Inputs(c) :: !Less(f.smallest, c.smallest) && !Less(c.largest, f.largest))
    && (exists f :: f in Inputs(c) && f.smallest == c.smallest) && (exists f :: f in Inputs(c) && f.largest == c.largest)
  }

  /** Without L0, two levels are neighbours. */
  predicate Neighbouring(c: Compaction) {
    c.output.Some? && c.output.value > 0 && 0 !in c.levels && |c.levels| <= 2 ==>
      forall l | l in c.levels :: l == c.output.value || l + 1 == c.output.value
  }

  /** The user keys of file f lie within those of the compaction's bounds. */
  predicate Within(c: Compaction, f: Meta) {
    && c.smallest.user <= f.smallest.user
    && (f.largest.user < c.largest.user || (f.largest.user == c.largest.user && (c.largest.tail == 0 ==> f.largest.tail == 0)))
  }

  ghost predicate MoveIsOne(c: Compaction) {
    exists f :: Inputs(c) == {f} && Within(c, f)
  }

  /** What holds of a compaction whatever becomes of the version. A move takes one file
      and gives it to another level. */
  ghost predicate Formed(c: Compaction) {
    && Distinct(c) && Tight(c) && Neighbouring(c) && c.smallest.tail > 0
    && (c.move ==> c.output.Some? && MoveIsOne(c))
  }

  /** All files of the output level below L0 that are within the bounds are inputs. */
  ghost predicate TakesAll(s: State, c: Compaction) {
    c.output.Some? && c.output.value > 0 ==>
      forall f | f in s.version && s.version[f] == c.output.value && Reaches(c, f) :: f in Inputs(c)
  }

  /** All files of the middle level that share a user key with an input above it are inputs. */
  ghost predicate TakesMiddle(s: State, c: Compaction) {
    |c.levels| == 3 && |c.inputs| == 3 && c.output.Some? && 0 !in c.levels ==>
      && 2 < c.output.value && c.levels == [c.output.value - 2, c.output.value - 1, c.output.value]
      && forall f, x | f in s.version && s.version[f] == c.levels[1] && x in c.inputs[0] && !FilesApart(f, x) :: f in Inputs(c)
  }

  ghost predicate Picked(s: State, c: Compaction) {
    && !c.applied && !c.cancelled && Formed(c) && Located(s, c) && TakesAll(s, c) && TakesMiddle(s, c) && (c.output.Some? ==> |c.levels| <= 3)
    && forall n | n in Nums(c) :: !MarkOf(s, n).Compacting?
  }
}
