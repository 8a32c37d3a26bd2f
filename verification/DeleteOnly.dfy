/**
Delete-only compactions (checkDeleteCompactionHints in compaction.go): which tables
the hints that have become resolvable let go, listed by level. The loop is written
once, for any kind of hint and table.
*/
module DeleteOnly {

  /** Some resolvable hint of the list, from a level above l, lets table m go. */
  predicate LetGo<H(==), F(==)>(hints: seq<H>, resolvable: H -> bool, above: H -> nat, lets: (H, F) -> bool, l: nat, m: F) {
    exists h :: h in hints && resolvable(h) && above(h) < l && lets(h, m)
  }

  /** No table is listed twice. */
  predicate Once<F(==)>(fs: seq<F>) {
    forall i, j | 0 <= i < j < |fs| :: fs[i] != fs[j]
  }

  /** Choice is what hints let go. */
  ghost predicate Chosen<H(!new), F(!new)>(
    hints: seq<H>, levels: seq<seq<F>>, busy: F -> bool, resolvable: H -> bool, above: H -> nat, lets: (H, F) -> bool, byLevel: seq<seq<F>>)
  {
    |byLevel| == |levels| && forall l | 0 <= l < |levels| :: ChosenAt(hints, l, levels[l], busy, resolvable, above, lets, byLevel[l])
  }

  /** Those of one level. */
  ghost predicate ChosenAt<H(!new), F(!new)>(
    hints: seq<H>, l: nat, level: seq<F>, busy: F -> bool, resolvable: H -> bool, above: H -> nat, lets: (H, F) -> bool, fs: seq<F>)
  {
    Once(fs) && forall m :: m in fs <==> m in level && !busy(m) && LetGo(hints, resolvable, above, lets, l, m)
  }

  /** The part of the work that one resolvable hint adds: tables that are free and that it
      lets go, unless they are chosen already. A table is in one level only, so it is
      enough to look among those chosen in its level. */
  method AddLetGo<H(!new, ==), F(!new, ==)>(
    ghost hints: seq<H>, h: H, levels: seq<seq<F>>, busy: F -> bool, ghost resolvable: H -> bool, above: H -> nat, lets: (H, F) -> bool, byLevel0: seq<seq<F>>)
    returns (byLevel: seq<seq<F>>)
    requires Chosen(hints, levels, busy, resolvable, above, lets, byLevel0) && resolvable(h)
    ensures Chosen(hints + [h], levels, busy, resolvable, above, lets, byLevel)
  {
    byLevel := byLevel0;
    var l := above(h) + 1;
    MoreHints(hints, h, levels, busy, resolvable, above, lets, byLevel0);
    while l < |levels|
      invariant above(h) < l && |byLevel| == |levels|
      invariant forall k | 0 <= k < |levels| && (k <= above(h) || l <= k) :: byLevel[k] == byLevel0[k]
      invariant forall k | above(h) < k < |levels| && k < l :: Added(h, levels[k], busy, lets, byLevel0[k], byLevel[k])
      invariant forall k | 0 <= k < |levels| :: Once(byLevel[k])
    {
      var fs := AddLevel(h, levels[l], busy, lets, byLevel[l]);
      byLevel := byLevel[l := fs];
      l := l + 1;
    }
    forall k | 0 <= k < |levels| ensures ChosenAt(hints + [h], k, levels[k], busy, resolvable, above, lets, byLevel[k]) {
      assert ChosenAt(hints, k, levels[k], busy, resolvable, above, lets, byLevel0[k]);
      forall m ensures m in byLevel[k] <==> m in levels[k] && !busy(m) && LetGo(hints + [h], resolvable, above, lets, k, m) {
        OneMore(hints, h, resolvable, above, lets, k, m);
        if k > above(h) { assert Added(h, levels[k], busy, lets, byLevel0[k], byLevel[k]); }
      }
    }
  }

  lemma MoreHints<H(!new), F(!new)>(
    hints: seq<H>, h: H, levels: seq<seq<F>>, busy: F -> bool, resolvable: H -> bool, above: H -> nat, lets: (H, F) -> bool, byLevel: seq<seq<F>>)
    requires Chosen(hints, levels, busy, resolvable, above, lets, byLevel)
    ensures |byLevel| == |levels| && forall k | 0 <= k < |levels| :: Once(byLevel[k])
  {
    forall k | 0 <= k < |levels| ensures Once(byLevel[k]) {
      assert ChosenAt(hints, k, levels[k], busy, resolvable, above, lets, byLevel[k]);
    }
  }

  lemma OneMore<H, F>(hints: seq<H>, h: H, resolvable: H -> bool, above: H -> nat, lets: (H, F) -> bool, l: nat, m: F)
    requires resolvable(h)
    ensures LetGo(hints + [h], resolvable, above, lets, l, m) <==> LetGo(hints, resolvable, above, lets, l, m) || (above(h) < l && lets(h, m))
  {
    assert h in hints + [h];
    if LetGo(hints, resolvable, above, lets, l, m) {
      var g :| g in hints && resolvable(g) && above(g) < l && lets(g, m);
      assert g in hints + [h];
    }
  }

  ghost predicate Added<H, F(!new)>(h: H, level: seq<F>, busy: F -> bool, lets: (H, F) -> bool, had: seq<F>, fs: seq<F>) {
    forall m :: m in fs <==> m in had || (m in level && !busy(m) && lets(h, m))
  }

  method AddLevel<H, F(!new, ==)>(h: H, level: seq<F>, busy: F -> bool, lets: (H, F) -> bool, had: seq<F>) returns (fs: seq<F>)
    requires Once(had)
    ensures Once(fs) && Added(h, level, busy, lets, had, fs)
  {
    fs := had;
    for n := 0 to |level|
      invariant Once(fs) && Added(h, level[..n], busy, lets, had, fs)
    {
      var m := level[n];
      assert level[..n + 1] == level[..n] + [m];
      if !busy(m) && lets(h, m) && m !in fs { fs := fs + [m]; }
    }
    assert level[..|level|] == level;
  }

  /** checkDeleteCompactionHints: hints that can be resolved are used up. The tables
      chosen are those that are free and that such a hint lets go, below the hint's
      level, each listed once. */
  method CheckHints<H(!new, ==), F(!new, ==)>(
    hints: seq<H>, levels: seq<seq<F>>, busy: F -> bool, resolvable: H -> bool, above: H -> nat, lets: (H, F) -> bool)
    returns (byLevel: seq<seq<F>>, unresolved: seq<H>)
    ensures forall h :: h in unresolved <==> h in hints && !resolvable(h)
    ensures Chosen(hints, levels, busy, resolvable, above, lets, byLevel)
  {
    hide Chosen;
    byLevel, unresolved := seq(|levels|, _ => []), [];
    Nothing(levels, busy, resolvable, above, lets, byLevel);
    ghost var done: seq<H> := [];
    for i := 0 to |hints|
      invariant done == hints[..i]
      invariant forall h :: h in unresolved <==> h in hints[..i] && !resolvable(h)
      invariant Chosen(done, levels, busy, resolvable, above, lets, byLevel)
    {
      var h := hints[i];
      assert hints[..i + 1] == hints[..i] + [h];
      if !resolvable(h) {
        unresolved := unresolved + [h];
        NotResolved(done, h, levels, busy, resolvable, above, lets, byLevel);
      } else {
        byLevel := AddLetGo(done, h, levels, busy, resolvable, above, lets, byLevel);
      }
      done := done + [h];
    }
    assert hints[..|hints|] == hints;
  }

  lemma Nothing<H(!new), F(!new)>(
    levels: seq<seq<F>>, busy: F -> bool, resolvable: H -> bool, above: H -> nat, lets: (H, F) -> bool, byLevel: seq<seq<F>>)
    requires byLevel == seq(|levels|, _ => [])
    ensures Chosen([], levels, busy, resolvable, above, lets, byLevel)
  {
  }

  lemma NotResolved<H(!new), F(!new)>(
    hints: seq<H>, h: H, levels: seq<seq<F>>, busy: F -> bool, resolvable: H -> bool, above: H -> nat, lets: (H, F) -> bool, byLevel: seq<seq<F>>)
    requires Chosen(hints, levels, busy, resolvable, above, lets, byLevel) && !resolvable(h)
    ensures Chosen(hints + [h], levels, busy, resolvable, above, lets, byLevel)
  {
    forall l | 0 <= l < |levels| ensures ChosenAt(hints + [h], l, levels[l], busy, resolvable, above, lets, byLevel[l]) {
      assert ChosenAt(hints, l, levels[l], busy, resolvable, above, lets, byLevel[l]);
      forall m ensures LetGo(hints + [h], resolvable, above, lets, l, m) <==> LetGo(hints, resolvable, above, lets, l, m) {
        if LetGo(hints, resolvable, above, lets, l, m) {
          var g :| g in hints && resolvable(g) && above(g) < l && lets(g, m);
          assert g in hints + [h];
        }
      }
    }
  }

  /** The levels that have a table to give, and their tables. */
  method NonEmpty<F(==)>(byLevel: seq<seq<F>>) returns (levels: seq<nat>, inputs: seq<seq<F>>)
    ensures |levels| == |inputs| && (forall i | 0 <= i < |levels| :: levels[i] < |byLevel| && inputs[i] == byLevel[levels[i]] && inputs[i] != [])
    ensures forall i, j | 0 <= i < j < |levels| :: levels[i] < levels[j]
    ensures forall l | 0 <= l < |byLevel| && byLevel[l] != [] :: l in levels
  {
    levels, inputs := [], [];
    for l := 0 to |byLevel|
      invariant |levels| == |inputs| && (forall i | 0 <= i < |levels| :: levels[i] < l && inputs[i] == byLevel[levels[i]] && inputs[i] != [])
      invariant forall i, j | 0 <= i < j < |levels| :: levels[i] < levels[j]
      invariant forall k | 0 <= k < l && byLevel[k] != [] :: k in levels
    {
      if byLevel[l] != [] { levels, inputs := levels + [l], inputs + [byLevel[l]]; }
    }
  }
}
