/**
The heap of frontiers of a compaction (compaction_iter.go): clients that want to
know when the compaction passes certain user keys. A frontier's callback returns
the next key it is interested in; here it works off a list of keys.
*/
module Frontiers {
  import opened Options
  import opened Lsm

  /** An active frontier: its key, and the keys its callback will return. */
  datatype Frontier = Frontier(id: nat, key: Key, rest: seq<Key>)

  type Heap = seq<Frontier>

  function Parent(j: nat): (i: nat)
    requires 0 < j
    ensures i < j && (j == 2 * i + 1 || j == 2 * i + 2)
  {
    (j - 1) / 2
  }

  /** The first n items are in heap order at position j. */
  predicate InOrder(h: Heap, j: nat)
    requires j < |h|
  {
    j > 0 ==> h[Parent(j)].key <= h[j].key
  }

  predicate IsHeap(h: Heap, n: nat)
    requires n <= |h|
  {
    forall j | 0 < j < n :: InOrder(h, j)
  }

  predicate UniqueIds(h: Heap) {
    forall i, j | 0 <= i < j < |h| :: h[i].id != h[j].id
  }

  /** In order but for the item at i, whose children are in order with its parent. */
  predicate HeapBut(h: Heap, n: nat, i: nat)
    requires n <= |h|
  {
    && (forall j | 0 < j < n && j != i && Parent(j) != i :: InOrder(h, j))
    && (forall j | 0 < j < n && Parent(j) == i && 0 < i < n :: h[Parent(i)].key <= h[j].key)
  }

  /** In order but for the item at i against its parent. */
  predicate HeapBelow(h: Heap, n: nat, i: nat)
    requires n <= |h|
  {
    && (forall j | 0 < j < n && j != i :: InOrder(h, j))
    && (forall j | 0 < j < n && Parent(j) == i && 0 < i < n :: h[Parent(i)].key <= h[j].key)
  }

  function Swap(h: Heap, i: nat, j: nat): (r: Heap)
    requires i < |h| && j < |h|
    ensures multiset(r) == multiset(h)
  {
    h[i := h[j]][j := h[i]]
  }

  lemma RootIsLeast(h: Heap, n: nat, j: nat)
    requires n <= |h| && IsHeap(h, n) && j < n
    ensures h[0].key <= h[j].key
  {
    if j > 0 {
      assert InOrder(h, j);
      RootIsLeast(h, n, Parent(j));
    }
  }

  /** The children of an item below j's parent are in order with its new parent. */
  lemma UpSwap(h: Heap, j: nat)
    requires 0 < j < |h| && HeapBelow(h, |h|, j) && h[j].key < h[Parent(j)].key
    ensures HeapBelow(Swap(h, Parent(j), j), |h|, Parent(j))
  {
    hide Parent;
    var i, r := Parent(j), Swap(h, Parent(j), j);
    forall c | 0 < c < |h| && c != i ensures InOrder(r, c) {
      assert c != j ==> InOrder(h, c);
      if i > 0 { assert InOrder(h, i); }
    }
    forall c | 0 < c < |h| && Parent(c) == i && 0 < i ensures r[Parent(i)].key <= r[c].key {
      assert InOrder(h, i) && (c != j ==> InOrder(h, c));
    }
  }

  /** Sift up. */
  method Up(h: Heap, j0: nat) returns (r: Heap)
    requires j0 < |h| && HeapBelow(h, |h|, j0)
    ensures IsHeap(r, |r|) && multiset(r) == multiset(h)
  {
    var j: nat := j0;
    r := h;
    while true
      invariant |r| == |h| && j < |r| && HeapBelow(r, |r|, j) && multiset(r) == multiset(h)
      decreases j
    {
      if j == 0 || r[Parent(j)].key <= r[j].key { break; }
      UpSwap(r, j);
      r := Swap(r, Parent(j), j);
      j := Parent(j);
    }
  }

  /** The smaller child of i may take its place. */
  lemma DownSwap(h: Heap, n: nat, i: nat, j: nat)
    requires n <= |h| && 0 < j < n && Parent(j) == i && HeapBut(h, n, i) && h[j].key < h[i].key
    requires forall c | 0 < c < n && Parent(c) == i :: h[j].key <= h[c].key
    ensures HeapBut(Swap(h, i, j), n, j) && InOrder(Swap(h, i, j), j) && InOrder(Swap(h, i, j), i)
  {
    hide Parent;
    var r := Swap(h, i, j);
    forall c | 0 < c < n && c != j && Parent(c) != j ensures InOrder(r, c) {
      if c != i && Parent(c) != i { assert InOrder(h, c); }
    }
    forall c | 0 < c < n && Parent(c) == j ensures r[Parent(j)].key <= r[c].key {
      assert InOrder(h, c);
    }
  }

  predicate HasSmallerChild(h: Heap, n: nat, i: nat)
    requires n <= |h|
  {
    exists c: nat :: 0 < c < n && i < n && Parent(c) == i && h[c].key < h[i].key
  }

  /** The state of a sift down from i0 that has reached i. */
  ghost predicate Sifting(h: Heap, r: Heap, n: nat, i0: nat, i: nat) {
    && n <= |r| == |h| && i0 <= i && r[n..] == h[n..] && multiset(r) == multiset(h) && HeapBut(r, n, i)
    && (i == i0 ==> r == h)
    && (i > i0 ==> i < n && InOrder(r, i) && InOrder(r, i0) && HasSmallerChild(h, n, i0))
  }

  lemma SiftStep(h: Heap, r: Heap, n: nat, i0: nat, i: nat, j: nat)
    requires Sifting(h, r, n, i0, i) && 0 < j < n && Parent(j) == i && r[j].key < r[i].key
    requires forall c | 0 < c < n && Parent(c) == i :: r[j].key <= r[c].key
    ensures Sifting(h, Swap(r, i, j), n, i0, j)
  {
    hide Parent;
    var s := Swap(r, i, j);
    DownSwap(r, n, i, j);
    assert s[n..] == r[n..];
    if i > i0 { assert InOrder(s, i0); }
  }

  lemma SiftEnd(h: Heap, r: Heap, n: nat, i0: nat, i: nat)
    requires Sifting(h, r, n, i0, i) && forall c | 0 < c < n && Parent(c) == i :: i < n && r[i].key <= r[c].key
    ensures HeapBelow(r, n, i0) && (i > i0 ==> IsHeap(r, n))
  {
    hide Parent;
    Settled(r, n, i);
  }

  /** Sift down within the first n items. */
  method Down(h: Heap, i0: nat, n: nat) returns (r: Heap, moved: bool)
    requires n <= |h| && HeapBut(h, n, i0)
    ensures |r| == |h| && r[n..] == h[n..] && multiset(r) == multiset(h)
    ensures HeapBelow(r, n, i0)
    ensures if moved then IsHeap(r, n) && HasSmallerChild(h, n, i0) else r == h
  {
    hide Parent, HeapBut, HeapBelow, IsHeap, InOrder, HasSmallerChild;
    var i: nat := i0;
    r := h;
    while true
      invariant Sifting(h, r, n, i0, i)
      decreases n - i
    {
      var j1 := 2 * i + 1;
      if j1 >= n { break; }
      var j := if j1 + 1 < n && r[j1 + 1].key < r[j1].key then j1 + 1 else j1;
      if r[i].key <= r[j].key { break; }
      Children(i);
      SiftStep(h, r, n, i0, i, j);
      r := Swap(r, i, j);
      i := j;
    }
    moved := i > i0;
    SiftEnd(h, r, n, i0, i);
  }

  lemma Children(i: nat)
    ensures Parent(2 * i + 1) == i && Parent(2 * i + 2) == i
  {
  }

  /** Nothing is out of order once an item is no larger than its children. */
  lemma Settled(h: Heap, n: nat, i: nat)
    requires n <= |h| && HeapBut(h, n, i) && forall c | 0 < c < n && Parent(c) == i :: i < n && h[i].key <= h[c].key
    ensures HeapBelow(h, n, i)
  {
    hide Parent;
  }

  method Fix(h: Heap, i: nat) returns (r: Heap)
    requires i < |h| && HeapBut(h, |h|, i)
    ensures IsHeap(r, |r|) && multiset(r) == multiset(h)
  {
    var moved;
    r, moved := Down(h, i, |h|);
    if !moved { r := Up(r, i); }
  }

  method Push(h: Heap, f: Frontier) returns (r: Heap)
    requires IsHeap(h, |h|)
    ensures IsHeap(r, |r|) && multiset(r) == multiset(h) + multiset{f}
  {
    r := h + [f];
    assert forall j | 0 < j < |h| :: InOrder(h, j) ==> InOrder(r, j);
    r := Up(r, |h|);
  }

  lemma SplitLast(h: Heap)
    requires h != []
    ensures multiset(h) == multiset(h[..|h| - 1]) + multiset{h[|h| - 1]}
  {
    assert h == h[..|h| - 1] + [h[|h| - 1]];
  }

  /** Swapping the last item into place i leaves the rest in order but for i. */
  lemma SwapLast(h: Heap, i: nat)
    requires i < |h| && IsHeap(h, |h|)
    ensures HeapBut(Swap(h, i, |h| - 1), |h| - 1, i)
  {
    hide Parent;
    var n, r := |h| - 1, Swap(h, i, |h| - 1);
    forall j | 0 < j < n && j != i && Parent(j) != i ensures InOrder(r, j) {
      assert InOrder(h, j);
    }
    forall j | 0 < j < n && Parent(j) == i && 0 < i < n ensures r[Parent(i)].key <= r[j].key {
      assert InOrder(h, i) && InOrder(h, j);
    }
  }

  method Pop(h: Heap) returns (r: Heap)
    requires h != [] && IsHeap(h, |h|)
    ensures IsHeap(r, |r|) && multiset(h) == multiset(r) + multiset{h[0]}
  {
    var n := |h| - 1;
    SwapLast(h, 0);
    var s, _ := Down(Swap(h, 0, n), 0, n);
    SplitLast(s);
    assert s[n] == Swap(h, 0, n)[n] by { assert s[n..][0] == Swap(h, 0, n)[n..][0]; }
    r := s[..n];
    Shorter(s, n);
  }

  lemma Shorter(h: Heap, n: nat)
    requires n <= |h|
    ensures IsHeap(h, n) <==> IsHeap(h[..n], n)
  {
    assert forall j | 0 < j < n :: InOrder(h[..n], j) == InOrder(h, j);
  }

  /** Update's removal path: the last item takes the place of the removed one and is
      sifted down only. The result is a heap exactly when the last item is not
      smaller than the parent of the place it takes. */
  method Remove(h: Heap, i: nat) returns (r: Heap)
    requires i < |h| && IsHeap(h, |h|)
    ensures multiset(h) == multiset(r) + multiset{h[i]} && |r| == |h| - 1
    ensures IsHeap(r, |r|) <==> RemovalIsSafe(h, i)
  {
    hide Swap, HasSmallerChild, HeapBelow, HeapBut, IsHeap, RemovalIsSafe;
    var n := |h| - 1;
    SwapLast(h, i);
    var t := Swap(h, i, n);
    var s, moved := Down(t, i, n);
    RemovalCondition(h, i, s, moved);
    SplitLast(s);
    Shorter(s, n);
    Tail(s, t, n);
    SwapTail(h, i);
    r := s[..n];
  }

  lemma Tail(s: Heap, t: Heap, n: nat)
    requires n < |s| == |t| && s[n..] == t[n..]
    ensures s[n] == t[n]
  {
    assert s[n..][0] == t[n..][0];
  }

  lemma SwapTail(h: Heap, i: nat)
    requires i < |h|
    ensures |Swap(h, i, |h| - 1)| == |h| && Swap(h, i, |h| - 1)[|h| - 1] == h[i]
  {
  }

  predicate RemovalIsSafe(h: Heap, i: nat)
    requires i < |h|
  {
    i == 0 || i == |h| - 1 || h[Parent(i)].key <= h[|h| - 1].key
  }

  lemma RemovalCondition(h: Heap, i: nat, s: Heap, moved: bool)
    requires i < |h| == |s| && IsHeap(h, |h|) && HeapBelow(s, |h| - 1, i)
    requires if moved then IsHeap(s, |h| - 1) && HasSmallerChild(Swap(h, i, |h| - 1), |h| - 1, i) else s == Swap(h, i, |h| - 1)
    ensures IsHeap(s, |h| - 1) <==> RemovalIsSafe(h, i)
  {
    hide Parent;
    var n, t := |h| - 1, Swap(h, i, |h| - 1);
    if 0 < i < n {
      if moved {
        var c: nat :| 0 < c < n && Parent(c) == i && t[c].key < t[i].key;
        assert InOrder(h, c) && InOrder(h, i);
      } else {
        assert InOrder(s, i) <==> h[Parent(i)].key <= h[n].key;
      }
    }
  }

  /** With at most five frontiers removal is always safe. A compaction registers at
      most three. */
  lemma FewFrontiersAreSafe(h: Heap, i: nat)
    requires i < |h| <= 5 && IsHeap(h, |h|)
    ensures RemovalIsSafe(h, i)
  {
    if 0 < i < |h| - 1 {
      if Parent(i) == 0 {
        RootIsLeast(h, |h|, |h| - 1);
      } else {
        assert Parent(|h| - 1) == Parent(i) && InOrder(h, |h| - 1);
      }
    }
  }

  /** With six it may not be. */
  lemma SixFrontiersMayNotBeSafe() returns (h: Heap, i: nat)
    ensures |h| == 6 && i < 6 && IsHeap(h, 6) && UniqueIds(h) && !RemovalIsSafe(h, i)
  {
    h := [Frontier(0, 0.0, []), Frontier(1, 10.0, []), Frontier(2, 1.0, []),
          Frontier(3, 11.0, []), Frontier(4, 12.0, []), Frontier(5, 2.0, [])];
    i := 3;
  }

  // ---------------------------------------------------------------------
  // Advancing
  // ---------------------------------------------------------------------

  /** How many keys the frontiers still wait for. */
  function Waits(h: Heap): nat {
    if h == [] then 0 else 1 + |h[0].rest| + Waits(h[1..])
  }

  lemma {:induction false} WaitsSplit(a: Heap, b: Heap)
    ensures Waits(a + b) == Waits(a) + Waits(b)
  {
    if a == [] {
      assert a + b == b;
    } else {
      assert (a + b)[1..] == a[1..] + b;
      WaitsSplit(a[1..], b);
    }
  }

  /** A heap with the item at j taken out. */
  function Without(h: Heap, j: nat): Heap
    requires j < |h|
  {
    h[..j] + h[j + 1..]
  }

  lemma WithoutItem(h: Heap, j: nat)
    requires j < |h|
    ensures multiset(h) == multiset(Without(h, j)) + multiset{h[j]}
    ensures Waits(h) == Waits(Without(h, j)) + 1 + |h[j].rest|
  {
    var x, y := h[..j], h[j + 1..];
    assert h == x + ([h[j]] + y);
    WaitsSplit(x, [h[j]] + y);
    WaitsSplit(x, y);
    assert ([h[j]] + y)[1..] == y;
  }

  lemma Cancel(a: multiset<Frontier>, b: multiset<Frontier>, c: multiset<Frontier>)
    requires a + c == b + c
    ensures a == b
  {
    assert forall x :: a[x] + c[x] == (a + c)[x] && b[x] + c[x] == (b + c)[x];
  }

  lemma {:induction false} WaitsPermuted(a: Heap, b: Heap)
    requires multiset(a) == multiset(b)
    ensures Waits(a) == Waits(b)
  {
    if a == [] {
      assert |b| == |multiset(b)| == 0;
    } else {
      assert a[0] in multiset(b);
      var j :| 0 <= j < |b| && b[j] == a[0];
      WithoutItem(a, 0);
      WithoutItem(b, j);
      Cancel(multiset(Without(a, 0)), multiset(Without(b, j)), multiset{a[0]});
      WaitsPermuted(Without(a, 0), Without(b, j));
    }
  }

  /** What becomes of a frontier when the compaction has reached k: its callback has
      been called for each of its keys up to k. */
  function Later(f: Frontier, k: Key): (r: Option<Frontier>)
    ensures r.Some? ==> k < r.value.key && r.value.id == f.id
    decreases |f.rest|
  {
    if k < f.key then Some(f)
    else if f.rest == [] then None
    else Later(Frontier(f.id, f.rest[0], f.rest[1..]), k)
  }

  /** Some frontier of h ends up as f. */
  ghost predicate EndsUp(h: Heap, k: Key, f: Frontier) {
    exists g :: g in h && Later(g, k) == Some(f)
  }

  lemma Permuted(a: Heap, b: Heap)
    requires multiset(a) == multiset(b)
    ensures (forall f :: f in a <==> f in b) && |a| == |b|
  {
    assert forall f :: f in a <==> f in multiset(a);
    assert forall f :: f in b <==> f in multiset(b);
    assert |a| == |multiset(a)| == |multiset(b)| == |b|;
  }

  class FrontierHeap {
    var items: Heap

    ghost predicate Valid()
      reads this
    {
      IsHeap(items, |items|)
    }

    constructor ()
      ensures Valid() && items == []
    {
      items := [];
    }

    /** Init, or Update of an inactive frontier. */
    method Activate(f: Frontier)
      requires Valid()
      modifies this
      ensures Valid() && multiset(items) == old(multiset(items)) + multiset{f}
    {
      items := Push(items, f);
    }

    /** Update of an active frontier to another key, or to none. */
    method Update(i: nat, f: Option<Frontier>)
      requires Valid() && i < |items| <= 5
      modifies this
      ensures Valid()
      ensures multiset(items) == old(multiset(items) - multiset{items[i]}) + (if f.Some? then multiset{f.value} else multiset{})
    {
      if f.Some? {
        Replaced(items, i, f.value);
        items := Fix(items[i := f.value], i);
      } else {
        FewFrontiersAreSafe(items, i);
        items := Remove(items, i);
      }
    }

    /** Every frontier is called for each of its keys up to k, and no active one is
        left at or below k. */
    method Advance(k: Key)
      requires Valid()
      modifies this
      ensures Valid() && forall f | f in items :: k < f.key
      ensures forall f :: f in items <==> EndsUp(old(items), k, f)
    {
      while items != [] && items[0].key <= k
        invariant Valid()
        invariant forall f :: EndsUp(items, k, f) <==> EndsUp(old(items), k, f)
        decreases Waits(items)
      {
        ghost var h := items;
        var f := items[0];
        if f.rest == [] {
          items := Pop(items);
          Dropped(h, items, k);
        } else {
          var g := Frontier(f.id, f.rest[0], f.rest[1..]);
          Replaced(items, 0, g);
          items := Fix(items[0 := g], 0);
          Reached(h, items, g, k);
        }
      }
      AllAbove(items, k);
    }
  }

  lemma Replaced(h: Heap, i: nat, f: Frontier)
    requires i < |h| && IsHeap(h, |h|)
    ensures HeapBut(h[i := f], |h|, i)
    ensures multiset(h[i := f]) == multiset(h) - multiset{h[i]} + multiset{f}
  {
    hide Parent;
    var r := h[i := f];
    forall j | 0 < j < |h| && j != i && Parent(j) != i ensures InOrder(r, j) { assert InOrder(h, j); }
    forall j | 0 < j < |h| && Parent(j) == i && 0 < i ensures r[Parent(i)].key <= r[j].key {
      assert InOrder(h, i) && InOrder(h, j);
    }
  }

  lemma AllAbove(h: Heap, k: Key)
    requires IsHeap(h, |h|) && (h != [] ==> k < h[0].key)
    ensures forall f | f in h :: k < f.key
    ensures forall f :: f in h <==> EndsUp(h, k, f)
  {
    forall f | f in h ensures k < f.key {
      var j :| 0 <= j < |h| && h[j] == f;
      RootIsLeast(h, |h|, j);
    }
    forall f | f in h ensures EndsUp(h, k, f) { assert Later(f, k) == Some(f); }
  }

  lemma Dropped(h: Heap, r: Heap, k: Key)
    requires h != [] && h[0].key <= k && h[0].rest == [] && multiset(h) == multiset(r) + multiset{h[0]}
    ensures forall f :: EndsUp(r, k, f) <==> EndsUp(h, k, f)
    ensures Waits(r) < Waits(h)
  {
    assert multiset([h[0]] + r) == multiset(h);
    WaitsPermuted([h[0]] + r, h);
    assert ([h[0]] + r)[1..] == r;
    Permuted([h[0]] + r, h);
    forall f ensures EndsUp(r, k, f) <==> EndsUp(h, k, f) {
      if EndsUp(h, k, f) {
        var g :| g in h && Later(g, k) == Some(f);
        assert g in [h[0]] + r;
      }
      if EndsUp(r, k, f) {
        var g :| g in r && Later(g, k) == Some(f);
        assert g in [h[0]] + r;
      }
    }
  }

  lemma Reached(h: Heap, r: Heap, g: Frontier, k: Key)
    requires h != [] && h[0].key <= k && h[0].rest != [] && g == Frontier(h[0].id, h[0].rest[0], h[0].rest[1..])
    requires multiset(r) == multiset(h[0 := g])
    ensures forall f :: EndsUp(r, k, f) <==> EndsUp(h, k, f)
    ensures Waits(r) < Waits(h)
  {
    var s := h[0 := g];
    WaitsPermuted(r, s);
    assert s[1..] == h[1..];
    Permuted(r, s);
    forall f ensures EndsUp(r, k, f) <==> EndsUp(h, k, f) {
      ReachedOne(h, g, k, f);
    }
  }

  lemma ReachedOne(h: Heap, g: Frontier, k: Key, f: Frontier)
    requires h != [] && h[0].key <= k && h[0].rest != [] && g == Frontier(h[0].id, h[0].rest[0], h[0].rest[1..])
    ensures EndsUp(h[0 := g], k, f) <==> EndsUp(h, k, f)
  {
    var s := h[0 := g];
    assert Later(g, k) == Later(h[0], k);
    if EndsUp(s, k, f) {
      var x :| x in s && Later(x, k) == Some(f);
      assert x == g || x in h[1..];
      assert h[0] in h;
    }
    if EndsUp(h, k, f) {
      var x :| x in h && Later(x, k) == Some(f);
      assert s[1..] == h[1..] && (x == h[0] || x in h[1..]);
      assert s[0] in s;
    }
  }

  // ---------------------------------------------------------------------
  // The limit splitter
  // ---------------------------------------------------------------------

  /** A limit splitter is a frontier at its limit, with no key after it: it asks for a
      split once it has been called, which is when it is no longer active. After the
      compaction has advanced to k, that is so exactly when k is at or past the limit. */
  lemma LimitSplitterAsks(before: Heap, k: Key, after: Heap, limit: Frontier)
    requires limit in before && limit.rest == [] && forall g | g in before && g.id == limit.id :: g == limit
    requires forall f :: f in after <==> EndsUp(before, k, f)
    ensures (forall g | g in after :: g.id != limit.id) <==> limit.key <= k
  {
    if k < limit.key {
      assert Later(limit, k) == Some(limit);
      assert limit in after;
    } else {
      forall g | g in after ensures g.id != limit.id {
        var x :| x in before && Later(x, k) == Some(g);
        assert g.id == x.id;
      }
    }
  }
}
