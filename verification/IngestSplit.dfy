/**
Splitting tables at ingestion (ingestSplit in ingest.go). A version edit collects
the tables that are replaced, and the virtual tables that replace them. A table
that is to be split may have been replaced already, for another table of the same
ingestion or by an excise, and its replacement may have been replaced in turn:
the tree of replacements is walked down to the table that is still in the way.
*/
module IngestSplit {
  import opened Options
  import opened Lsm
  import opened History
  import opened InUseRanges
  import opened PointReads
  import opened Ingestion
  import opened Tables
  import opened Excision

  /** A file of the version or of the edit, by number. */
  datatype Meta = Meta(level: nat, file: Sst)

  /** The version edit, with the map of replaced files and the next file number. */
  datatype Edit = Edit(
    meta: map<nat, Meta>, next: nat, replaced: map<nat, seq<nat>>, newFiles: seq<nat>, deleted: set<nat>)

  /** What an edit is an edit of: the files of the version, and those to be ingested. */
  datatype Job = Job(ingested: nat, split: nat)

  /** A file of the version, or a virtual one, that the edit does not delete. */
  predicate Live(base: set<nat>, ing: set<nat>, e: Edit, n: nat) {
    (n in base || (n in e.newFiles && n !in ing)) && n !in e.deleted
  }

  predicate Shape(base: set<nat>, ing: set<nat>, e: Edit) {
    && base <= e.meta.Keys && ing <= e.meta.Keys && base !! ing
    && (forall n | n in e.meta :: n < e.next)
    && (forall n | n in e.newFiles :: n in e.meta && n !in base)
    && (forall n | n in ing :: n in e.newFiles)
    && (forall i, j | 0 <= i < j < |e.newFiles| :: e.newFiles[i] != e.newFiles[j])
    && e.deleted == e.replaced.Keys
    && (forall n | n in e.deleted :: n in base || (n in e.newFiles && n !in ing))
  }

  predicate FilesOk(e: Edit) {
    forall n | n in e.meta :: SstOk(e.meta[n].file)
  }

  /** c is one of the files that replace n. */
  predicate Kid(e: Edit, n: nat, c: nat) {
    n in e.replaced && c in e.replaced[n]
  }

  predicate SameLevel(e: Edit, x: nat, y: nat) {
    x in e.meta && y in e.meta && e.meta[x].level == e.meta[y].level
  }

  /** File x is part of file y of the same level. */
  predicate PartOf(e: Edit, x: nat, y: nat) {
    SameLevel(e, x, y) && SstPart(e.meta[x].file, e.meta[y].file)
  }

  predicate Meet(e: Edit, x: nat, y: nat)
    requires x in e.meta && y in e.meta
  {
    BoundsMeet(BoundsOf(e.meta[x].file), BoundsOf(e.meta[y].file))
  }

  ghost predicate KidsOk(base: set<nat>, ing: set<nat>, e: Edit) {
    && (forall n, c | Kid(e, n, c) :: n < c && c in e.newFiles && c !in ing && PartOf(e, c, n))
    && (forall n, c, d | Kid(e, n, c) && Kid(e, n, d) && c != d && c in e.meta && d in e.meta :: !Meet(e, c, d))
    && (forall n, i, j | n in e.replaced && 0 <= i < j < |e.replaced[n]| :: e.replaced[n][i] != e.replaced[n][j])
  }

  /** Below L0, files of a level that are not deleted lie apart. */
  ghost predicate LiveApart(base: set<nat>, ing: set<nat>, e: Edit) {
    forall x, y | Live(base, ing, e, x) && Live(base, ing, e, y) && x != y && SameLevel(e, x, y) && e.meta[x].level > 0 :: !Meet(e, x, y)
  }

  /** A virtual file is part of a file of the version. */
  ghost predicate FromBase(base: set<nat>, ing: set<nat>, e: Edit) {
    forall x | Live(base, ing, e, x) :: exists b :: b in base && PartOf(e, x, b)
  }

  /** What meets a replaced file is part of one of its replacements. */
  ghost predicate InKids(base: set<nat>, ing: set<nat>, e: Edit) {
    forall n, x | n in e.replaced && Live(base, ing, e, x) && SameLevel(e, n, x) && e.meta[n].level > 0 && Meet(e, x, n) ::
      exists c :: Kid(e, n, c) && PartOf(e, x, c)
  }

  ghost predicate Inv(base: set<nat>, ing: set<nat>, e: Edit) {
    Shape(base, ing, e) && FilesOk(e) && KidsOk(base, ing, e) && LiveApart(base, ing, e) && FromBase(base, ing, e) && InKids(base, ing, e)
  }

  // ---------------------------------------------------------------------
  // Replacing a file
  // ---------------------------------------------------------------------

  function Numbers(next: nat, n: nat): (r: seq<nat>)
    ensures |r| == n && forall i | 0 <= i < n :: r[i] == next + i
  {
    if n == 0 then [] else Numbers(next, n - 1) + [next + n - 1]
  }

  function Metas(next: nat, level: nat, kids: seq<Sst>): (r: map<nat, Meta>)
    ensures forall n: nat :: n in r <==> next <= n < next + |kids|
    ensures forall n: nat | n in r :: r[n] == Meta(level, kids[n - next])
  {
    if kids == [] then map[]
    else
      var last := |kids| - 1;
      Metas(next, level, kids[..last])[next + last := Meta(level, kids[last])]
  }

  /** The edit with file x replaced by new virtual files. */
  function Replace(e: Edit, x: nat, kids: seq<Sst>): Edit
    requires x in e.meta
  {
    var nums := Numbers(e.next, |kids|);
    Edit(e.meta + Metas(e.next, e.meta[x].level, kids), e.next + |kids|, e.replaced[x := nums], e.newFiles + nums, e.deleted + {x})
  }

  /** What a file may be replaced by: parts of it that lie apart. */
  predicate Halves(kids: seq<Sst>, f: Sst) {
    && (forall i | 0 <= i < |kids| :: SstOk(kids[i]) && SstPart(kids[i], f))
    && (forall i, j | 0 <= i < j < |kids| :: Ends(BoundsOf(kids[i]), BoundsOf(kids[j])))
  }

  predicate New(e: Edit, e': Edit, n: nat) {
    e.next <= n < e'.next
  }

  /** What replacing x does to the fields. */
  ghost predicate Grown(e: Edit, x: nat, kids: seq<Sst>, e': Edit) {
    && x in e.meta && e'.next == e.next + |kids| && e'.replaced == e.replaced[x := Numbers(e.next, |kids|)] && e'.deleted == e.deleted + {x}
    && (forall n: nat | n in e.meta :: n in e'.meta && e'.meta[n] == e.meta[n])
    && (forall n: nat | n in e'.meta :: n in e.meta || (New(e, e', n) && e'.meta[n] == Meta(e.meta[x].level, kids[n - e.next])))
    && (forall n: nat | New(e, e', n) :: n in e'.meta)
    && (forall n: nat :: n in e'.newFiles <==> n in e.newFiles || New(e, e', n))
  }

  /** What it does to the live files, and to the tree. */
  ghost predicate Replaced(base: set<nat>, ing: set<nat>, e: Edit, x: nat, kids: seq<Sst>, e': Edit) {
    && Shape(base, ing, e) && Shape(base, ing, e') && Grown(e, x, kids, e')
    && (forall n: nat :: Live(base, ing, e', n) <==> (Live(base, ing, e, n) && n != x) || New(e, e', n))
    && (forall n: nat, c: nat :: Kid(e', n, c) <==> (Kid(e, n, c) && n != x) || (n == x && New(e, e', c)))
  }

  lemma ReplaceDoes(base: set<nat>, ing: set<nat>, e: Edit, x: nat, kids: seq<Sst>)
    requires Shape(base, ing, e) && Live(base, ing, e, x)
    ensures x in e.meta && Replaced(base, ing, e, x, kids, Replace(e, x, kids))
  {
    LiveKnown(base, ing, e, x);
    hide Replace, Live, Kid, New, Shape, Grown;
    var e' := Replace(e, x, kids);
    ReplaceFields(e, x, kids);
    ReplaceShape(base, ing, e, e', x, kids);
    forall n: nat ensures Live(base, ing, e', n) <==> (Live(base, ing, e, n) && n != x) || New(e, e', n) {
      ReplaceLive(base, ing, e, x, kids, n);
    }
    forall n: nat, c: nat ensures Kid(e', n, c) <==> (Kid(e, n, c) && n != x) || (n == x && New(e, e', c)) {
      ReplaceKid(e, x, kids, n, c);
    }
  }

  lemma LiveKnown(base: set<nat>, ing: set<nat>, e: Edit, x: nat)
    requires Shape(base, ing, e)
    ensures Live(base, ing, e, x) ==> x in e.meta
    ensures forall n | n in e.meta :: n < e.next
  {
  }

  lemma ReplaceFields(e: Edit, x: nat, kids: seq<Sst>)
    requires x in e.meta && forall n | n in e.meta :: n < e.next
    ensures Grown(e, x, kids, Replace(e, x, kids))
  {
    hide Numbers, Metas;
    var e' := Replace(e, x, kids);
    forall n: nat ensures n in e'.newFiles <==> n in e.newFiles || New(e, e', n) { NumbersIn(e.next, |kids|, n); }
  }

  lemma ReplaceShape(base: set<nat>, ing: set<nat>, e: Edit, e': Edit, x: nat, kids: seq<Sst>)
    requires Shape(base, ing, e) && Live(base, ing, e, x) && Grown(e, x, kids, e') && e' == Replace(e, x, kids)
    ensures Shape(base, ing, e')
  {
    hide Numbers, Metas;
    NewDistinct(e, |kids|);
    assert e'.newFiles == e.newFiles + Numbers(e.next, |kids|);
    assert forall n | n in e'.meta :: n < e'.next;
    assert e'.deleted == e'.replaced.Keys;
    hide Replace;
  }

  lemma ReplaceLive(base: set<nat>, ing: set<nat>, e: Edit, x: nat, kids: seq<Sst>, n: nat)
    requires Shape(base, ing, e) && x in e.meta
    ensures var e' := Replace(e, x, kids);
            Live(base, ing, e', n) <==> (Live(base, ing, e, n) && n != x) || New(e, e', n)
  {
    NumbersIn(e.next, |kids|, n);
  }

  lemma ReplaceKid(e: Edit, x: nat, kids: seq<Sst>, n: nat, c: nat)
    requires x in e.meta
    ensures var e' := Replace(e, x, kids);
            Kid(e', n, c) <==> (Kid(e, n, c) && n != x) || (n == x && New(e, e', c))
  {
    NumbersIn(e.next, |kids|, c);
  }

  lemma NumbersIn(next: nat, n: nat, x: nat)
    ensures x in Numbers(next, n) <==> next <= x < next + n
  {
    hide Numbers;
    if next <= x < next + n { assert Numbers(next, n)[x - next] == x; }
  }

  lemma NewDistinct(e: Edit, n: nat)
    requires forall n | n in e.newFiles :: n < e.next
    requires forall i, j | 0 <= i < j < |e.newFiles| :: e.newFiles[i] != e.newFiles[j]
    ensures var r := e.newFiles + Numbers(e.next, n);
            forall i, j | 0 <= i < j < |r| :: r[i] != r[j]
  {
    hide Numbers;
    var r := e.newFiles + Numbers(e.next, n);
    forall i, j | 0 <= i < j < |r| ensures r[i] != r[j] {
      if i < |e.newFiles| { assert e.newFiles[i] in e.newFiles; }
    }
  }

  // ---------------------------------------------------------------------
  // Parts
  // ---------------------------------------------------------------------

  lemma PartSelf(t: Sst)
    ensures SstPart(t, t)
  {
    if t.pts.Some? { FilePartSelf(t.pts.value); }
    if t.rks.Some? { FilePartSelf(t.rks.value); }
  }

  lemma FilePartSelf(f: File)
    ensures Part(f, f)
  {
    forall i | 0 <= i < |f.spans| ensures SpanWithin(f.spans[i], f.spans) {
    }
  }

  lemma PartTrans(a: Sst, b: Sst, c: Sst)
    requires SstPart(a, b) && SstPart(b, c)
    ensures SstPart(a, c)
  {
    hide Part;
    if a.pts.Some? { FilePartTrans(a.pts.value, b.pts.value, c.pts.value); }
    if a.rks.Some? { FilePartTrans(a.rks.value, b.rks.value, c.rks.value); }
  }

  lemma FilePartTrans(a: File, b: File, c: File)
    requires Part(a, b) && Part(b, c)
    ensures Part(a, c)
  {
    forall i | 0 <= i < |a.spans| ensures SpanWithin(a.spans[i], c.spans) {
      assert SpanWithin(a.spans[i], b.spans);
      var j :| 0 <= j < |b.spans| && b.spans[j].start <= a.spans[i].start && a.spans[i].end <= b.spans[j].end;
      assert SpanWithin(b.spans[j], c.spans);
    }
  }

  lemma PartMeets(a: Sst, b: Sst, m: Table)
    requires SstPart(a, b) && BoundsMeet(BoundsOf(a), m)
    ensures BoundsMeet(BoundsOf(b), m) && BoundsMeet(m, BoundsOf(b))
  {
    hide BoundsOf, Part;
  }

  lemma EndsApart(a: Table, b: Table)
    requires ProperBounds(a) && ProperBounds(b) && Ends(a, b)
    ensures !BoundsMeet(a, b) && !BoundsMeet(b, a)
  {
  }

  lemma MeetsItself(f: Sst)
    requires SstOk(f)
    ensures BoundsMeet(BoundsOf(f), BoundsOf(f)) && ProperBounds(BoundsOf(f))
  {
  }

  // ---------------------------------------------------------------------
  // Replacing keeps the invariant
  // ---------------------------------------------------------------------

  ghost predicate Splits(base: set<nat>, ing: set<nat>, e: Edit, x: nat, kids: seq<Sst>, e': Edit) {
    Inv(base, ing, e) && Replaced(base, ing, e, x, kids, e') && Live(base, ing, e, x) && Halves(kids, e.meta[x].file)
  }

  /** The file of a new number. */
  lemma NewIsPart(base: set<nat>, ing: set<nat>, e: Edit, x: nat, kids: seq<Sst>, e': Edit, n: nat)
    requires Splits(base, ing, e, x, kids, e') && New(e, e', n)
    ensures n in e'.meta && SstOk(e'.meta[n].file) && PartOf(e', n, x) && n !in e.meta && x < n
  {
    hide SstOk, SstPart, KidsOk, LiveApart, FromBase, InKids, Live, Kid;
    assert n !in e.meta;
  }

  lemma SplitFiles(base: set<nat>, ing: set<nat>, e: Edit, x: nat, kids: seq<Sst>, e': Edit)
    requires Splits(base, ing, e, x, kids, e')
    ensures FilesOk(e')
  {
    hide SstOk, SstPart, KidsOk, LiveApart, FromBase, InKids, Live, Kid;
    forall n | n in e'.meta ensures SstOk(e'.meta[n].file) {
      if n !in e.meta { NewIsPart(base, ing, e, x, kids, e', n); }
    }
  }

  lemma NewApart(base: set<nat>, ing: set<nat>, e: Edit, x: nat, kids: seq<Sst>, e': Edit, c: nat, d: nat)
    requires Splits(base, ing, e, x, kids, e') && New(e, e', c) && New(e, e', d) && c != d
    ensures c in e'.meta && d in e'.meta && !Meet(e', c, d)
  {
    hide SstOk, SstPart, KidsOk, LiveApart, FromBase, InKids, Live, Kid, Shape, FilesOk, Ends, BoundsMeet;
    NewIsPart(base, ing, e, x, kids, e', c);
    NewIsPart(base, ing, e, x, kids, e', d);
    var i, j := c - e.next, d - e.next;
    assert e'.meta[c].file == kids[i] && e'.meta[d].file == kids[j];
    MeetsItself(kids[i]);
    MeetsItself(kids[j]);
    if i < j { EndsApart(BoundsOf(kids[i]), BoundsOf(kids[j])); } else { EndsApart(BoundsOf(kids[j]), BoundsOf(kids[i])); }
  }

  lemma SplitKids(base: set<nat>, ing: set<nat>, e: Edit, x: nat, kids: seq<Sst>, e': Edit)
    requires Splits(base, ing, e, x, kids, e')
    ensures KidsOk(base, ing, e')
  {
    hide SstOk, SstPart, LiveApart, FromBase, InKids, Live, Kid, FilesOk, BoundsMeet;
    forall n, c | Kid(e', n, c) ensures n < c && c in e'.newFiles && c !in ing && PartOf(e', c, n) {
      if n == x { NewIsPart(base, ing, e, x, kids, e', c); } else { assert Kid(e, n, c); }
    }
    forall n, c, d | Kid(e', n, c) && Kid(e', n, d) && c != d && c in e'.meta && d in e'.meta ensures !Meet(e', c, d) {
      if n == x { NewApart(base, ing, e, x, kids, e', c, d); } else { assert Kid(e, n, c) && Kid(e, n, d); }
    }
  }

  lemma SplitApart(base: set<nat>, ing: set<nat>, e: Edit, x: nat, kids: seq<Sst>, e': Edit)
    requires Splits(base, ing, e, x, kids, e')
    ensures LiveApart(base, ing, e')
  {
    hide SstOk, SstPart, KidsOk, FromBase, InKids, Live, Kid, FilesOk, BoundsMeet, Halves, Shape;
    forall y, z | Live(base, ing, e', y) && Live(base, ing, e', z) && y != z && SameLevel(e', y, z) && e'.meta[y].level > 0
      ensures !Meet(e', y, z)
    {
      if New(e, e', y) && New(e, e', z) {
        NewApart(base, ing, e, x, kids, e', y, z);
      } else if New(e, e', y) {
        NewFromOld(base, ing, e, x, kids, e', y, z);
      } else if New(e, e', z) {
        NewFromOld(base, ing, e, x, kids, e', z, y);
      }
    }
  }

  /** A new file lies apart from an old one: it is part of x, which did. */
  lemma NewFromOld(base: set<nat>, ing: set<nat>, e: Edit, x: nat, kids: seq<Sst>, e': Edit, n: nat, y: nat)
    requires Splits(base, ing, e, x, kids, e') && New(e, e', n) && Live(base, ing, e, y) && y != x
    requires SameLevel(e', n, y) && e'.meta[y].level > 0
    ensures !Meet(e', n, y) && !Meet(e', y, n)
  {
    NewIsPart(base, ing, e, x, kids, e', n);
    LiveKnown(base, ing, e, y);
    hide SstOk, SstPart, KidsOk, FromBase, InKids, Live, Kid, FilesOk, Halves, Shape;
    assert SameLevel(e, x, y) && !Meet(e, x, y);
    if Meet(e', n, y) { PartMeets(e'.meta[n].file, e.meta[x].file, BoundsOf(e.meta[y].file)); }
  }

  lemma SplitFromBase(base: set<nat>, ing: set<nat>, e: Edit, x: nat, kids: seq<Sst>, e': Edit)
    requires Splits(base, ing, e, x, kids, e')
    ensures FromBase(base, ing, e')
  {
    hide SstOk, SstPart, KidsOk, LiveApart, InKids, Live, Kid, FilesOk, BoundsMeet, Halves, Shape;
    forall y | Live(base, ing, e', y) ensures exists b :: b in base && PartOf(e', y, b) {
      var z := if New(e, e', y) then x else y;
      var b :| b in base && PartOf(e, z, b);
      assert PartOf(e', z, b);
      if New(e, e', y) {
        NewIsPart(base, ing, e, x, kids, e', y);
        PartTrans(e'.meta[y].file, e'.meta[x].file, e'.meta[b].file);
        assert PartOf(e', y, b);
      }
    }
  }

  /** What meets the file just replaced is one of its replacements. */
  lemma KidsOfNew(base: set<nat>, ing: set<nat>, e: Edit, x: nat, kids: seq<Sst>, e': Edit, y: nat)
    requires Splits(base, ing, e, x, kids, e') && Live(base, ing, e', y) && SameLevel(e', x, y) && e'.meta[x].level > 0 && Meet(e', y, x)
    ensures Kid(e', x, y) && PartOf(e', y, y)
  {
    hide SstOk, SstPart, KidsOk, FromBase, InKids, Live, Kid, FilesOk, BoundsMeet, Halves, Shape, LiveApart, Meet;
    if Live(base, ing, e, y) && y != x { OldIsApart(base, ing, e, x, kids, e', y); }
    PartSelf(e'.meta[y].file);
  }

  lemma OldIsApart(base: set<nat>, ing: set<nat>, e: Edit, x: nat, kids: seq<Sst>, e': Edit, y: nat)
    requires Splits(base, ing, e, x, kids, e') && Live(base, ing, e, y) && y != x && SameLevel(e', x, y) && e'.meta[x].level > 0
    ensures !Meet(e', y, x)
  {
    LiveKnown(base, ing, e, y);
    hide SstOk, SstPart, KidsOk, FromBase, InKids, Live, Kid, FilesOk, BoundsMeet, Halves, Shape;
    assert SameLevel(e, y, x);
  }

  lemma KidsOfOld(base: set<nat>, ing: set<nat>, e: Edit, x: nat, kids: seq<Sst>, e': Edit, n: nat, y: nat)
    requires Splits(base, ing, e, x, kids, e') && n in e.replaced && n != x
    requires Live(base, ing, e', y) && SameLevel(e', n, y) && e'.meta[n].level > 0 && Meet(e', y, n)
    ensures exists c :: Kid(e', n, c) && PartOf(e', y, c)
  {
    ReplacedKnown(base, ing, e, n);
    LiveKnown(base, ing, e, y);
    hide SstOk, SstPart, FromBase, LiveApart, Live, Kid, FilesOk, BoundsMeet, Halves, Shape;
    var z := if New(e, e', y) then x else y;
    if New(e, e', y) {
      NewIsPart(base, ing, e, x, kids, e', y);
      PartMeets(e'.meta[y].file, e'.meta[x].file, BoundsOf(e'.meta[n].file));
    }
    assert SameLevel(e, n, z) && Meet(e, z, n);
    var c :| Kid(e, n, c) && PartOf(e, z, c);
    assert Kid(e', n, c) && PartOf(e', z, c);
    if New(e, e', y) {
      PartTrans(e'.meta[y].file, e'.meta[x].file, e'.meta[c].file);
      assert PartOf(e', y, c);
    }
  }

  lemma ReplacedKnown(base: set<nat>, ing: set<nat>, e: Edit, n: nat)
    requires Shape(base, ing, e) && n in e.replaced
    ensures n in e.meta
  {
  }

  lemma SplitInKids(base: set<nat>, ing: set<nat>, e: Edit, x: nat, kids: seq<Sst>, e': Edit)
    requires Splits(base, ing, e, x, kids, e')
    ensures InKids(base, ing, e')
  {
    hide SstOk, SstPart, KidsOk, LiveApart, FromBase, Live, Kid, FilesOk, BoundsMeet, Halves, Shape;
    forall n, y | n in e'.replaced && Live(base, ing, e', y) && SameLevel(e', n, y) && e'.meta[n].level > 0 && Meet(e', y, n)
      ensures exists c :: Kid(e', n, c) && PartOf(e', y, c)
    {
      if n == x {
        KidsOfNew(base, ing, e, x, kids, e', y);
      } else {
        KidsOfOld(base, ing, e, x, kids, e', n, y);
      }
    }
  }

  lemma SplitInv(base: set<nat>, ing: set<nat>, e: Edit, x: nat, kids: seq<Sst>, e': Edit)
    requires Splits(base, ing, e, x, kids, e')
    ensures Inv(base, ing, e')
  {
    SplitFiles(base, ing, e, x, kids, e');
    SplitKids(base, ing, e, x, kids, e');
    SplitApart(base, ing, e, x, kids, e');
    SplitFromBase(base, ing, e, x, kids, e');
    SplitInKids(base, ing, e, x, kids, e');
  }

  // ---------------------------------------------------------------------
  // The walk
  // ---------------------------------------------------------------------

  /** What ingestTargetLevel promises of a file to be split: it is the one file of the
      level that the ingested file's bounds meet, and it has no data within them. */
  ghost predicate JobOk(base: set<nat>, ing: set<nat>, e: Edit, j: Job) {
    && j.ingested in ing && j.split in base && SameLevel(e, j.split, j.ingested) && e.meta[j.ingested].level > 0
    && Meet(e, j.split, j.ingested) && !SstOverlap(e.meta[j.split].file, BoundsOf(e.meta[j.ingested].file))
    && (forall b | b in base && SameLevel(e, b, j.ingested) && Meet(e, b, j.ingested) :: b == j.split)
  }

  /** Nothing of its level is in the way of an ingested file. */
  ghost predicate Clear(base: set<nat>, ing: set<nat>, e: Edit, g: nat) {
    forall x | Live(base, ing, e, x) && SameLevel(e, x, g) :: !Meet(e, x, g)
  }

  /** All that is in the way of g is part of the file that the walk is at. */
  ghost predicate Walking(base: set<nat>, ing: set<nat>, e: Edit, g: nat, cur: nat) {
    && SameLevel(e, cur, g) && e.meta[g].level > 0 && (cur in base || (cur in e.newFiles && cur !in ing))
    && Meet(e, cur, g) && !SstOverlap(e.meta[cur].file, BoundsOf(e.meta[g].file))
    && (forall x | Live(base, ing, e, x) && SameLevel(e, x, g) && Meet(e, x, g) :: PartOf(e, x, cur))
  }

  lemma WalkStart(base: set<nat>, ing: set<nat>, e: Edit, j: Job)
    requires Inv(base, ing, e) && JobOk(base, ing, e, j)
    ensures Walking(base, ing, e, j.ingested, j.split)
  {
    hide SstOk, SstPart, KidsOk, LiveApart, InKids, Live, Kid, FilesOk, BoundsMeet, Shape, SstOverlap;
    var g := j.ingested;
    forall x | Live(base, ing, e, x) && SameLevel(e, x, g) && Meet(e, x, g) ensures PartOf(e, x, j.split) {
      var b :| b in base && PartOf(e, x, b);
      PartMeets(e.meta[x].file, e.meta[b].file, BoundsOf(e.meta[g].file));
    }
  }

  /** Two tables that bounds meet but that have no data within them meet each other. */
  lemma BothStraddle(a: Sst, b: Sst, m: Table)
    requires SstOk(a) && SstOk(b) && ProperBounds(m)
    requires BoundsMeet(BoundsOf(a), m) && BoundsMeet(BoundsOf(b), m) && !SstOverlap(a, m) && !SstOverlap(b, m)
    ensures BoundsMeet(BoundsOf(a), BoundsOf(b))
  {
    hide SstOk, SstOverlap;
    Straddles(a, m);
    Straddles(b, m);
  }

  /** At most one of a file's replacements is in the way. */
  lemma OneKid(base: set<nat>, ing: set<nat>, e: Edit, g: nat, cur: nat, c: nat, d: nat)
    requires Inv(base, ing, e) && Walking(base, ing, e, g, cur) && Kid(e, cur, c) && Kid(e, cur, d)
    requires c in e.meta && d in e.meta && Meet(e, c, g) && Meet(e, d, g)
    ensures c == d
  {
    hide SstOk, SstPart, LiveApart, FromBase, InKids, Live, Kid, BoundsMeet, Shape, SstOverlap;
    KidIsClear(base, ing, e, g, cur, c);
    KidIsClear(base, ing, e, g, cur, d);
    MeetsItself(e.meta[g].file);
    BothStraddle(e.meta[c].file, e.meta[d].file, BoundsOf(e.meta[g].file));
  }

  lemma KidIsClear(base: set<nat>, ing: set<nat>, e: Edit, g: nat, cur: nat, c: nat)
    requires Inv(base, ing, e) && Walking(base, ing, e, g, cur) && Kid(e, cur, c)
    ensures SameLevel(e, c, g) && c in e.newFiles && c !in ing && cur < c < e.next
    ensures !SstOverlap(e.meta[c].file, BoundsOf(e.meta[g].file))
  {
    hide SstOk, SstPart, LiveApart, FromBase, InKids, Live, Kid, BoundsMeet, SstOverlap;
    assert PartOf(e, c, cur);
    if SstOverlap(e.meta[c].file, BoundsOf(e.meta[g].file)) { SstPartOverlaps(e.meta[c].file, e.meta[cur].file, BoundsOf(e.meta[g].file)); }
  }

  /** What is in the way of g is part of a replacement, which is then in the way too. */
  lemma WayIsInKid(base: set<nat>, ing: set<nat>, e: Edit, g: nat, cur: nat, x: nat) returns (c: nat)
    requires Inv(base, ing, e) && Walking(base, ing, e, g, cur) && cur in e.replaced
    requires Live(base, ing, e, x) && SameLevel(e, x, g) && Meet(e, x, g)
    ensures Kid(e, cur, c) && PartOf(e, x, c) && Meet(e, c, g)
  {
    hide SstOk, SstPart, LiveApart, FromBase, KidsOk, Live, Kid, BoundsMeet, Shape, SstOverlap;
    MeetsItself(e.meta[x].file);
    PartMeets(e.meta[x].file, e.meta[cur].file, BoundsOf(e.meta[x].file));
    assert SameLevel(e, cur, x) && Meet(e, x, cur);
    c :| Kid(e, cur, c) && PartOf(e, x, c);
    PartMeets(e.meta[x].file, e.meta[c].file, BoundsOf(e.meta[g].file));
  }

  /** The walk goes on to the replacement that is in the way. */
  lemma WalkStep(base: set<nat>, ing: set<nat>, e: Edit, g: nat, cur: nat, c: nat)
    requires Inv(base, ing, e) && Walking(base, ing, e, g, cur) && Kid(e, cur, c) && c in e.meta && Meet(e, c, g)
    ensures Walking(base, ing, e, g, c) && cur < c < e.next
  {
    hide Inv, SstPart, Live, Kid, BoundsMeet, SstOverlap;
    KidIsClear(base, ing, e, g, cur, c);
    assert cur in e.replaced by { KidReplaced(e, cur, c); }
    forall x | Live(base, ing, e, x) && SameLevel(e, x, g) && Meet(e, x, g) ensures PartOf(e, x, c) {
      var d := WayIsInKid(base, ing, e, g, cur, x);
      OneKid(base, ing, e, g, cur, c, d);
    }
  }

  lemma KidReplaced(e: Edit, n: nat, c: nat)
    requires Kid(e, n, c)
    ensures n in e.replaced && c in e.replaced[n]
  {
  }

  /** When no replacement is in the way, nothing is. */
  lemma WalkIsOver(base: set<nat>, ing: set<nat>, e: Edit, g: nat, cur: nat)
    requires Inv(base, ing, e) && Walking(base, ing, e, g, cur) && cur in e.replaced
    requires forall c | Kid(e, cur, c) && c in e.meta :: !Meet(e, c, g)
    ensures Clear(base, ing, e, g)
  {
    hide Inv, SstPart, Live, Kid, BoundsMeet, SstOverlap, Walking;
    forall x | Live(base, ing, e, x) && SameLevel(e, x, g) ensures !Meet(e, x, g) {
      if Meet(e, x, g) {
        var c := WayIsInKid(base, ing, e, g, cur, x);
        assert false;
      }
    }
  }

  /** Splitting the file that the walk ends at clears the way. */
  lemma SplitClears(base: set<nat>, ing: set<nat>, e: Edit, g: nat, cur: nat, kids: seq<Sst>, e': Edit)
    requires Splits(base, ing, e, cur, kids, e') && Walking(base, ing, e, g, cur) && g in e.meta
    requires forall i | 0 <= i < |kids| :: !BoundsMeet(BoundsOf(kids[i]), BoundsOf(e.meta[g].file))
    ensures Clear(base, ing, e', g)
  {
    hide SstOk, SstPart, KidsOk, FromBase, InKids, Live, Kid, BoundsMeet, SstOverlap, Halves, Shape;
    forall x | Live(base, ing, e', x) && SameLevel(e', x, g) ensures !Meet(e', x, g) {
      if New(e, e', x) {
        NewIsPart(base, ing, e, cur, kids, e', x);
      } else {
        LiveKnown(base, ing, e, x);
        if Meet(e, x, g) {
          MeetsItself(e.meta[x].file);
          PartMeets(e.meta[x].file, e.meta[cur].file, BoundsOf(e.meta[x].file));
          assert false;
        }
      }
    }
  }

  /** And leaves the way of others clear. */
  lemma SplitKeepsClear(base: set<nat>, ing: set<nat>, e: Edit, g: nat, x: nat, kids: seq<Sst>, e': Edit)
    requires Splits(base, ing, e, x, kids, e') && Clear(base, ing, e, g) && g in ing
    ensures Clear(base, ing, e', g)
  {
    IngKnown(base, ing, e, g);
    hide Inv, SstPart, Live, Kid, BoundsMeet, Halves, Shape, SstOk;
    forall y | Live(base, ing, e', y) && SameLevel(e', y, g) ensures !Meet(e', y, g) {
      if New(e, e', y) {
        NewIsPart(base, ing, e, x, kids, e', y);
        if Meet(e', y, g) { PartMeets(e'.meta[y].file, e'.meta[x].file, BoundsOf(e'.meta[g].file)); }
      } else {
        LiveKnown(base, ing, e, y);
        assert SameLevel(e, y, g) && !Meet(e, y, g);
      }
    }
  }

  lemma IngKnown(base: set<nat>, ing: set<nat>, e: Edit, g: nat)
    requires Shape(base, ing, e) && g in ing
    ensures g in e.meta
  {
  }

  // ---------------------------------------------------------------------
  // What the level holds
  // ---------------------------------------------------------------------

  ghost predicate PointAt(base: set<nat>, ing: set<nat>, e: Edit, level: nat, p: Entry) {
    exists x :: Live(base, ing, e, x) && x in e.meta && e.meta[x].level == level && HasEntry(e.meta[x].file, p)
  }

  ghost predicate DelAt(base: set<nat>, ing: set<nat>, e: Edit, level: nat, k: Key, sn: nat) {
    exists x :: Live(base, ing, e, x) && x in e.meta && e.meta[x].level == level && DelOver(e.meta[x].file, k, sn)
  }

  ghost predicate RangeAt(base: set<nat>, ing: set<nat>, e: Edit, level: nat, k: Key, sn: nat) {
    exists x :: Live(base, ing, e, x) && x in e.meta && e.meta[x].level == level && RangeOver(e.meta[x].file, k, sn)
  }

  /** The two edits leave the same points, and the same tombstones and range keys over
      every key. */
  ghost predicate SameData(base: set<nat>, ing: set<nat>, e: Edit, e': Edit) {
    && (forall level, p :: PointAt(base, ing, e, level, p) <==> PointAt(base, ing, e', level, p))
    && (forall level, k: Key, sn :: DelAt(base, ing, e, level, k, sn) <==> DelAt(base, ing, e', level, k, sn))
    && (forall level, k: Key, sn :: RangeAt(base, ing, e, level, k, sn) <==> RangeAt(base, ing, e', level, k, sn))
  }

  lemma NewNumber(base: set<nat>, ing: set<nat>, e: Edit, x: nat, kids: seq<Sst>, e': Edit, i: nat)
    requires Splits(base, ing, e, x, kids, e') && i < |kids|
    ensures Live(base, ing, e', e.next + i) && e.next + i in e'.meta && e'.meta[e.next + i] == Meta(e.meta[x].level, kids[i])
  {
    hide SstOk, SstPart, KidsOk, LiveApart, FromBase, InKids, Live, Kid, FilesOk, BoundsMeet, Halves;
    assert New(e, e', e.next + i);
    assert e.next + i !in e.meta;
  }

  lemma SplitPoints(base: set<nat>, ing: set<nat>, e: Edit, x: nat, kids: seq<Sst>, e': Edit, level: nat, p: Entry)
    requires Splits(base, ing, e, x, kids, e') && (HasPoint(kids, p) <==> HasEntry(e.meta[x].file, p))
    ensures PointAt(base, ing, e, level, p) <==> PointAt(base, ing, e', level, p)
  {
    hide SstOk, SstPart, KidsOk, LiveApart, FromBase, InKids, Live, Kid, FilesOk, BoundsMeet, Halves, Shape;
    if PointAt(base, ing, e, level, p) {
      var y :| Live(base, ing, e, y) && y in e.meta && e.meta[y].level == level && HasEntry(e.meta[y].file, p);
      if y == x {
        var i :| 0 <= i < |kids| && HasEntry(kids[i], p);
        NewNumber(base, ing, e, x, kids, e', i);
      } else {
        assert Live(base, ing, e', y);
      }
    }
    if PointAt(base, ing, e', level, p) {
      var y: nat :| Live(base, ing, e', y) && y in e'.meta && e'.meta[y].level == level && HasEntry(e'.meta[y].file, p);
      if New(e, e', y) { NewNumber(base, ing, e, x, kids, e', y - e.next); } else { assert Live(base, ing, e, y); }
    }
  }

  lemma SplitDels(base: set<nat>, ing: set<nat>, e: Edit, x: nat, kids: seq<Sst>, e': Edit, level: nat, k: Key, sn: nat)
    requires Splits(base, ing, e, x, kids, e') && (HasDel(kids, k, sn) <==> DelOver(e.meta[x].file, k, sn))
    ensures DelAt(base, ing, e, level, k, sn) <==> DelAt(base, ing, e', level, k, sn)
  {
    hide SstOk, SstPart, KidsOk, LiveApart, FromBase, InKids, Live, Kid, FilesOk, BoundsMeet, Halves, Shape, HasEntry, DelOver, RangeOver;
    if DelAt(base, ing, e, level, k, sn) {
      var y :| Live(base, ing, e, y) && y in e.meta && e.meta[y].level == level && DelOver(e.meta[y].file, k, sn);
      if y == x {
        var i :| 0 <= i < |kids| && DelOver(kids[i], k, sn);
        NewNumber(base, ing, e, x, kids, e', i);
      } else {
        assert Live(base, ing, e', y);
      }
    }
    if DelAt(base, ing, e', level, k, sn) {
      var y: nat :| Live(base, ing, e', y) && y in e'.meta && e'.meta[y].level == level && DelOver(e'.meta[y].file, k, sn);
      if New(e, e', y) { NewNumber(base, ing, e, x, kids, e', y - e.next); } else { assert Live(base, ing, e, y); }
    }
  }

  lemma SplitRanges(base: set<nat>, ing: set<nat>, e: Edit, x: nat, kids: seq<Sst>, e': Edit, level: nat, k: Key, sn: nat)
    requires Splits(base, ing, e, x, kids, e') && (HasRange(kids, k, sn) <==> RangeOver(e.meta[x].file, k, sn))
    ensures RangeAt(base, ing, e, level, k, sn) <==> RangeAt(base, ing, e', level, k, sn)
  {
    hide SstOk, SstPart, KidsOk, LiveApart, FromBase, InKids, Live, Kid, FilesOk, BoundsMeet, Halves, Shape, HasEntry, DelOver, RangeOver;
    if RangeAt(base, ing, e, level, k, sn) {
      var y :| Live(base, ing, e, y) && y in e.meta && e.meta[y].level == level && RangeOver(e.meta[y].file, k, sn);
      if y == x {
        var i :| 0 <= i < |kids| && RangeOver(kids[i], k, sn);
        NewNumber(base, ing, e, x, kids, e', i);
      } else {
        assert Live(base, ing, e', y);
      }
    }
    if RangeAt(base, ing, e', level, k, sn) {
      var y: nat :| Live(base, ing, e', y) && y in e'.meta && e'.meta[y].level == level && RangeOver(e'.meta[y].file, k, sn);
      if New(e, e', y) { NewNumber(base, ing, e, x, kids, e', y - e.next); } else { assert Live(base, ing, e, y); }
    }
  }

  lemma SplitData(base: set<nat>, ing: set<nat>, e: Edit, x: nat, kids: seq<Sst>, e': Edit)
    requires Splits(base, ing, e, x, kids, e')
    requires SameHeld(e.meta[x].file, kids)
    ensures SameData(base, ing, e, e')
  {
    hide Splits, PointAt, DelAt, RangeAt, HasPoint, HasDel, HasRange, HasEntry, DelOver, RangeOver;
    forall level, k: Key, sn ensures RangeAt(base, ing, e, level, k, sn) <==> RangeAt(base, ing, e', level, k, sn) {
      SplitRanges(base, ing, e, x, kids, e', level, k, sn);
    }
    forall level, p ensures PointAt(base, ing, e, level, p) <==> PointAt(base, ing, e', level, p) {
      SplitPoints(base, ing, e, x, kids, e', level, p);
    }
    forall level, k: Key, sn ensures DelAt(base, ing, e, level, k, sn) <==> DelAt(base, ing, e', level, k, sn) {
      SplitDels(base, ing, e, x, kids, e', level, k, sn);
    }
  }

  // ---------------------------------------------------------------------
  // The edit before any split
  // ---------------------------------------------------------------------

  /** An edit that only adds the ingested files. */
  lemma FreshEdit(base: set<nat>, ing: set<nat>, e: Edit)
    requires Shape(base, ing, e) && FilesOk(e) && LiveApart(base, ing, e) && e.replaced == map[] && ing == set n | n in e.newFiles
    ensures Inv(base, ing, e)
  {
    hide SstOk, SstPart;
    forall x | Live(base, ing, e, x) ensures exists b :: b in base && PartOf(e, x, b) {
      PartSelf(e.meta[x].file);
      assert x in base && PartOf(e, x, x);
    }
  }

  /** What remains to be done when a span is excised from a version, file by file. */
  ghost predicate Excising(base: set<nat>, ing: set<nat>, start: Key, end: Key, e0: Edit, ns: seq<nat>, i: nat, e: Edit) {
    && i <= |ns| && Inv(base, ing, e)
    && (forall k | i <= k < |ns| :: Live(base, ing, e, ns[k]) && ns[k] in e.meta)
    && (forall x | Live(base, ing, e, x) && x in e.meta && SpanOverlaps(start, end, BoundsOf(e.meta[x].file)) :: x in ns[i..])
    && (forall level, p: Entry | !(start <= p.key < end) :: PointAt(base, ing, e0, level, p) <==> PointAt(base, ing, e, level, p))
    && (forall level, k: Key, sn | !(start <= k < end) :: DelAt(base, ing, e0, level, k, sn) <==> DelAt(base, ing, e, level, k, sn))
    && (forall level, k: Key, sn | !(start <= k < end) :: RangeAt(base, ing, e0, level, k, sn) <==> RangeAt(base, ing, e, level, k, sn))
  }

  lemma ExciseOne(base: set<nat>, ing: set<nat>, start: Key, end: Key, e0: Edit, ns: seq<nat>, i: nat, e: Edit, kids: seq<Sst>)
    requires Excising(base, ing, start, end, e0, ns, i, e) && i < |ns| && start <= end
    requires forall k | i < k < |ns| :: ns[k] != ns[i]
    requires Excise(e.meta[ns[i]].file, start, end) == Some(kids)
    ensures Excising(base, ing, start, end, e0, ns, i + 1, Replace(e, ns[i], kids))
  {
    hide Inv, Halves, Replace, PointAt, DelAt, RangeAt, HasRange, HasEntry, DelOver, RangeOver, HasPoint, HasDel, Excise, SpanOverlaps;
    var x := ns[i];
    var f, e' := e.meta[x].file, Replace(e, x, kids);
    FileIsOk(base, ing, e, x);
    ExciseIsExact(f, start, end, kids);
    HalvesOf(kids, f);
    ReplaceDoes(base, ing, e, x, kids) by { InvShape(base, ing, e); }
    assert Splits(base, ing, e, x, kids, e');
    SplitInv(base, ing, e, x, kids, e');
    ExciseLive(base, ing, start, end, e, ns, i, kids, e');
    hide Replaced;
    forall level, p: Entry | !(start <= p.key < end) ensures PointAt(base, ing, e0, level, p) <==> PointAt(base, ing, e', level, p) {
      SplitPoints(base, ing, e, x, kids, e', level, p);
    }
    forall level, k: Key, sn | !(start <= k < end) ensures DelAt(base, ing, e0, level, k, sn) <==> DelAt(base, ing, e', level, k, sn) {
      SplitDels(base, ing, e, x, kids, e', level, k, sn);
    }
    forall level, k: Key, sn | !(start <= k < end) ensures RangeAt(base, ing, e0, level, k, sn) <==> RangeAt(base, ing, e', level, k, sn) {
      SplitRanges(base, ing, e, x, kids, e', level, k, sn);
    }
  }

  lemma ExciseLive(base: set<nat>, ing: set<nat>, start: Key, end: Key, e: Edit, ns: seq<nat>, i: nat, kids: seq<Sst>, e': Edit)
    requires i < |ns| && Splits(base, ing, e, ns[i], kids, e')
    requires forall k | i < k < |ns| :: ns[k] != ns[i]
    requires forall k | i <= k < |ns| :: Live(base, ing, e, ns[k]) && ns[k] in e.meta
    requires forall x | Live(base, ing, e, x) && x in e.meta && SpanOverlaps(start, end, BoundsOf(e.meta[x].file)) :: x in ns[i..]
    requires forall k | 0 <= k < |kids| :: !SpanOverlaps(start, end, BoundsOf(kids[k]))
    ensures forall k | i < k < |ns| :: Live(base, ing, e', ns[k]) && ns[k] in e'.meta
    ensures forall x | Live(base, ing, e', x) && x in e'.meta && SpanOverlaps(start, end, BoundsOf(e'.meta[x].file)) :: x in ns[i + 1..]
  {
    hide Inv, Halves, SpanOverlaps, Live, Kid, Shape;
    forall x: nat | Live(base, ing, e', x) && x in e'.meta && SpanOverlaps(start, end, BoundsOf(e'.meta[x].file)) ensures x in ns[i + 1..] {
      if New(e, e', x) {
        NewNumber(base, ing, e, ns[i], kids, e', x - e.next);
      } else {
        assert x in e.meta;
        assert ns[i..] == [ns[i]] + ns[i + 1..];
      }
    }
  }

  lemma HalvesOf(kids: seq<Sst>, f: Sst)
    requires |kids| <= 2 && (|kids| == 2 ==> Ends(BoundsOf(kids[0]), BoundsOf(kids[1])))
    requires forall i | 0 <= i < |kids| :: SstOk(kids[i]) && SstPart(kids[i], f)
    ensures Halves(kids, f)
  {
    hide SstOk, SstPart, Ends;
  }

  lemma FileIsOk(base: set<nat>, ing: set<nat>, e: Edit, x: nat)
    requires Inv(base, ing, e) && x in e.meta
    ensures SstOk(e.meta[x].file)
  {
  }

  /** A file that is left alone does not overlap the span. */
  lemma ExciseNone(base: set<nat>, ing: set<nat>, start: Key, end: Key, e0: Edit, ns: seq<nat>, i: nat, e: Edit)
    requires Excising(base, ing, start, end, e0, ns, i, e) && i < |ns| && Excise(e.meta[ns[i]].file, start, end).None?
    ensures Excising(base, ing, start, end, e0, ns, i + 1, e)
  {
    hide Inv, PointAt, DelAt, RangeAt, Live;
    assert ns[i..] == [ns[i]] + ns[i + 1..];
  }

  lemma ExciseDone(base: set<nat>, ing: set<nat>, start: Key, end: Key, e0: Edit, ns: seq<nat>, e: Edit)
    requires Excising(base, ing, start, end, e0, ns, |ns|, e) && start <= end
    ensures forall x | Live(base, ing, e, x) && x in e.meta :: !SpanOverlaps(start, end, BoundsOf(e.meta[x].file))
    ensures forall level, p: Entry :: PointAt(base, ing, e, level, p) <==> PointAt(base, ing, e0, level, p) && !(start <= p.key < end)
    ensures forall level, k: Key, sn ::
              DelAt(base, ing, e, level, k, sn) <==> DelAt(base, ing, e0, level, k, sn) && !(start <= k < end)
    ensures forall level, k: Key, sn ::
              RangeAt(base, ing, e, level, k, sn) <==> RangeAt(base, ing, e0, level, k, sn) && !(start <= k < end)
  {
    hide Live, SstOk, Inv, HasEntry, DelOver, RangeOver, SpanOverlaps, BoundsOf;
    assert ns[|ns|..] == [];
    forall level, p: Entry | start <= p.key < end ensures !PointAt(base, ing, e, level, p) {
      forall x | Live(base, ing, e, x) && x in e.meta ensures !HasEntry(e.meta[x].file, p) { FileIsOk(base, ing, e, x); NotHeld(e.meta[x].file, start, end, p, 0.0, 0); }
    }
    forall level, k: Key, sn | start <= k < end ensures !DelAt(base, ing, e, level, k, sn) && !RangeAt(base, ing, e, level, k, sn) {
      forall x | Live(base, ing, e, x) && x in e.meta ensures !DelOver(e.meta[x].file, k, sn) && !RangeOver(e.meta[x].file, k, sn) {
        FileIsOk(base, ing, e, x);
        NotHeld(e.meta[x].file, start, end, Entry(0.0, 0, Set, []), k, sn);
      }
    }
  }

  /** A table whose bounds avoid a span holds nothing within it. */
  lemma NotHeld(t: Sst, start: Key, end: Key, p: Entry, k: Key, sn: nat)
    requires SstOk(t) && !SpanOverlaps(start, end, BoundsOf(t))
    ensures start <= p.key < end ==> !HasEntry(t, p)
    ensures start <= k < end ==> !DelOver(t, k, sn) && !RangeOver(t, k, sn)
  {
    hide FileOk;
  }

  /** Excising a span from every file of the version. What is left does not overlap the
      span, and is all that was outside it. */
  method ExciseSpan(base: set<nat>, ing: set<nat>, start: Key, end: Key, e0: Edit, ns: seq<nat>) returns (e: Edit)
    requires Inv(base, ing, e0) && start <= end && (forall n :: n in ns <==> Live(base, ing, e0, n))
    requires forall i, j | 0 <= i < j < |ns| :: ns[i] != ns[j]
    ensures Inv(base, ing, e)
    ensures forall x | Live(base, ing, e, x) && x in e.meta :: !SpanOverlaps(start, end, BoundsOf(e.meta[x].file))
    ensures forall level, p: Entry :: PointAt(base, ing, e, level, p) <==> PointAt(base, ing, e0, level, p) && !(start <= p.key < end)
    ensures forall level, k: Key, sn ::
              DelAt(base, ing, e, level, k, sn) <==> DelAt(base, ing, e0, level, k, sn) && !(start <= k < end)
    ensures forall level, k: Key, sn ::
              RangeAt(base, ing, e, level, k, sn) <==> RangeAt(base, ing, e0, level, k, sn) && !(start <= k < end)
  {
    e := e0;
    ExciseStart(base, ing, start, end, e0, ns);
    hide Excising, Inv, PointAt, DelAt, RangeAt, Live, Excise, SpanOverlaps;
    for i := 0 to |ns|
      invariant Excising(base, ing, start, end, e0, ns, i, e)
    {
      assert ns[i] in e.meta by { ExcisingKnown(base, ing, start, end, e0, ns, i, e); }
      var kids := Excise(e.meta[ns[i]].file, start, end);
      if kids.None? {
        ExciseNone(base, ing, start, end, e0, ns, i, e);
      } else {
        ExciseOne(base, ing, start, end, e0, ns, i, e, kids.value);
        e := Replace(e, ns[i], kids.value);
      }
    }
    ExciseDone(base, ing, start, end, e0, ns, e);
    assert Inv(base, ing, e) by { ExcisingInv(base, ing, start, end, e0, ns, e); }
  }

  lemma ExcisingKnown(base: set<nat>, ing: set<nat>, start: Key, end: Key, e0: Edit, ns: seq<nat>, i: nat, e: Edit)
    requires Excising(base, ing, start, end, e0, ns, i, e) && i < |ns|
    ensures ns[i] in e.meta
  {
  }

  lemma ExcisingInv(base: set<nat>, ing: set<nat>, start: Key, end: Key, e0: Edit, ns: seq<nat>, e: Edit)
    requires Excising(base, ing, start, end, e0, ns, |ns|, e)
    ensures Inv(base, ing, e)
  {
  }

  lemma ExciseStart(base: set<nat>, ing: set<nat>, start: Key, end: Key, e0: Edit, ns: seq<nat>)
    requires Inv(base, ing, e0) && forall n :: n in ns <==> Live(base, ing, e0, n)
    ensures Excising(base, ing, start, end, e0, ns, 0, e0)
  {
    InvShape(base, ing, e0);
    hide Inv, Live, SpanOverlaps, PointAt, DelAt, RangeAt;
    assert ns[0..] == ns;
    forall k | 0 <= k < |ns| ensures Live(base, ing, e0, ns[k]) && ns[k] in e0.meta {
      assert ns[k] in ns;
      LiveKnown(base, ing, e0, ns[k]);
    }
  }

  // ---------------------------------------------------------------------
  // ingestSplit
  // ---------------------------------------------------------------------

  lemma WalkKnown(base: set<nat>, ing: set<nat>, e: Edit, g: nat, cur: nat)
    requires Inv(base, ing, e) && Walking(base, ing, e, g, cur)
    ensures g in e.meta && cur in e.meta && cur < e.next
  {
  }

  lemma KidKnown(base: set<nat>, ing: set<nat>, e: Edit, n: nat, i: nat)
    requires Inv(base, ing, e) && n in e.replaced && i < |e.replaced[n]|
    ensures Kid(e, n, e.replaced[n][i]) && e.replaced[n][i] in e.meta && e.replaced[n][i] !in e.replaced[n][..i]
  {
    hide SstOk, SstPart, LiveApart, FromBase, InKids, Live, FilesOk, BoundsMeet;
    assert Kid(e, n, e.replaced[n][i]);
  }

  lemma NoKidMeets(e: Edit, g: nat, n: nat)
    requires g in e.meta && n in e.replaced
    requires forall k | 0 <= k < |e.replaced[n]| :: e.replaced[n][k] in e.meta && !Meet(e, e.replaced[n][k], g)
    ensures forall c | Kid(e, n, c) && c in e.meta :: !Meet(e, c, g)
  {
  }

  /** The walk down the tree: the file that is in the way, if there is one. */
  method FindInTheWay(base: set<nat>, ing: set<nat>, e: Edit, j: Job) returns (r: Option<nat>)
    requires Inv(base, ing, e) && JobOk(base, ing, e, j)
    ensures r.None? ==> Clear(base, ing, e, j.ingested)
    ensures r.Some? ==> Walking(base, ing, e, j.ingested, r.value) && r.value !in e.replaced
  {
    hide Inv, JobOk, Walking, Clear, Kid, Meet;
    WalkStart(base, ing, e, j);
    var cur, g := j.split, j.ingested;
    WalkKnown(base, ing, e, g, cur);
    while cur in e.replaced
      invariant Walking(base, ing, e, g, cur) && g in e.meta && cur <= e.next
      decreases e.next - cur
    {
      var kids := e.replaced[cur];
      var found: Option<nat> := None;
      for i := 0 to |kids|
        invariant found.Some? ==> Kid(e, cur, found.value) && found.value in e.meta && Meet(e, found.value, g) && found.value in kids[..i]
        invariant forall k | 0 <= k < i :: kids[k] in e.meta && (Meet(e, kids[k], g) ==> found == Some(kids[k]))
      {
        KidKnown(base, ing, e, cur, i);
        if Meet(e, kids[i], g) {
          // A second file in the way would be a panic.
          assert found.None? by {
            if found.Some? { OneKid(base, ing, e, g, cur, found.value, kids[i]); }
          }
          found := Some(kids[i]);
        }
      }
      if found.None? {
        NoKidMeets(e, g, cur);
        WalkIsOver(base, ing, e, g, cur);
        return None;
      }
      WalkStep(base, ing, e, g, cur, found.value);
      cur := found.value;
    }
    r := Some(cur);
  }

  /** What excise leaves of the file in the way: two halves that are out of the way,
      with all its data. That they are two, and that neither overlaps the ingested
      file, rules out the two panics after the call to excise. */
  lemma InTheWaySplits(base: set<nat>, ing: set<nat>, e: Edit, g: nat, cur: nat) returns (kids: seq<Sst>)
    requires Inv(base, ing, e) && Walking(base, ing, e, g, cur) && cur !in e.replaced
    ensures cur in e.meta && g in e.meta && Live(base, ing, e, cur)
    ensures Excise(e.meta[cur].file, BoundsOf(e.meta[g].file).smallest, BoundsOf(e.meta[g].file).largest) == Some(kids)
    ensures Halves(kids, e.meta[cur].file) && |kids| == 2
    ensures forall i | 0 <= i < |kids| :: !BoundsMeet(BoundsOf(kids[i]), BoundsOf(e.meta[g].file)) && !BoundsMeet(BoundsOf(e.meta[g].file), BoundsOf(kids[i]))
    ensures SameHeld(e.meta[cur].file, kids)
  {
    hide SstOk, SstPart, KidsOk, LiveApart, FromBase, InKids, SstOverlap, Excise, HasPoint, HasDel, HasEntry, DelOver, RangeOver, BoundsMeet, Ends;
    var f, m := e.meta[cur].file, BoundsOf(e.meta[g].file);
    MeetsItself(e.meta[g].file);
    Proper(m);
    kids := SplitMakesRoom(f, m);
    ExciseIsExact(f, m.smallest, m.largest, kids);
    MeetsItself(kids[0]);
    MeetsItself(kids[1]);
    EndsApart(BoundsOf(kids[0]), m);
    EndsApart(m, BoundsOf(kids[1]));
  }

  lemma Proper(m: Table)
    requires ProperBounds(m)
    ensures m.smallest <= m.largest
  {
  }

  lemma SplitKeepsJob(base: set<nat>, ing: set<nat>, e: Edit, x: nat, kids: seq<Sst>, e': Edit, j: Job)
    requires Splits(base, ing, e, x, kids, e') && JobOk(base, ing, e, j)
    ensures JobOk(base, ing, e', j)
  {
    hide SstOk, SstPart, KidsOk, LiveApart, FromBase, InKids, Live, Kid, FilesOk, BoundsMeet, SstOverlap, Halves;
    forall b | b in base && SameLevel(e', b, j.ingested) && Meet(e', b, j.ingested) ensures b == j.split {
      assert b in e.meta && SameLevel(e, b, j.ingested) && Meet(e, b, j.ingested);
    }
  }

  /** The state of the loop over the files to be split. */
  ghost predicate Splitting(base: set<nat>, ing: set<nat>, e0: Edit, jobs: seq<Job>, i: nat, e: Edit) {
    && i <= |jobs| && Inv(base, ing, e) && SameData(base, ing, e0, e)
    && (forall k | 0 <= k < |jobs| :: JobOk(base, ing, e, jobs[k]))
    && (forall k | 0 <= k < i :: Clear(base, ing, e, jobs[k].ingested))
    && (forall g | g in ing && Clear(base, ing, e0, g) :: Clear(base, ing, e, g))
    && (forall n | n in e0.meta :: n in e.meta && e.meta[n] == e0.meta[n])
  }

  lemma SplitOne(base: set<nat>, ing: set<nat>, e0: Edit, jobs: seq<Job>, i: nat, e: Edit, cur: nat, kids: seq<Sst>)
    requires Splitting(base, ing, e0, jobs, i, e) && i < |jobs| && Walking(base, ing, e, jobs[i].ingested, cur) && cur !in e.replaced
    requires cur in e.meta && jobs[i].ingested in e.meta && Live(base, ing, e, cur) && Halves(kids, e.meta[cur].file)
    requires forall k | 0 <= k < |kids| :: !BoundsMeet(BoundsOf(kids[k]), BoundsOf(e.meta[jobs[i].ingested].file))
    requires SameHeld(e.meta[cur].file, kids)
    ensures Splitting(base, ing, e0, jobs, i + 1, Replace(e, cur, kids))
  {
    hide Inv, Clear, JobOk, SameData, Walking, Live, Halves, Replaced, Replace, HasPoint, HasDel, HasEntry, DelOver, RangeOver, BoundsMeet, Grown;
    var e' := Replace(e, cur, kids);
    ReplaceDoes(base, ing, e, cur, kids) by { InvShape(base, ing, e); }
    SplitInv(base, ing, e, cur, kids, e');
    SplitData(base, ing, e, cur, kids, e');
    SameDataTrans(base, ing, e0, e, e');
    ReplacedKeeps(base, ing, e, cur, kids, e');
    forall k | 0 <= k < |jobs| ensures JobOk(base, ing, e', jobs[k]) { SplitKeepsJob(base, ing, e, cur, kids, e', jobs[k]); }
    SplitClears(base, ing, e, jobs[i].ingested, cur, kids, e');
    forall k | 0 <= k < i ensures Clear(base, ing, e', jobs[k].ingested) {
      JobIngests(base, ing, e, jobs[k]);
      SplitKeepsClear(base, ing, e, jobs[k].ingested, cur, kids, e');
    }
    forall g | g in ing && Clear(base, ing, e0, g) ensures Clear(base, ing, e', g) {
      SplitKeepsClear(base, ing, e, g, cur, kids, e');
    }
  }

  lemma InvShape(base: set<nat>, ing: set<nat>, e: Edit)
    requires Inv(base, ing, e)
    ensures Shape(base, ing, e)
  {
  }

  lemma JobIngests(base: set<nat>, ing: set<nat>, e: Edit, j: Job)
    requires JobOk(base, ing, e, j)
    ensures j.ingested in ing
  {
  }

  lemma SameDataTrans(base: set<nat>, ing: set<nat>, a: Edit, b: Edit, c: Edit)
    requires SameData(base, ing, a, b) && SameData(base, ing, b, c)
    ensures SameData(base, ing, a, c)
  {
    hide PointAt, DelAt, RangeAt;
  }

  lemma ReplacedKeeps(base: set<nat>, ing: set<nat>, e: Edit, x: nat, kids: seq<Sst>, e': Edit)
    requires Replaced(base, ing, e, x, kids, e')
    ensures forall n | n in e.meta :: n in e'.meta && e'.meta[n] == e.meta[n]
  {
  }

  /** What the flattened edit r makes of edit e: it deletes only files of the version
      and adds only what it does not delete, and the same files are live. */
  ghost predicate Flattened(base: set<nat>, ing: set<nat>, e: Edit, r: Edit) {
    && r == e.(newFiles := r.newFiles, deleted := r.deleted) && r.deleted <= base
    && (forall n | n in r.newFiles :: n !in r.deleted) && ing <= (set n | n in r.newFiles)
    && (forall i, j | 0 <= i < j < |r.newFiles| :: r.newFiles[i] != r.newFiles[j])
    && (forall n: nat :: Live(base, ing, r, n) <==> Live(base, ing, e, n))
  }

  function Kept(ns: seq<nat>, deleted: set<nat>): (r: seq<nat>)
    ensures forall n :: n in r <==> n in ns && n !in deleted
    ensures (forall i, j | 0 <= i < j < |ns| :: ns[i] != ns[j]) ==> forall i, j | 0 <= i < j < |r| :: r[i] != r[j]
  {
    if ns == [] then []
    else
      var last := |ns| - 1;
      assert ns == ns[..last] + [ns[last]];
      Kept(ns[..last], deleted) + if ns[last] in deleted then [] else [ns[last]]
  }

  /** Entries of the edit that are both added and deleted are dropped. */
  method Flatten(base: set<nat>, ing: set<nat>, e: Edit) returns (r: Edit)
    requires Shape(base, ing, e)
    ensures Flattened(base, ing, e, r)
  {
    hide Shape, Flattened, Kept;
    var newFiles: seq<nat>, deleted := [], e.deleted;
    NoneKept(e.deleted);
    for i := 0 to |e.newFiles|
      invariant newFiles == Kept(e.newFiles[..i], e.deleted)
      invariant deleted == e.deleted - set n | n in e.newFiles[..i]
    {
      var n := e.newFiles[i];
      assert e.newFiles[..i + 1] == e.newFiles[..i] + [n];
      KeptMore(e.newFiles[..i], n, e.deleted);
      Distinct(base, ing, e, i);
      if n in deleted { deleted := deleted - {n}; } else { newFiles := newFiles + [n]; }
    }
    assert e.newFiles[..|e.newFiles|] == e.newFiles;
    r := e.(newFiles := newFiles, deleted := deleted);
    FlattensTo(base, ing, e, r);
  }

  lemma NoneKept(deleted: set<nat>)
    ensures Kept([], deleted) == []
  {
  }

  lemma KeptMore(ns: seq<nat>, n: nat, deleted: set<nat>)
    ensures Kept(ns + [n], deleted) == Kept(ns, deleted) + if n in deleted then [] else [n]
  {
    assert (ns + [n])[..|ns|] == ns;
  }

  lemma Distinct(base: set<nat>, ing: set<nat>, e: Edit, i: nat)
    requires Shape(base, ing, e) && i < |e.newFiles|
    ensures e.newFiles[i] !in e.newFiles[..i]
  {
  }

  lemma FlattensTo(base: set<nat>, ing: set<nat>, e: Edit, r: Edit)
    requires Shape(base, ing, e)
    requires r == e.(newFiles := Kept(e.newFiles, e.deleted), deleted := e.deleted - set n | n in e.newFiles)
    ensures Flattened(base, ing, e, r)
  {
    hide Kept;
  }

  lemma FlattenedSame(base: set<nat>, ing: set<nat>, e: Edit, r: Edit)
    requires Flattened(base, ing, e, r)
    ensures SameData(base, ing, e, r) && (LiveApart(base, ing, e) ==> LiveApart(base, ing, r))
    ensures forall g :: Clear(base, ing, e, g) ==> Clear(base, ing, r, g)
  {
    hide Live, BoundsMeet, HasEntry, DelOver, RangeOver;
  }

  /** ingestSplit. Every ingested file for which a file was to be split, and every one
      that nothing was in the way of before, has nothing of its level in the way.
      Files of a level still lie apart, and together hold what they held. The edit
      deletes files of the version only, and what it adds it does not delete. */
  method Split(base: set<nat>, ing: set<nat>, e0: Edit, jobs: seq<Job>) returns (r: Edit)
    requires Inv(base, ing, e0) && forall k | 0 <= k < |jobs| :: JobOk(base, ing, e0, jobs[k])
    ensures forall k | 0 <= k < |jobs| :: Clear(base, ing, r, jobs[k].ingested)
    ensures forall g | g in ing && Clear(base, ing, e0, g) :: Clear(base, ing, r, g)
    ensures SameData(base, ing, e0, r) && LiveApart(base, ing, r) && FilesOk(r)
    ensures forall n | n in e0.meta :: n in r.meta && r.meta[n] == e0.meta[n]
    ensures r.deleted <= base && (forall n | n in r.newFiles :: n !in r.deleted) && ing <= (set n | n in r.newFiles)
    ensures forall i, j | 0 <= i < j < |r.newFiles| :: r.newFiles[i] != r.newFiles[j]
  {
    hide Inv, JobOk, Clear, Walking, SameData, Live, Halves, Excise, LiveApart;
    var e := e0;
    assert SameData(base, ing, e0, e) by { SameDataSelf(base, ing, e); }
    for i := 0 to |jobs|
      invariant Splitting(base, ing, e0, jobs, i, e)
    {
      var inTheWay := FindInTheWay(base, ing, e, jobs[i]);
      if inTheWay.Some? {
        var cur, g := inTheWay.value, jobs[i].ingested;
        ghost var halves := InTheWaySplits(base, ing, e, g, cur);
        var bounds := BoundsOf(e.meta[g].file);
        var kids := Excise(e.meta[cur].file, bounds.smallest, bounds.largest).value;
        SplitOne(base, ing, e0, jobs, i, e, cur, kids);
        e := Replace(e, cur, kids);
      }
    }
    InvShape(base, ing, e);
    r := Flatten(base, ing, e);
    FlattenedSame(base, ing, e, r);
    SameDataTrans(base, ing, e0, e, r);
    InvApart(base, ing, e);
  }

  lemma SameDataSelf(base: set<nat>, ing: set<nat>, e: Edit)
    ensures SameData(base, ing, e, e)
  {
  }

  lemma InvApart(base: set<nat>, ing: set<nat>, e: Edit)
    requires Inv(base, ing, e)
    ensures LiveApart(base, ing, e) && FilesOk(e)
  {
  }
}
