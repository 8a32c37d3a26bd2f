/**
Space in a memtable's arena (mem_table.go, batch.go, internal/arenaskl). A batch
reserves an over-estimate of its space while the commit mutex is held, and its
records are inserted later, concurrently with those of other batches. When no
batch is in flight the reservation is cut back to what is in use.

The methods are the atomic steps; a client may call them in any order that
their preconditions allow.
*/
module MemTable {
  import opened Options
  import opened BatchCodec

  const MAX_UINT32: nat := 0xFFFF_FFFF
  const MAX_HEIGHT: nat := 20
  const LINKS_SIZE: nat := 8
  const NODE_HEADER: nat := 24

  /** A batch that has reserved space: what is left of its reservation, the records it
      has yet to apply, and whether it still holds its writer reference. */
  datatype InFlight = InFlight(left: nat, todo: seq<Record>, live: bool)

  function Left(bs: seq<InFlight>): nat {
    if bs == [] then 0 else Left(bs[..|bs| - 1]) + bs[|bs| - 1].left
  }

  function Live(bs: seq<InFlight>): nat {
    if bs == [] then 0 else Live(bs[..|bs| - 1]) + (if bs[|bs| - 1].live then 1 else 0)
  }

  lemma {:induction false} Update(bs: seq<InFlight>, i: nat, b: InFlight)
    requires i < |bs|
    ensures Left(bs[i := b]) == Left(bs) - bs[i].left + b.left
    ensures Live(bs[i := b]) == Live(bs) - (if bs[i].live then 1 else 0) + (if b.live then 1 else 0)
  {
    var n := |bs| - 1;
    if i == n {
      assert bs[i := b][..n] == bs[..n];
    } else {
      Update(bs[..n], i, b);
      assert bs[i := b][..n] == bs[..n][i := b];
    }
  }

  lemma Append(bs: seq<InFlight>, b: InFlight)
    ensures Left(bs + [b]) == Left(bs) + b.left
    ensures Live(bs + [b]) == Live(bs) + (if b.live then 1 else 0)
  {
    assert (bs + [b])[..|bs|] == bs;
  }

  lemma {:induction false} NoneLive(bs: seq<InFlight>)
    requires Live(bs) == 0 && forall i | 0 <= i < |bs| && !bs[i].live :: bs[i].left == 0
    ensures Left(bs) == 0
  {
    if bs != [] {
      NoneLive(bs[..|bs| - 1]);
    }
  }

  /** The part of a full tower that a node of some height leaves out. */
  function Unused(height: nat): nat
    requires height <= MAX_HEIGHT
  {
    (MAX_HEIGHT - height) * LINKS_SIZE
  }

  /** What is reserved for a batch is enough for the rest of it. */
  predicate Enough(b: InFlight) {
    if b.live then Needed(b.todo) <= b.left else b.left == 0
  }

  class Arena {
    const capacity: nat
    var used: nat          // bytes handed out
    var reserved: nat      // bytes handed out or promised
    var writerRefs: int
    ghost var queued: bool              // the mutable memtable: the queue holds a reference
    ghost var batches: seq<InFlight>    // every batch ever prepared

    ghost predicate Valid()
      reads this
    {
      && capacity <= MAX_UINT32
      && used + Left(batches) <= reserved <= capacity
      && writerRefs == Live(batches) + (if queued then 1 else 0)
      && (forall i | 0 <= i < |batches| :: Enough(batches[i]))
    }

    constructor (capacity: nat, empty: nat)
      requires empty <= capacity <= MAX_UINT32
      ensures Valid() && queued && batches == [] && used == empty && this.capacity == capacity
    {
      this.capacity := capacity;
      used, reserved, writerRefs := empty, empty, 1;
      queued, batches := true, [];
    }

    /** Only the holder of the queue's reference may ask. The result is exact when no
        batch is in flight, and never too large. */
    method AvailBytes() returns (n: nat)
      requires Valid() && queued
      modifies `reserved
      ensures Valid() && n == capacity - reserved && used + Left(batches) + n <= capacity
      ensures n == capacity - (if Live(batches) == 0 then used else old(reserved))
    {
      hide Needed;
      if writerRefs == 1 {
        NoneLive(batches);
        reserved := used;
      }
      n := capacity - reserved;
    }

    /** prepare: reserve space for a batch that will apply the records todo, or say that
        it does not fit. When it is alone, it is turned away exactly when it does not fit
        in what is not used, and otherwise in what is neither used nor promised. */
    method Prepare(memTableSize: nat, ghost todo: seq<Record>) returns (ok: bool)
      requires Valid() && queued && Needed(todo) <= memTableSize
      modifies this
      ensures Valid() && queued && used == old(used)
      ensures if ok then batches == old(batches) + [InFlight(memTableSize, todo, true)] else batches == old(batches)
      ensures var taken := if Live(old(batches)) == 0 then used else old(reserved);
              (ok <==> memTableSize <= capacity - taken) && reserved == if ok then taken + memTableSize else taken
    {
      hide Needed, Left, Live;
      var avail := AvailBytes();
      if memTableSize > avail { return false; }
      reserved := reserved + memTableSize;
      writerRefs := writerRefs + 1;
      Append(batches, InFlight(memTableSize, todo, true));
      batches := batches + [InFlight(memTableSize, todo, true)];
      ok := true;
    }

    /** Apply the next record of batch b. The arena never turns it away: the check
        against the arena's end, which also makes room for the part of the tower that
        the node leaves out, always succeeds. The node gets space of its own, aligned,
        for its header, a tower of its height, the key and the value. Log data takes no
        space. */
    method Add(ghost b: nat, r: Record, height: nat) returns (ok: bool, offset: nat, size: nat)
      requires Valid() && b < |batches| && batches[b].live && batches[b].todo != [] && r == batches[b].todo[0]
      requires 1 <= height <= MAX_HEIGHT && r.kind != INGEST_SST
      modifies this
      ensures Valid() && ok && queued == old(queued) && reserved == old(reserved) && (used > old(used) <==> Applied(r))
      ensures Applied(r) ==> size == NODE_HEADER + height * LINKS_SIZE + |r.key| + |r.value| && offset % NODE_ALIGNMENT == 0
      ensures Applied(r) ==> old(used) <= offset && offset + size <= used && used + (MAX_HEIGHT - height) * LINKS_SIZE <= capacity
      ensures !Applied(r) ==> used == old(used)
      ensures batches == old(batches)[b := InFlight(old(batches)[b].left - (if Applied(r) then SizeOf(r) else 0), old(batches)[b].todo[1..], true)]
    {
      hide Needed, Left, Live;
      ok, offset, size := false, 0, 0;
      ghost var was := batches[b];
      assert Enough(was);
      NeededHead(was.todo);
      ghost var now := InFlight(was.left - (if Applied(r) then SizeOf(r) else 0), was.todo[1..], true);
      LeftAtLeast(batches, b);
      Update(batches, b, now);
      if r.kind != LOG_DATA {
        size := MAX_NODE_SIZE - Unused(height) + |r.key| + |r.value|;
        var padded := size + NODE_ALIGNMENT - 1;
        if used > capacity { return; }
        used := used + padded;
        if used + Unused(height) > capacity { return; }
        offset := (used - size) / NODE_ALIGNMENT * NODE_ALIGNMENT;
      }
      batches := batches[b := now];
      ok := true;
    }

    /** writerUnref of a batch that has been applied. */
    method WriterUnref(ghost b: nat) returns (wasLastRef: bool)
      requires Valid() && b < |batches| && batches[b].live
      modifies this
      ensures Valid() && queued == old(queued) && used == old(used) && reserved == old(reserved) && 0 <= writerRefs
      ensures batches == old(batches)[b := InFlight(0, [], false)]
      ensures wasLastRef <==> !queued && forall i | 0 <= i < |batches| :: !batches[i].live
    {
      hide Needed;
      Update(batches, b, InFlight(0, [], false));
      LiveIs(batches[b := InFlight(0, [], false)]);
      writerRefs := writerRefs - 1;
      batches := batches[b := InFlight(0, [], false)];
      wasLastRef := writerRefs == 0;
    }

    /** The memtable stops being the mutable one. */
    method Rotate() returns (wasLastRef: bool)
      requires Valid() && queued
      modifies this
      ensures Valid() && !queued && used == old(used) && reserved == old(reserved) && batches == old(batches)
      ensures wasLastRef <==> forall i | 0 <= i < |batches| :: !batches[i].live
    {
      hide Needed;
      LiveIs(batches);
      writerRefs := writerRefs - 1;
      queued := false;
      wasLastRef := writerRefs == 0;
    }
  }

  /** A batch on its way into a memtable: its size is settled, and space is reserved for
      every record that applying it will read. A batch of a store with a SETWITHDEL is
      the exception: its size need not bound what is read. */
  method PrepareBatch(b: Batch, a: Arena) returns (sized: bool, ok: bool)
    requires b.Valid() && b.data != [] && (b.db ==> !HasSetWithDelete(b.records)) && a.Valid() && a.queued
    modifies b`memTableSize, a
    ensures a.Valid() && b.Valid() && (sized <==> DecodeAll(b.data[HEADER_LEN..]).Some?) && (ok ==> sized)
    ensures ok ==> a.batches == old(a.batches) + [InFlight(b.memTableSize, DecodeAll(b.data[HEADER_LEN..]).value, true)]
    ensures !ok ==> a.batches == old(a.batches)
    ensures sized ==> (ok <==> b.memTableSize <= a.capacity - (if Live(old(a.batches)) == 0 then a.used else old(a.reserved)))
  {
    hide DecodeAll, EncodeAll, Needed;
    ok := false;
    sized := b.SizeForCommit();
    BatchRoundTrip(b.records);
    if sized { ok := a.Prepare(b.memTableSize, DecodeAll(b.data[HEADER_LEN..]).value); }
  }

  lemma NeededHead(rs: seq<Record>)
    requires rs != []
    ensures Needed(rs) == (if Applied(rs[0]) then SizeOf(rs[0]) else 0) + Needed(rs[1..])
  {
  }

  lemma {:induction false} LeftAtLeast(bs: seq<InFlight>, i: nat)
    requires i < |bs|
    ensures bs[i].left <= Left(bs)
  {
    if i < |bs| - 1 {
      LeftAtLeast(bs[..|bs| - 1], i);
    }
  }

  lemma {:induction false} LiveIs(bs: seq<InFlight>)
    ensures Live(bs) == 0 <==> forall i | 0 <= i < |bs| :: !bs[i].live
  {
    if bs != [] {
      LiveIs(bs[..|bs| - 1]);
    }
  }

  /** Cutting the reservation back when one reference is left is right exactly when
      that reference is the queue's, or the batch that holds it has nothing left to
      insert: after a rotation the last writer may still be inserting. */
  lemma CutBackCondition(used: nat, batches: seq<InFlight>, queued: bool)
    requires forall i | 0 <= i < |batches| && !batches[i].live :: batches[i].left == 0
    requires Live(batches) + (if queued then 1 else 0) == 1
    ensures used + Left(batches) <= used <==> queued || forall i | 0 <= i < |batches| && batches[i].live :: batches[i].left == 0
  {
    if queued {
      NoneLive(batches);
    } else if forall i | 0 <= i < |batches| && batches[i].live :: batches[i].left == 0 {
      AllZero(batches);
    } else {
      var i :| 0 <= i < |batches| && batches[i].live && batches[i].left != 0;
      LeftAtLeast(batches, i);
    }
  }

  lemma {:induction false} AllZero(bs: seq<InFlight>)
    requires forall i | 0 <= i < |bs| :: bs[i].left == 0
    ensures Left(bs) == 0
  {
    if bs != [] {
      AllZero(bs[..|bs| - 1]);
    }
  }
}
