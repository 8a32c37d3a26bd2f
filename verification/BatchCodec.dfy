/**
The batch format (batch.go): the operations that append records, the reader, and
the flushable form of a large batch, which must look like a memtable that the
batch was applied to (mem_table.go).
*/
module BatchCodec {
  import opened Options
  import opened Lsm

  const HEADER_LEN: nat := 12
  const COUNT_OFFSET: nat := 8

  // kinds as they are stored
  const DELETE: nat := 0
  const SET: nat := 1
  const MERGE: nat := 2
  const LOG_DATA: nat := 3
  const SINGLE_DELETE: nat := 7
  const RANGE_DELETE: nat := 15
  const SET_WITH_DELETE: nat := 18
  const RANGE_KEY_DELETE: nat := 19
  const RANGE_KEY_UNSET: nat := 20
  const RANGE_KEY_SET: nat := 21
  const INGEST_SST: nat := 22
  const DELETE_SIZED: nat := 23
  const KIND_MAX: nat := 23

  type Bytes = seq<Byte>

  datatype Record = Record(kind: nat, key: Bytes, value: Bytes)

  /** The kinds whose value the reader reads. */
  predicate ReadsValue(kind: nat) {
    || kind == SET || kind == MERGE || kind == RANGE_DELETE || kind == DELETE_SIZED
    || kind == RANGE_KEY_SET || kind == RANGE_KEY_UNSET || kind == RANGE_KEY_DELETE
  }

  /** The kinds whose value is written. */
  predicate WritesValue(kind: nat) {
    ReadsValue(kind) || kind == SET_WITH_DELETE
  }

  const UINT32: nat := 0x1_0000_0000

  predicate RecordOk(r: Record) {
    && r.kind <= KIND_MAX && |r.key| < UINT32 && |r.value| < UINT32
    && (!WritesValue(r.kind) ==> r.value == [])
  }

  // ---------------------------------------------------------------------
  // Strings
  // ---------------------------------------------------------------------

  function PutUvarint(x: nat): (r: Bytes)
    ensures 1 <= |r|
  {
    if x >= 0x80 then [x % 0x80 + 0x80] + PutUvarint(x / 0x80) else [x]
  }

  function PutStr(s: Bytes): Bytes {
    PutUvarint(|s|) + s
  }

  /** The decoder that the source writes out group by group: a value and its length,
      or nothing when the bytes run out. Of the last of n groups only four bits fit
      a 32-bit word, and its continuation bit is not looked at. */
  function GetUvarint(d: Bytes, n: nat): (r: Option<(nat, nat)>)
    requires 0 < n
    ensures r.Some? ==> 1 <= r.value.1 <= |d|
  {
    if d == [] then None
    else if n == 1 then Some((d[0] % 16, 1))
    else if d[0] < 128 then Some((d[0], 1))
    else
      var r := GetUvarint(d[1..], n - 1);
      if r.None? then None else Some((r.value.0 * 128 + d[0] % 128, r.value.1 + 1))
  }

  /** batchDecodeStr: the string, and what follows it. */
  function DecodeStr(d: Bytes): (r: Option<(Bytes, Bytes)>)
    ensures r.Some? ==> |r.value.1| < |d|
  {
    var u := GetUvarint(d, 5);
    if u.None? then None
    else
      var (v, n) := u.value;
      if v > |d| - n then None else Some((d[n..n + v], d[n + v..]))
  }

  /** How many values n groups have. */
  function Capacity(n: nat): nat
    requires 0 < n
  {
    if n == 1 then 16 else 128 * Capacity(n - 1)
  }

  /** The writer's digits are the reader's. */
  lemma {:induction false} UvarintRoundTrip(x: nat, rest: Bytes, n: nat)
    requires 0 < n && x < Capacity(n)
    ensures GetUvarint(PutUvarint(x) + rest, n) == Some((x, |PutUvarint(x)|))
  {
    var d := PutUvarint(x) + rest;
    if x < 0x80 {
      assert d[0] == x;
    } else {
      assert n > 1 && x / 0x80 < Capacity(n - 1);
      UvarintRoundTrip(x / 0x80, rest, n - 1);
      assert d[1..] == PutUvarint(x / 0x80) + rest;
    }
  }

  lemma StrRoundTrip(s: Bytes, rest: Bytes)
    requires |s| < UINT32
    ensures DecodeStr(PutStr(s) + rest) == Some((s, rest))
  {
    hide PutUvarint, GetUvarint;
    var d := PutStr(s) + rest;
    var n := |PutUvarint(|s|)|;
    assert d == PutUvarint(|s|) + (s + rest);
    assert Capacity(5) == UINT32;
    UvarintRoundTrip(|s|, s + rest, 5);
    assert d[n..n + |s|] == s && d[n + |s|..] == rest;
  }

  // ---------------------------------------------------------------------
  // Records
  // ---------------------------------------------------------------------

  function Encode(r: Record): (d: Bytes)
    requires RecordOk(r)
    ensures d != []
  {
    [r.kind] + PutStr(r.key) + (if WritesValue(r.kind) then PutStr(r.value) else [])
  }

  datatype Item = End | Corrupt | Read(r: Record, rest: Bytes)

  /** BatchReader.Next. */
  function Next(d: Bytes): (i: Item)
    ensures i.Read? ==> |i.rest| < |d|
  {
    if d == [] then End
    else if d[0] > KIND_MAX then Corrupt
    else
      var k := DecodeStr(d[1..]);
      if k.None? then Corrupt
      else if !ReadsValue(d[0]) then Read(Record(d[0], k.value.0, []), k.value.1)
      else
        var v := DecodeStr(k.value.1);
        if v.None? then Corrupt else Read(Record(d[0], k.value.0, v.value.0), v.value.1)
  }

  /** The reader gets a record back and stands behind it, exactly when the record is
      not a SETWITHDEL: of that kind the value is written and not read. */
  lemma NextReadsRecord(r: Record, rest: Bytes)
    requires RecordOk(r)
    ensures Next(Encode(r) + rest) == Read(r, rest) <==> r.kind != SET_WITH_DELETE
  {
    hide PutUvarint, GetUvarint, DecodeStr, PutStr;
    var d := Encode(r) + rest;
    var after := (if WritesValue(r.kind) then PutStr(r.value) else []) + rest;
    assert d[1..] == PutStr(r.key) + after;
    StrRoundTrip(r.key, after);
    if WritesValue(r.kind) {
      StrRoundTrip(r.value, rest);
      assert |PutStr(r.value)| > 0 by { StrNotEmpty(r.value); }
    } else {
      assert after == rest;
    }
  }

  lemma StrNotEmpty(s: Bytes)
    ensures PutStr(s) != []
  {
  }

  function EncodeAll(rs: seq<Record>): Bytes
    requires forall i | 0 <= i < |rs| :: RecordOk(rs[i])
  {
    if rs == [] then [] else Encode(rs[0]) + EncodeAll(rs[1..])
  }

  function DecodeAll(d: Bytes): Option<seq<Record>>
    decreases |d|
  {
    match Next(d)
    case End => Some([])
    case Corrupt => None
    case Read(r, rest) =>
      var more := DecodeAll(rest);
      if more.None? then None else Some([r] + more.value)
  }

  predicate AllOk(rs: seq<Record>) {
    forall i | 0 <= i < |rs| :: RecordOk(rs[i])
  }

  predicate HasSetWithDelete(rs: seq<Record>) {
    exists i :: 0 <= i < |rs| && rs[i].kind == SET_WITH_DELETE
  }

  /** One step of decoding. */
  lemma DecodeStep(d: Bytes, r: Record, rest: Bytes, rs: seq<Record>)
    requires Next(d) == Read(r, rest)
    ensures DecodeAll(d) == Some(rs) <==> rs != [] && rs[0] == r && DecodeAll(rest) == Some(rs[1..])
  {
    if rs != [] { assert rs == [rs[0]] + rs[1..]; }
    if DecodeAll(rest).Some? { assert ([r] + DecodeAll(rest).value)[1..] == DecodeAll(rest).value; }
  }

  /** With a stray zero byte in front, the reader sees a DELETE whose key has the length of
      the next record's kind. It is that record only if that is an empty DELETE, and
      then the stray byte is still there. */
  lemma StrayFirst(r: Record, more: Bytes)
    requires RecordOk(r)
    ensures var item := Next([0] + (Encode(r) + more));
            item.Read? && item.r == r ==> item.rest == [0] + more
  {
    var d := [0] + (Encode(r) + more);
    var e := d[1..];
    assert e == Encode(r) + more && e[0] == r.kind;
    if Next(d).Read? && Next(d).r == r {
      assert r.kind == DELETE && DecodeStr(e) == Some(([], e[1..])) by { hide PutUvarint; assert e[1..1] == []; }
      assert Encode(r) == [0, 0] by { assert PutStr([]) == [0]; }
      assert e[1..] == [0] + more;
    }
  }

  /** A stray zero byte in front is never made up for: at the end there is one too many. */
  lemma {:induction false} StrayByte(rs: seq<Record>)
    requires AllOk(rs)
    ensures DecodeAll([0] + EncodeAll(rs)) != Some(rs)
  {
    hide Next, Encode;
    var d := [0] + EncodeAll(rs);
    if rs == [] {
      assert d == [0];
      LoneByte();
    } else {
      StrayFirst(rs[0], EncodeAll(rs[1..]));
      StrayByte(rs[1..]);
      if Next(d).Read? { DecodeStep(d, Next(d).r, Next(d).rest, rs); } else { NotRead(d); }
    }
  }

  lemma LoneByte()
    ensures DecodeAll([0]) == None
  {
    assert [0][1..] == [];
  }

  lemma NotRead(d: Bytes)
    requires d != [] && !Next(d).Read?
    ensures DecodeAll(d) == None
  {
  }

  /** What the reader makes of a SETWITHDEL: the key, and the value as what follows. */
  lemma NextReadsKey(r: Record, rest: Bytes)
    requires RecordOk(r) && r.kind == SET_WITH_DELETE
    ensures Next(Encode(r) + rest) == Read(Record(r.kind, r.key, []), PutStr(r.value) + rest)
  {
    hide PutUvarint, GetUvarint, DecodeStr, PutStr;
    var d := Encode(r) + rest;
    assert d[1..] == PutStr(r.key) + (PutStr(r.value) + rest);
    StrRoundTrip(r.key, PutStr(r.value) + rest);
  }

  /** A sequence of records decodes back to itself exactly when it has no SETWITHDEL. */
  lemma {:induction false} BatchRoundTrip(rs: seq<Record>)
    requires AllOk(rs)
    ensures DecodeAll(EncodeAll(rs)) == Some(rs) <==> !HasSetWithDelete(rs)
  {
    hide Encode, Next;
    if rs == [] {
      assert Next([]) == End by { NothingToRead(); }
    } else {
      var d, more := EncodeAll(rs), EncodeAll(rs[1..]);
      BatchRoundTrip(rs[1..]);
      NextReadsRecord(rs[0], more);
      assert HasSetWithDelete(rs) <==> rs[0].kind == SET_WITH_DELETE || HasSetWithDelete(rs[1..]) by { FirstOrLater(rs); }
      if rs[0].kind != SET_WITH_DELETE {
        DecodeStep(d, rs[0], more, rs);
      } else {
        NextReadsKey(rs[0], more);
        DecodeStep(d, Record(rs[0].kind, rs[0].key, []), PutStr(rs[0].value) + more, rs);
        if rs[0].value == [] {
          assert PutStr([]) == [0];
          StrayByte(rs[1..]);
        }
      }
    }
  }

  lemma NothingToRead()
    ensures Next([]) == End
  {
  }

  lemma FirstOrLater(rs: seq<Record>)
    requires rs != []
    ensures HasSetWithDelete(rs) <==> rs[0].kind == SET_WITH_DELETE || HasSetWithDelete(rs[1..])
  {
    if HasSetWithDelete(rs[1..]) {
      var i :| 0 <= i < |rs[1..]| && rs[1..][i].kind == SET_WITH_DELETE;
      assert rs[i + 1].kind == SET_WITH_DELETE;
    }
    if i :| 0 <= i < |rs| && rs[i].kind == SET_WITH_DELETE {
      if i > 0 { assert rs[1..][i - 1].kind == SET_WITH_DELETE; }
    }
  }

  /** One SETWITHDEL with an empty value: the reader goes on at the value's length, and
      looks for a string where there is none. This model calls that corrupt; the source
      indexes an empty slice there and panics. */
  lemma SetWithDeleteIsLost(key: Bytes)
    requires |key| < UINT32
    ensures DecodeAll(EncodeAll([Record(SET_WITH_DELETE, key, [])])) == None
  {
    var r := Record(SET_WITH_DELETE, key, []);
    assert EncodeAll([r]) == Encode(r) by { assert [r][1..] == []; assert Encode(r) + [] == Encode(r); }
    var d := Encode(r);
    assert PutStr([]) == [0];
    assert d[1..] == PutStr(key) + [0];
    StrRoundTrip(key, [0]);
    assert Next(d) == Read(r, [0]);
    assert [0][1..] == [];
    assert DecodeStr([]) == None;
    assert Next([0]) == Corrupt;
  }

  lemma {:induction false} EncodeConcat(a: seq<Record>, b: seq<Record>)
    requires AllOk(a) && AllOk(b)
    ensures AllOk(a + b) && EncodeAll(a + b) == EncodeAll(a) + EncodeAll(b)
  {
    hide Encode;
    if a == [] {
      assert a + b == b;
    } else {
      EncodeConcat(a[1..], b);
      assert (a + b)[1..] == a[1..] + b;
    }
  }

  /** The records that get a sequence number. */
  function Counted(rs: seq<Record>): nat {
    if rs == [] then 0 else Counted(rs[..|rs| - 1]) + (if rs[|rs| - 1].kind == LOG_DATA then 0 else 1)
  }

  lemma {:induction false} CountedConcat(a: seq<Record>, b: seq<Record>)
    ensures Counted(a + b) == Counted(a) + Counted(b)
  {
    if b == [] {
      assert a + b == a;
    } else {
      assert (a + b)[..|a + b| - 1] == a + b[..|b| - 1];
      CountedConcat(a, b[..|b| - 1]);
    }
  }

  function LittleEndian32(x: nat): (d: Bytes)
    ensures |d| == 4
  {
    [x % 256, x / 256 % 256, x / 65536 % 256, x / 16777216 % 256]
  }

  function FromLittleEndian32(d: Bytes): nat
    requires |d| == 4
  {
    d[0] as int + 256 * (d[1] as int + 256 * (d[2] as int + 256 * d[3] as int))
  }

  lemma CountRoundTrip(x: nat)
    requires x < UINT32
    ensures FromLittleEndian32(LittleEndian32(x)) == x
  {
    var a := x / 256;
    var b := a / 256;
    assert x / 65536 == b && x / 16777216 == b / 256;
    assert x == a * 256 + x % 256 && a == b * 256 + a % 256 && b == b / 256 * 256 + b % 256;
  }

  // ---------------------------------------------------------------------
  // Space in a memtable
  // ---------------------------------------------------------------------

  const MAX_NODE_SIZE: nat := 184
  const NODE_ALIGNMENT: nat := 4

  /** memTableEntrySize: the most that a record can take in a memtable. */
  function EntrySize(keyBytes: nat, valueBytes: nat): nat {
    MAX_NODE_SIZE + keyBytes + 8 + valueBytes + NODE_ALIGNMENT - 1
  }

  function SizeOf(r: Record): nat {
    EntrySize(|r.key|, |r.value|)
  }

  /** Records that are applied to a memtable. */
  predicate Applied(r: Record) {
    r.kind != LOG_DATA && r.kind != INGEST_SST
  }

  /** The most that the records of a batch can take. */
  function Needed(rs: seq<Record>): nat {
    if rs == [] then 0 else (if Applied(rs[0]) then SizeOf(rs[0]) else 0) + Needed(rs[1..])
  }

  lemma {:induction false} NeededConcat(a: seq<Record>, b: seq<Record>)
    ensures Needed(a + b) == Needed(a) + Needed(b)
  {
    if a == [] {
      assert a + b == b;
    } else {
      NeededConcat(a[1..], b);
      assert (a + b)[1..] == a[1..] + b;
    }
  }

  /** What the reader's loops add up: log data too, though no memtable takes it. */
  function Charged(rs: seq<Record>): nat {
    if rs == [] then 0
    else Charged(rs[..|rs| - 1]) + (if rs[|rs| - 1].kind == INGEST_SST then 0 else SizeOf(rs[|rs| - 1]))
  }

  lemma ChargedNothing()
    ensures Charged([]) == 0
  {
  }

  lemma ChargedMore(rs: seq<Record>, r: Record)
    ensures Charged(rs + [r]) == Charged(rs) + (if r.kind == INGEST_SST then 0 else EntrySize(|r.key|, |r.value|))
  {
    assert (rs + [r])[..|rs|] == rs;
  }

  /** What is added up is enough. */
  lemma {:induction false} NeededIsCharged(rs: seq<Record>)
    ensures Needed(rs) <= Charged(rs)
  {
    if rs == [] {
    } else {
      var n := |rs| - 1;
      NeededIsCharged(rs[..n]);
      assert rs == rs[..n] + [rs[n]];
      NeededConcat(rs[..n], [rs[n]]);
      NeededOne(rs[n]);
    }
  }

  predicate NoIngest(rs: seq<Record>) {
    forall i | 0 <= i < |rs| :: rs[i].kind != INGEST_SST
  }

  /** The loops of refreshMemTableSize and of Apply over the records that the reader
      yields. Log data is counted too; ingested tables are passed over by the first
      and refused by the second. */
  method Measure(d: Bytes, ingests: bool) returns (size: nat, ok: bool)
    ensures ok <==> DecodeAll(d).Some? && (ingests || NoIngest(DecodeAll(d).value))
    ensures ok ==> size == Charged(DecodeAll(d).value) && Needed(DecodeAll(d).value) <= size
  {
    hide Next, Needed, Charged;
    size, ok := 0, true;
    var rest := d;
    ghost var seen: seq<Record> := [];
    ChargedNothing();
    while rest != []
      invariant size == Charged(seen) && (ingests || NoIngest(seen))
      invariant DecodeAll(d).Some? <==> DecodeAll(rest).Some?
      invariant DecodeAll(d).Some? ==> DecodeAll(d).value == seen + DecodeAll(rest).value
      decreases |rest|
    {
      var item := Next(rest);
      MoreToRead(rest);
      if item.Corrupt? { return size, false; }
      if item.r.kind == INGEST_SST && !ingests {
        if DecodeAll(d).Some? { assert DecodeAll(d).value[|seen|] == item.r; }
        return size, false;
      }
      ChargedMore(seen, item.r);
      if item.r.kind != INGEST_SST { size := size + EntrySize(|item.r.key|, |item.r.value|); }
      if DecodeAll(d).Some? {
        assert seen + ([item.r] + DecodeAll(item.rest).value) == seen + [item.r] + DecodeAll(item.rest).value;
      }
      seen := seen + [item.r];
      rest := item.rest;
    }
    assert DecodeAll([]) == Some([]) by { NothingToRead(); }
    assert seen + [] == seen;
    NeededIsCharged(seen);
  }

  lemma MoreToRead(d: Bytes)
    requires d != []
    ensures !Next(d).End?
  {
  }

  lemma NeededOne(r: Record)
    ensures Needed([r]) == if Applied(r) then SizeOf(r) else 0
  {
    assert [r][1..] == [];
  }

  class Batch {
    const db: bool          // whether the batch belongs to a store
    const indexed: bool
    var data: Bytes
    var count: nat
    var memTableSize: nat
    ghost var records: seq<Record>

    /** A batch that belongs to a store accounts for every record as it is added. */
    ghost predicate Valid()
      reads this
    {
      && AllOk(records) && count == Counted(records)
      && (data == [] ==> records == [])
      && (data != [] ==> |data| >= HEADER_LEN && data[HEADER_LEN..] == EncodeAll(records))
      && (db && !HasSetWithDelete(records) ==> Needed(records) <= memTableSize)
    }

    constructor (db: bool, indexed: bool)
      ensures Valid() && records == [] && this.db == db && this.indexed == indexed
    {
      this.db, this.indexed := db, indexed;
      data, count, memTableSize, records := [], 0, 0, [];
    }

    method Init()
      requires Valid() && data == []
      modifies `data
      ensures Valid() && records == old(records) && |data| == HEADER_LEN
    {
      data := [0, 0, 0, 0, 0, 0, 0, 0, 0, 0, 0, 0];
    }

    /** prepareDeferredKeyRecord and prepareDeferredKeyValueRecord, with the key and
        the value copied in. LogData takes the count and the size back, and an
        ingested table the size. */
    method Add(r: Record)
      requires Valid() && RecordOk(r)
      modifies this
      ensures Valid() && records == old(records) + [r]
      ensures count == old(count) + (if r.kind == LOG_DATA then 0 else 1)
      ensures memTableSize == old(memTableSize) + (if Applied(r) then SizeOf(r) else 0)
    {
      hide EncodeAll, Counted, Encode, Needed;
      if data == [] { Init(); }
      EncodeConcat(records, [r]);
      CountedConcat(records, [r]);
      CountedOne(r);
      EncodeOne(r);
      NeededConcat(records, [r]);
      NeededOne(r);
      NoneInPart(records, [r]);
      ghost var before := data;
      data := data + Encode(r);
      assert data[HEADER_LEN..] == before[HEADER_LEN..] + Encode(r);
      count := if r.kind == LOG_DATA then count else count + 1;
      memTableSize := if r.kind == LOG_DATA || r.kind == INGEST_SST then memTableSize else memTableSize + EntrySize(|r.key|, |r.value|);
      records := records + [r];
    }

    /** Apply appends another batch's records; the other batch may be this one. Their
        size is taken account of when this batch belongs to a store or is indexed. */
    method Apply(b: Batch) returns (ok: bool)
      requires Valid() && b.Valid() && NoIngest(b.records)
      modifies this
      ensures Valid() && records == old(records) + old(b.records) && count == old(count) + old(b.count)
      ensures !HasSetWithDelete(old(b.records)) ==> ok
      ensures !HasSetWithDelete(old(b.records)) && (db || indexed) ==> memTableSize == old(memTableSize) + Charged(old(b.records))
      ensures !(db || indexed) ==> memTableSize == old(memTableSize)
    {
      hide EncodeAll, Counted, Needed, DecodeAll, Charged;
      ChargedNothing();
      var theirs, n := b.data, b.count;
      ghost var rs := b.records;
      if theirs == [] {
        CountedNothing();
        assert records + rs == records;
        return true;
      }
      if data == [] { Init(); }
      EncodeConcat(records, rs);
      CountedConcat(records, rs);
      NeededConcat(records, rs);
      NoneInPart(records, rs);
      BatchRoundTrip(rs);
      ghost var before := data;
      data := data + theirs[HEADER_LEN..];
      assert data[HEADER_LEN..] == before[HEADER_LEN..] + theirs[HEADER_LEN..];
      count := count + n;
      ok := true;
      if db || indexed {
        var size;
        size, ok := Measure(theirs[HEADER_LEN..], false);
        memTableSize := memTableSize + size;
      }
      records := records + rs;
    }

    /** Repr writes the count into the header. Reading the result gives the count, and
        gives the records exactly when none is a SETWITHDEL. */
    method Repr() returns (repr: Bytes)
      requires Valid() && count < UINT32
      modifies `data
      ensures Valid() && records == old(records) && |repr| >= HEADER_LEN
      ensures FromLittleEndian32(repr[COUNT_OFFSET..HEADER_LEN]) == count == Counted(records)
      ensures DecodeAll(repr[HEADER_LEN..]) == Some(records) <==> !HasSetWithDelete(records)
    {
      hide DecodeAll, EncodeAll, FromLittleEndian32, LittleEndian32;
      if data == [] { Init(); }
      ghost var before := data;
      CountRoundTrip(count);
      data := data[..COUNT_OFFSET] + LittleEndian32(count) + data[HEADER_LEN..];
      assert data[COUNT_OFFSET..HEADER_LEN] == LittleEndian32(count);
      assert data[HEADER_LEN..] == before[HEADER_LEN..];
      BatchRoundTrip(records);
      repr := data;
    }

    /** SetRepr: data from elsewhere. The size is known when the batch belongs to a store. */
    method SetRepr(repr: Bytes, ghost rs: seq<Record>) returns (ok: bool)
      requires |repr| >= HEADER_LEN && AllOk(rs) && repr[HEADER_LEN..] == EncodeAll(rs)
      requires FromLittleEndian32(repr[COUNT_OFFSET..HEADER_LEN]) == Counted(rs)
      modifies this
      ensures Valid() && records == rs && (!HasSetWithDelete(rs) ==> ok)
    {
      hide DecodeAll, EncodeAll, FromLittleEndian32, Needed;
      data, count, records, ok := repr, FromLittleEndian32(repr[COUNT_OFFSET..HEADER_LEN]), rs, true;
      BatchRoundTrip(rs);
      if db { ok := RefreshMemTableSize(); }
    }

    /** The size of what the reader yields, whatever the data are. */
    method RefreshMemTableSize() returns (ok: bool)
      requires data != [] ==> |data| >= HEADER_LEN
      modifies `memTableSize
      ensures data == [] ==> ok
      ensures data != [] ==> (ok <==> DecodeAll(data[HEADER_LEN..]).Some?)
      ensures data != [] && ok ==> var rs := DecodeAll(data[HEADER_LEN..]).value; memTableSize == Charged(rs) && Needed(rs) <= memTableSize
    {
      hide DecodeAll, Needed, Charged;
      memTableSize := 0;
      if |data| < HEADER_LEN { return true; }
      var size;
      size, ok := Measure(data[HEADER_LEN..], true);
      memTableSize := size;
    }

    /** What DB.Apply does before a batch goes to the commit pipeline. The size then
        bounds what the records that a memtable will read can take, unless the batch
        belongs to a store and has a SETWITHDEL. */
    method SizeForCommit() returns (ok: bool)
      requires Valid() && data != []
      modifies `memTableSize
      ensures Valid() && ok == (db || DecodeAll(data[HEADER_LEN..]).Some?)
      ensures ok && (db ==> !HasSetWithDelete(records)) ==>
                DecodeAll(data[HEADER_LEN..]).Some? && Needed(DecodeAll(data[HEADER_LEN..]).value) <= memTableSize
    {
      hide DecodeAll, EncodeAll, Needed;
      ok := true;
      if !db { ok := RefreshMemTableSize(); }
      BatchRoundTrip(records);
    }
  }

  /** A SETWITHDEL is missing from a sequence when it is missing from both parts. */
  lemma NoneInPart(a: seq<Record>, b: seq<Record>)
    ensures HasSetWithDelete(a + b) <==> HasSetWithDelete(a) || HasSetWithDelete(b)
  {
    var c := a + b;
    if i :| 0 <= i < |a| && a[i].kind == SET_WITH_DELETE { assert c[i].kind == SET_WITH_DELETE; }
    if i :| 0 <= i < |b| && b[i].kind == SET_WITH_DELETE { assert c[|a| + i].kind == SET_WITH_DELETE; }
    if i :| 0 <= i < |c| && c[i].kind == SET_WITH_DELETE {
      if i < |a| { assert a[i].kind == SET_WITH_DELETE; } else { assert b[i - |a|].kind == SET_WITH_DELETE; }
    }
  }

  /** With a SETWITHDEL the size of what was added does not bound what is read: here one
      record is added, and four are read. */
  lemma SetWithDeleteOutgrows() returns (r: Record, rs: seq<Record>)
    ensures RecordOk(r) && r.kind == SET_WITH_DELETE && DecodeAll(EncodeAll([r])) == Some(rs) && SizeOf(r) < Needed(rs)
  {
    hide Next, DecodeAll, Encode, EncodeAll, Needed;
    r := Record(SET_WITH_DELETE, [], [0, 0, 0, 0, 0]);
    var a, b, c := Record(SET_WITH_DELETE, [], []), Record(5, [], []), Record(DELETE, [], []);
    rs := [a, b, c, c];
    OutgrowingBytes(r);
    ShortRecord([18, 0, 5, 0, 0, 0, 0, 0], 18, [5, 0, 0, 0, 0, 0]);
    ShortRecord([5, 0, 0, 0, 0, 0], 5, [0, 0, 0, 0]);
    ShortRecord([0, 0, 0, 0], 0, [0, 0]);
    ShortRecord([0, 0], 0, []);
    assert DecodeAll([]) == Some([]) by { NothingDecoded(); }
    DecodeStep([0, 0], c, [], [c]);
    DecodeStep([0, 0, 0, 0], c, [0, 0], [c, c]);
    DecodeStep([5, 0, 0, 0, 0, 0], b, [0, 0, 0, 0], [b, c, c]);
    DecodeStep([18, 0, 5, 0, 0, 0, 0, 0], a, [5, 0, 0, 0, 0, 0], rs);
    NeededConcat([a], [b, c, c]);
    NeededConcat([b], [c, c]);
    NeededOne(a);
    NeededOne(b);
    assert [a] + [b, c, c] == rs && [b] + [c, c] == [b, c, c];
  }

  lemma OutgrowingBytes(r: Record)
    requires r == Record(SET_WITH_DELETE, [], [0, 0, 0, 0, 0])
    ensures EncodeAll([r]) == [18, 0, 5, 0, 0, 0, 0, 0]
  {
    hide EncodeAll;
    EncodeOne(r);
    assert PutStr([]) == [0] && PutStr(r.value) == [5, 0, 0, 0, 0, 0];
  }

  lemma NothingDecoded()
    ensures DecodeAll([]) == Some([])
  {
  }

  /** A record of a kind without a value, with an empty key. */
  lemma ShortRecord(d: Bytes, kind: nat, rest: Bytes)
    requires |d| >= 2 && d[0] == kind <= KIND_MAX && !ReadsValue(kind) && d[1] == 0 && d[2..] == rest
    ensures Next(d) == Read(Record(kind, [], []), rest)
  {
    assert d[1..][1..] == rest && d[1..][..0] == [];
  }

  lemma CountedNothing()
    ensures Counted([]) == 0
  {
  }

  lemma CountedOne(r: Record)
    ensures Counted([r]) == if r.kind == LOG_DATA then 0 else 1
  {
    assert [r][..0] == [];
  }

  lemma EncodeOne(r: Record)
    requires RecordOk(r)
    ensures EncodeAll([r]) == Encode(r)
  {
    assert [r][1..] == [];
    assert Encode(r) + [] == Encode(r);
  }
}
