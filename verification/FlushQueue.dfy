/**
The queue of flushables and the write-ahead logs behind it (db.go, ingest.go,
compaction.go): batches that fit the mutable memtable, large batches that go
into the queue themselves, ingestions that are queued as flushables, forced
rotations, flushes, and the removal of logs that no flushable needs.

Writers hold the commit mutex throughout; DB.mu is given up while a log is
created or written, so flushes, applies and clean-ups run in between. A step is
what happens between two such points. The WAL is on.
*/
module FlushQueue {
  import opened Options

  /** A batch, with its first sequence number and how many it takes. */
  datatype Batch = Batch(id: nat, sn: nat, count: nat)

  datatype Kind = Memtable | LargeBatch | Ingested

  /** An entry of the queue. A memtable has one writer reference for being the
      mutable one and one for each batch that is prepared and not applied. */
  datatype Flushable = Flushable(kind: Kind, logNum: nat, logSeqNum: nat, refs: int, pending: set<nat>, batches: seq<Batch>) {
    predicate ReadyForFlush() { kind.Memtable? ==> refs == 0 }
  }

  datatype Log = Log(num: nat, records: set<nat>)

  datatype Job = Normal(b: Batch) | Large(b: Batch) | Manual

  /** What the holder of the commit mutex is doing. */
  datatype Pc =
    | Free
    | Room(job: Job, force: bool)               // makeRoomForWrite, at the head of its loop
    | Rotating(job: Job, log: nat)              // rotateWAL, DB.mu given up
    | Writing(b: Batch)                         // prepared, about to write the WAL record
    | IngestRotating(b: Batch, log: nat)        // handleIngestAsFlushable, first rotateWAL
    | IngestWriting(b: Batch, log: nat)         // directWrite
    | IngestWritten(b: Batch, log: nat)         // before the second rotateWAL
    | IngestQueuing(b: Batch, log: nat, next: nat)  // second rotateWAL

  /** A flush under way: how many flushables, and the minimum log number after it. */
  datatype Flush = Flush(n: nat, min: nat)

  datatype State = State(
    queue: seq<Flushable>, logs: seq<Log>, minUnflushedLogNum: nat, nextFileNum: nat, nextSn: nat,
    pc: Pc, flush: Option<Flush>,
    used: set<nat>, written: set<nat>, flushed: set<nat>)   // batches begun, in the WAL, in tables

  datatype Event =
    | StartNormal(id: nat, count: nat) | StartLarge(id: nat, count: nat) | StartManual | StartIngest(id: nat, count: nat)
    | Fits | Rotate | Rotated | Leave | WriteWal
    | IngestRotated | IngestWrite | IngestRotate | IngestQueue
    | Apply(i: nat, id: nat) | FlushStart | FlushDone(ok: bool) | Cleanup | NewFile

  function Init(log: nat, sn: nat): State {
    State([Flushable(Memtable, log, sn, 1, {}, [])], [Log(log, {})], log, log + 1, sn, Free, None, {}, {}, {})
  }

  function WriteLast(logs: seq<Log>, id: nat): seq<Log>
    requires logs != []
  {
    var n := |logs| - 1;
    logs[n := logs[n].(records := logs[n].records + {id})]
  }

  /** rotateMemtable, after anything that goes in front of the new memtable. */
  function RotateMemtable(queue: seq<Flushable>, between: seq<Flushable>, log: nat, sn: nat): seq<Flushable>
    requires queue != []
  {
    var n := |queue| - 1;
    queue[n := queue[n].(refs := queue[n].refs - 1)] + between + [Flushable(Memtable, log, sn, 1, {}, [])]
  }

  /** The first sequence number of the memtable after a rotation. */
  function NextLogSeqNum(s: State, job: Job): nat {
    match job
    case Normal(b) => b.sn
    case Large(b) => b.sn + b.count
    case Manual => s.nextSn
  }

  /** How many flushables flush1 takes: a prefix of ready memtables and large
      batches, or one ingestion. The mutable memtable stays. */
  function FlushPrefix(queue: seq<Flushable>, n: nat): (r: nat)
    requires n <= |queue|
    ensures n <= r <= |queue|
    ensures n < |queue| ==> r < |queue|
    decreases |queue| - n
  {
    if n >= |queue| - 1 then n
    else if queue[n].kind.Ingested? then (if n == 0 then 1 else n)
    else if !queue[n].ReadyForFlush() then n
    else FlushPrefix(queue, n + 1)
  }

  function Ids(bs: seq<Batch>): set<nat> {
    set b | b in bs :: b.id
  }

  function QueueIds(queue: seq<Flushable>): set<nat> {
    if queue == [] then {} else Ids(queue[0].batches) + QueueIds(queue[1..])
  }

  function FirstNeeded(logs: seq<Log>, min: nat): (i: nat)
    ensures i <= |logs| && (forall j | 0 <= j < i :: logs[j].num < min) && (i < |logs| ==> min <= logs[i].num)
  {
    if logs == [] || min <= logs[0].num then 0 else 1 + FirstNeeded(logs[1..], min)
  }

  /** deleteObsoleteFiles: drop the logs in front of the first one still needed. */
  function DropLogs(logs: seq<Log>, min: nat): seq<Log> {
    var i := FirstNeeded(logs, min);
    if i < |logs| then logs[i..] else logs
  }

  predicate Shape(s: State) {
    s.queue != [] && s.logs != [] && (s.flush.Some? ==> s.flush.value.n <= |s.queue|)
  }

  function Step(s: State, e: Event): State
    requires Shape(s)
  {
    var last := |s.queue| - 1;
    match e
    case StartNormal(id, count) =>
      if s.pc.Free? && id !in s.used then
        var b := Batch(id, s.nextSn, count);
        s.(pc := Room(Normal(b), false), nextSn := s.nextSn + count, used := s.used + {id})
      else s
    case StartLarge(id, count) =>
      if s.pc.Free? && id !in s.used then
        var b := Batch(id, s.nextSn, count);
        s.(pc := Room(Large(b), true), nextSn := s.nextSn + count, used := s.used + {id},
           logs := WriteLast(s.logs, id), written := s.written + {id})
      else s
    case StartManual => if s.pc.Free? then s.(pc := Room(Manual, true)) else s
    case StartIngest(id, count) =>
      if s.pc.Free? && id !in s.used then
        var b := Batch(id, s.nextSn, count);
        s.(pc := IngestRotating(b, s.nextFileNum), nextFileNum := s.nextFileNum + 1,
           nextSn := s.nextSn + count, used := s.used + {id})
      else s
    case Fits =>
      if s.pc.Room? && s.pc.job.Normal? then
        var b, m := s.pc.job.b, s.queue[last];
        s.(pc := Writing(b),
           queue := s.queue[last := m.(batches := m.batches + [b], pending := m.pending + {b.id}, refs := m.refs + 1)])
      else s
    case Rotate =>
      if s.pc.Room? && (s.pc.job.Normal? || s.pc.force) then
        s.(pc := Rotating(s.pc.job, s.nextFileNum), nextFileNum := s.nextFileNum + 1)
      else s
    case Rotated =>
      if s.pc.Rotating? then
        var job := s.pc.job;
        var between := if job.Large? then [Flushable(LargeBatch, s.queue[last].logNum, job.b.sn, 0, {}, [job.b])] else [];
        s.(pc := Room(job, false), logs := s.logs + [Log(s.pc.log, {})],
           queue := RotateMemtable(s.queue, between, s.pc.log, NextLogSeqNum(s, job)))
      else s
    case Leave => if s.pc.Room? && !s.pc.job.Normal? && !s.pc.force then s.(pc := Free) else s
    case WriteWal =>
      if s.pc.Writing? then
        s.(pc := Free, logs := WriteLast(s.logs, s.pc.b.id), written := s.written + {s.pc.b.id})
      else s
    case IngestRotated =>
      if s.pc.IngestRotating? then s.(pc := IngestWriting(s.pc.b, s.pc.log), logs := s.logs + [Log(s.pc.log, {})]) else s
    case IngestWrite =>
      if s.pc.IngestWriting? then
        s.(pc := IngestWritten(s.pc.b, s.pc.log), logs := WriteLast(s.logs, s.pc.b.id), written := s.written + {s.pc.b.id})
      else s
    case IngestRotate =>
      if s.pc.IngestWritten? then
        s.(pc := IngestQueuing(s.pc.b, s.pc.log, s.nextFileNum), nextFileNum := s.nextFileNum + 1)
      else s
    case IngestQueue =>
      if s.pc.IngestQueuing? then
        var b := s.pc.b;
        s.(pc := Free, logs := s.logs + [Log(s.pc.next, {})],
           queue := RotateMemtable(s.queue, [Flushable(Ingested, s.pc.log, b.sn, 0, {}, [b])], s.pc.next, b.sn + b.count))
      else s
    case Apply(i, id) =>
      if i < |s.queue| && id in s.queue[i].pending && id in s.written then
        s.(queue := s.queue[i := s.queue[i].(pending := s.queue[i].pending - {id}, refs := s.queue[i].refs - 1)])
      else s
    case FlushStart =>
      var n := FlushPrefix(s.queue, 0);
      if s.flush.None? && 0 < n then s.(flush := Some(Flush(n, s.queue[n].logNum))) else s
    case FlushDone(ok) =>
      if s.flush.None? then s
      else if !ok then s.(flush := None)
      else
        var n := s.flush.value.n;
        s.(flush := None, minUnflushedLogNum := s.flush.value.min,
           flushed := s.flushed + QueueIds(s.queue[..n]), queue := s.queue[n..])
    case Cleanup => s.(logs := DropLogs(s.logs, s.minUnflushedLogNum))
    case NewFile => s.(nextFileNum := s.nextFileNum + 1)
  }

  // ---------------------------------------------------------------------
  // The invariant
  // ---------------------------------------------------------------------

  predicate HasLog(logs: seq<Log>, num: nat) {
    exists l :: 0 <= l < |logs| && logs[l].num == num
  }

  predicate InLog(logs: seq<Log>, num: nat, id: nat) {
    exists l :: 0 <= l < |logs| && logs[l].num == num && id in logs[l].records
  }

  /** Only the last entry is the mutable memtable; references are counted. */
  predicate Refs(s: State)
    requires s.queue != []
  {
    && s.queue[|s.queue| - 1].kind.Memtable?
    && (forall i | 0 <= i < |s.queue| ::
          && s.queue[i].refs == |s.queue[i].pending| + (if i == |s.queue| - 1 then 1 else 0)
          && s.queue[i].pending <= Ids(s.queue[i].batches)
          && (!s.queue[i].kind.Memtable? ==> s.queue[i].pending == {}))
  }

  /** Log numbers rise along the queue, but for a large batch, which shares the
      log of the memtable in front of it. */
  predicate LogOrder(s: State) {
    && (forall i | 0 <= i < |s.queue| :: s.minUnflushedLogNum <= s.queue[i].logNum && HasLog(s.logs, s.queue[i].logNum))
    && (forall i, j | 0 <= i < j < |s.queue| ::
          s.queue[i].logNum < s.queue[j].logNum
          || (j == i + 1 && s.queue[i].logNum == s.queue[j].logNum && s.queue[i].kind.Memtable? && s.queue[j].kind.LargeBatch?))
  }

  /** Logs are in order, and a number taken for a new log is above them. */
  predicate Logs(s: State)
    requires s.logs != []
  {
    && (forall i, j | 0 <= i < j < |s.logs| :: s.logs[i].num < s.logs[j].num)
    && s.logs[|s.logs| - 1].num < s.nextFileNum
    && (forall i, j, id | 0 <= i < j < |s.logs| && id in s.logs[i].records :: id !in s.logs[j].records)
    && (forall i, id | 0 <= i < |s.logs| && id in s.logs[i].records :: id in s.written)
    && s.written <= s.used
  }

  /** Which log is current, and where the writer's record is. */
  predicate Current(s: State)
    requires s.queue != [] && s.logs != []
  {
    var cur, mem := s.logs[|s.logs| - 1].num, s.queue[|s.queue| - 1].logNum;
    match s.pc
    case Free => cur == mem
    case Room(job, force) =>
      && cur == mem && (job.Normal? ==> job.b.id in s.used && job.b.id !in s.written)
      && (job.Large? && force ==> InLog(s.logs, mem, job.b.id))
    case Rotating(job, log) =>
      && cur == mem && cur < log < s.nextFileNum && (job.Normal? ==> job.b.id in s.used && job.b.id !in s.written)
      && (job.Large? ==> InLog(s.logs, mem, job.b.id))
    case Writing(b) => cur == mem && b.id !in s.written && b.id in s.queue[|s.queue| - 1].pending
    case IngestRotating(b, log) => cur == mem && cur < log < s.nextFileNum && b.id in s.used && b.id !in s.written
    case IngestWriting(b, log) => mem < cur == log && b.id in s.used && b.id !in s.written
    case IngestWritten(b, log) => mem < cur == log && InLog(s.logs, log, b.id)
    case IngestQueuing(b, log, next) => mem < cur == log < next < s.nextFileNum && InLog(s.logs, log, b.id)
  }

  /** The writer's batch is in the WAL, and not in the queue yet. */
  predicate Between(pc: Pc, id: nat) {
    match pc
    case Room(job, force) => job.Large? && force && job.b.id == id
    case Rotating(job, _) => job.Large? && job.b.id == id
    case IngestWritten(b, _) => b.id == id
    case IngestQueuing(b, _, _) => b.id == id
    case _ => false
  }

  /** The writer's batch is not in the queue yet. */
  predicate Outside(pc: Pc, id: nat) {
    match pc
    case Room(job, force) => (job.Normal? || (job.Large? && force)) && job.b.id == id
    case Rotating(job, _) => !job.Manual? && job.b.id == id
    case IngestRotating(b, _) => b.id == id
    case IngestWriting(b, _) => b.id == id
    case IngestWritten(b, _) => b.id == id
    case IngestQueuing(b, _, _) => b.id == id
    case _ => false
  }

  /** Every batch of the queue is in the log of its entry once it is written; the
      one that is not is being written now. No batch is there twice. */
  predicate Held(s: State) {
    && (forall i, b | 0 <= i < |s.queue| && b in s.queue[i].batches ::
          && b.id in s.used && b.id !in s.flushed && !Outside(s.pc, b.id)
          && (InLog(s.logs, s.queue[i].logNum, b.id) || (s.pc == Writing(b) && b.id in s.queue[i].pending)))
    && (forall i, j, b, c | 0 <= i < j < |s.queue| && b in s.queue[i].batches && c in s.queue[j].batches :: b.id != c.id)
  }

  /** Nothing written is lost, and nothing flushed is in a log that is kept. */
  predicate Conserved(s: State) {
    && (forall id | id in s.written :: id in s.flushed || id in QueueIds(s.queue) || Between(s.pc, id))
    && (forall id | id in s.flushed :: id in s.used && !Outside(s.pc, id))
    && (forall l, id | 0 <= l < |s.logs| && s.minUnflushedLogNum <= s.logs[l].num && id in s.logs[l].records :: id !in s.flushed)
  }

  /** The first number that no queued batch has. */
  function Floor(s: State): nat {
    match s.pc
    case Room(job, force) => if job.Normal? || (job.Large? && force) then job.b.sn else s.nextSn
    case Rotating(job, _) => if job.Manual? then s.nextSn else job.b.sn
    case IngestRotating(b, _) => b.sn
    case IngestWriting(b, _) => b.sn
    case IngestWritten(b, _) => b.sn
    case IngestQueuing(b, _, _) => b.sn
    case _ => s.nextSn
  }

  function PcEnd(s: State): nat {
    match s.pc
    case Room(job, force) => if job.Normal? || (job.Large? && force) then job.b.sn + job.b.count else s.nextSn
    case Rotating(job, _) => if job.Manual? then s.nextSn else job.b.sn + job.b.count
    case IngestRotating(b, _) => b.sn + b.count
    case IngestWriting(b, _) => b.sn + b.count
    case IngestWritten(b, _) => b.sn + b.count
    case IngestQueuing(b, _, _) => b.sn + b.count
    case _ => s.nextSn
  }

  /** A flushable holds no number below its logSeqNum and none from the next one's on. */
  predicate Numbers(s: State) {
    && Floor(s) <= PcEnd(s) == s.nextSn
    && (forall i, b | 0 <= i < |s.queue| && b in s.queue[i].batches ::
          s.queue[i].logSeqNum <= b.sn && b.sn + b.count <= Floor(s))
    && (forall i, j, b | 0 <= i < j < |s.queue| && b in s.queue[i].batches :: b.sn + b.count <= s.queue[j].logSeqNum)
    && (forall i | 0 <= i < |s.queue| :: s.queue[i].logSeqNum <= Floor(s))
  }

  predicate FlushOk(s: State) {
    s.flush.Some? ==>
      var n := s.flush.value.n;
      && 0 < n < |s.queue| && s.flush.value.min == s.queue[n].logNum
      && forall i | 0 <= i < n :: s.queue[i].logNum < s.queue[n].logNum && s.queue[i].ReadyForFlush()
  }

  predicate Inv(s: State) {
    && Shape(s) && Refs(s) && LogOrder(s) && Logs(s) && Current(s) && Held(s) && Conserved(s) && Numbers(s) && FlushOk(s)
  }

  lemma InitInv(log: nat, sn: nat)
    ensures Inv(Init(log, sn))
  {
    assert Init(log, sn).logs[0].num == log;
  }

  // ---------------------------------------------------------------------
  // What a step must leave alone for each part to carry over
  // ---------------------------------------------------------------------

  /** Logs are only added, and records only added to them. */
  predicate Extends(a: seq<Log>, b: seq<Log>) {
    |a| <= |b| && forall l | 0 <= l < |a| :: b[l].num == a[l].num && a[l].records <= b[l].records
  }

  lemma ExtendsHas(a: seq<Log>, b: seq<Log>)
    requires Extends(a, b)
    ensures forall num | HasLog(a, num) :: HasLog(b, num)
    ensures forall num, id | InLog(a, num, id) :: InLog(b, num, id)
  {
    forall num | HasLog(a, num) ensures HasLog(b, num) {
      var l :| 0 <= l < |a| && a[l].num == num;
      assert b[l].num == num;
    }
    forall num, id | InLog(a, num, id) ensures InLog(b, num, id) {
      var l :| 0 <= l < |a| && a[l].num == num && id in a[l].records;
      assert b[l].num == num && id in b[l].records;
    }
  }

  lemma FrameRefs(s: State, s': State)
    requires s.queue != [] && Refs(s) && s'.queue == s.queue
    ensures Refs(s')
  {
  }

  lemma FrameLogOrder(s: State, s': State)
    requires LogOrder(s) && s'.queue == s.queue && s'.minUnflushedLogNum == s.minUnflushedLogNum && Extends(s.logs, s'.logs)
    ensures LogOrder(s')
  {
    ExtendsHas(s.logs, s'.logs);
  }

  lemma FrameLogs(s: State, s': State)
    requires s.logs != [] && Logs(s) && s'.logs == s.logs && s'.written == s.written
    requires s.nextFileNum <= s'.nextFileNum && s.used <= s'.used
    ensures Logs(s')
  {
  }

  lemma FrameHeld(s: State, s': State)
    requires Held(s) && s'.queue == s.queue && s'.flushed == s.flushed && s.used <= s'.used && Extends(s.logs, s'.logs)
    requires forall id | id in s.used && Outside(s'.pc, id) :: Outside(s.pc, id)
    requires forall b | s.pc == Writing(b) :: s'.pc == s.pc || forall i | 0 <= i < |s.queue| && b in s.queue[i].batches :: InLog(s'.logs, s.queue[i].logNum, b.id)
    ensures Held(s')
  {
    hide InLog, Extends, Outside;
    ExtendsHas(s.logs, s'.logs);
  }

  lemma FrameConserved(s: State, s': State)
    requires Conserved(s) && s'.queue == s.queue && s'.flushed == s.flushed && s.used <= s'.used
    requires s'.logs == s.logs && s'.written == s.written && s'.minUnflushedLogNum == s.minUnflushedLogNum
    requires forall id | Between(s.pc, id) :: Between(s'.pc, id)
    requires forall id | id in s.used && Outside(s'.pc, id) :: Outside(s.pc, id)
    ensures Conserved(s')
  {
    hide Outside, Between, QueueIds;
  }

  lemma FrameNumbers(s: State, s': State)
    requires Numbers(s) && s'.queue == s.queue && Floor(s) <= Floor(s') <= PcEnd(s') == s'.nextSn
    ensures Numbers(s')
  {
    hide Floor, PcEnd;
  }

  lemma FrameFlush(s: State, s': State)
    requires FlushOk(s) && s'.queue == s.queue && s'.flush == s.flush
    ensures FlushOk(s')
  {
  }

  /** A step of the writer that touches neither the queue nor the logs. */
  lemma QuietStep(s: State, s': State)
    requires Inv(s)
    requires s' == s.(pc := s'.pc, nextFileNum := s'.nextFileNum, nextSn := s'.nextSn, used := s'.used)
    requires s.nextFileNum <= s'.nextFileNum && s.used <= s'.used
    requires forall id | id in s.used && Outside(s'.pc, id) :: Outside(s.pc, id)
    requires forall id | Between(s.pc, id) :: Between(s'.pc, id)
    requires s.pc.Writing? ==> s'.pc == s.pc
    requires Floor(s) <= Floor(s') <= PcEnd(s') == s'.nextSn && Current(s')
    ensures Inv(s')
  {
    hide LogOrder, Logs, Held, Conserved, Numbers, FlushOk, Outside, Between, Floor, PcEnd;
    FrameLogOrder(s, s');
    FrameLogs(s, s');
    FrameHeld(s, s');
    FrameConserved(s, s');
    FrameNumbers(s, s');
    FrameFlush(s, s');
  }

  // ---------------------------------------------------------------------
  // Every step keeps the invariant
  // ---------------------------------------------------------------------

  lemma StepStart(s: State, e: Event)
    requires Inv(s) && (e.StartNormal? || e.StartManual? || e.StartIngest?)
    ensures Inv(Step(s, e))
  {
    hide LogOrder, Held, Conserved, FlushOk, InLog, Refs;
    var s' := Step(s, e);
    if s.pc.Free? {
      assert Floor(s) <= Floor(s') <= PcEnd(s') == s'.nextSn;
      hide Numbers;
      QuietStep(s, s');
    }
  }

  lemma StepOn(s: State, e: Event)
    requires Inv(s) && (e.Rotate? || e.Leave? || e.IngestRotate? || e.NewFile?)
    ensures Inv(Step(s, e))
  {
    hide LogOrder, Held, Conserved, FlushOk, InLog, Refs;
    var s' := Step(s, e);
    if s' != s {
      assert Floor(s) <= Floor(s') <= PcEnd(s') == s'.nextSn;
      hide Numbers, Floor, PcEnd;
      QuietStep(s, s');
    }
  }

  // Writing a record

  lemma QueueHas(queue: seq<Flushable>, i: nat, b: Batch)
    requires i < |queue| && b in queue[i].batches
    ensures b.id in QueueIds(queue)
  {
    hide Ids;
    IdsHave(queue[i].batches, b);
    if i > 0 { QueueHas(queue[1..], i - 1, b); }
  }

  lemma IdsHave(bs: seq<Batch>, b: Batch)
    requires b in bs
    ensures b.id in Ids(bs)
  {
  }

  lemma QueueHasOnly(queue: seq<Flushable>, id: nat) returns (i: nat, b: Batch)
    requires id in QueueIds(queue)
    ensures i < |queue| && b in queue[i].batches && b.id == id
  {
    if id in Ids(queue[0].batches) {
      i := 0;
      b :| b in queue[0].batches && b.id == id;
    } else {
      var j;
      j, b := QueueHasOnly(queue[1..], id);
      i := j + 1;
    }
  }

  ghost predicate Writes(s: State, s': State, id: nat) {
    && Inv(s) && id !in s.written && id !in s.flushed && id in s'.used && s.used <= s'.used
    && s' == s.(pc := s'.pc, nextSn := s'.nextSn, used := s'.used, logs := WriteLast(s.logs, id), written := s.written + {id})
  }

  lemma WriteLogs(s: State, s': State, id: nat)
    requires Writes(s, s', id)
    ensures s'.logs != [] && Logs(s') && Extends(s.logs, s'.logs) && InLog(s'.logs, s.logs[|s.logs| - 1].num, id)
  {
    hide Refs, LogOrder, Current, Held, Conserved, Numbers, FlushOk;
    assert id in s'.logs[|s.logs| - 1].records;
  }

  lemma WriteConserved(s: State, s': State, id: nat)
    requires Writes(s, s', id)
    requires id in QueueIds(s.queue) || Between(s'.pc, id)
    requires forall x | Between(s.pc, x) :: Between(s'.pc, x)
    requires forall x | x in s.used && Outside(s'.pc, x) :: Outside(s.pc, x)
    ensures Conserved(s')
  {
    hide Refs, LogOrder, Logs, Current, Held, Numbers, FlushOk, QueueIds, Between, Outside;
  }

  lemma StepStartLarge(s: State, id: nat, count: nat)
    requires Inv(s)
    ensures Inv(Step(s, StartLarge(id, count)))
  {
    hide LogOrder, Held, Numbers, FlushOk, Refs;
    var s' := Step(s, StartLarge(id, count));
    if s.pc.Free? && id !in s.used {
      assert id !in s.written && id !in s.flushed;
      hide Conserved, InLog;
      FrameRefs(s, s');
      WriteLogs(s, s', id);
      FrameLogOrder(s, s');
      FrameHeld(s, s');
      WriteConserved(s, s', id);
      assert Floor(s) == s.nextSn by { hide Current, Logs; assert Numbers(s); }
      FrameNumbers(s, s');
      FrameFlush(s, s');
    }
  }

  lemma StepIngestWrite(s: State)
    requires Inv(s)
    ensures Inv(Step(s, IngestWrite))
  {
    hide LogOrder, Held, FlushOk, Refs, InLog, Logs, QueueIds;
    var s' := Step(s, IngestWrite);
    if s.pc.IngestWriting? {
      var id := s.pc.b.id;
      assert id !in s.flushed;
      assert Floor(s') == Floor(s) <= PcEnd(s') == s.nextSn;
      hide Conserved, Numbers;
      FrameRefs(s, s');
      WriteLogs(s, s', id);
      FrameLogOrder(s, s');
      FrameHeld(s, s');
      WriteConserved(s, s', id);
      FrameNumbers(s, s');
      FrameFlush(s, s');
    }
  }

  /** The batch that is being written is in the mutable memtable only. */
  lemma WritingAt(s: State)
    requires Inv(s) && s.pc.Writing?
    ensures s.pc.b.id in QueueIds(s.queue) && s.pc.b.id in s.used && s.pc.b.id !in s.flushed
    ensures forall i | 0 <= i < |s.queue| && s.pc.b in s.queue[i].batches :: i == |s.queue| - 1
  {
    hide LogOrder, Logs, Conserved, Numbers, FlushOk, InLog, QueueIds;
    var last := |s.queue| - 1;
    assert s.pc.b.id in Ids(s.queue[last].batches);
    var c :| c in s.queue[last].batches && c.id == s.pc.b.id;
    QueueHas(s.queue, last, c);
  }

  lemma StepWriteWal(s: State)
    requires Inv(s)
    ensures Inv(Step(s, WriteWal))
  {
    hide LogOrder, Held, FlushOk, Refs, Conserved, InLog, QueueIds;
    var s' := Step(s, WriteWal);
    if s.pc.Writing? {
      WritingAt(s);
      assert Floor(s') == Floor(s) == PcEnd(s') == s.nextSn;
      hide Numbers;
      FrameRefs(s, s');
      WriteLogs(s, s', s.pc.b.id);
      FrameLogOrder(s, s');
      FrameHeld(s, s');
      WriteConserved(s, s', s.pc.b.id);
      FrameNumbers(s, s');
      FrameFlush(s, s');
    }
  }

  // Rotations

  lemma StepIngestRotated(s: State)
    requires Inv(s)
    ensures Inv(Step(s, IngestRotated))
  {
    hide LogOrder, Held, FlushOk, Refs, InLog;
    var s' := Step(s, IngestRotated);
    if s.pc.IngestRotating? {
      assert Floor(s') == Floor(s) <= PcEnd(s') == s.nextSn;
      AppendedLogs(s, s', s.pc.log);
      hide Numbers;
      FrameRefs(s, s');
      FrameLogOrder(s, s');
      FrameHeld(s, s');
      AppendConserved(s, s', s.pc.log);
      hide Conserved;
      FrameNumbers(s, s');
      FrameFlush(s, s');
    }
  }

  lemma AppendedLogs(s: State, s': State, num: nat)
    requires s.logs != [] && Logs(s) && s.logs[|s.logs| - 1].num < num < s.nextFileNum
    requires s'.logs == s.logs + [Log(num, {})] && s'.written == s.written && s'.used == s.used && s'.nextFileNum == s.nextFileNum
    ensures Logs(s') && Extends(s.logs, s'.logs) && HasLog(s'.logs, num)
  {
    assert s'.logs[|s.logs|].num == num;
  }

  lemma AppendConserved(s: State, s': State, num: nat)
    requires Conserved(s) && s'.queue == s.queue && s'.flushed == s.flushed && s'.used == s.used && s'.written == s.written
    requires s'.logs == s.logs + [Log(num, {})] && s'.minUnflushedLogNum == s.minUnflushedLogNum
    requires forall id | Between(s.pc, id) :: Between(s'.pc, id)
    requires forall id | Outside(s'.pc, id) :: Outside(s.pc, id)
    ensures Conserved(s')
  {
    hide Between, Outside, QueueIds;
  }

  /** A rotation: a new log, perhaps an entry for the writer's batch, and a new
      mutable memtable. */
  ghost predicate Rotates(s: State, s': State, between: seq<Flushable>, log: nat, sn: nat)
  {
    && Inv(s) && |between| <= 1 && s.logs[|s.logs| - 1].num < log < s.nextFileNum
    && s' == s.(pc := s'.pc, logs := s.logs + [Log(log, {})], queue := RotateMemtable(s.queue, between, log, sn))
    && (between != [] ==>
          var e := between[0];
          && !e.kind.Memtable? && e.refs == 0 && e.pending == {} && |e.batches| == 1 && e.logSeqNum == e.batches[0].sn
          && Between(s.pc, e.batches[0].id) && InLog(s.logs, e.logNum, e.batches[0].id)
          && (if e.kind.LargeBatch? then e.logNum == s.queue[|s.queue| - 1].logNum
              else s.queue[|s.queue| - 1].logNum < e.logNum < log))
  }

  lemma RotateRefs(s: State, s': State, between: seq<Flushable>, log: nat, sn: nat)
    requires Rotates(s, s', between, log, sn)
    ensures s'.queue != [] && Refs(s')
  {
    hide LogOrder, Logs, Current, Held, Conserved, Numbers, FlushOk, InLog, Between;
  }

  /** What is where after a rotation. */
  lemma RotatedQueue(s: State, s': State, between: seq<Flushable>, log: nat, sn: nat)
    requires Rotates(s, s', between, log, sn)
    ensures var n := |s.queue|;
            && |s'.queue| == n + |between| + 1
            && (forall i | 0 <= i < n ::
                  && s'.queue[i].logNum == s.queue[i].logNum && s'.queue[i].kind == s.queue[i].kind
                  && s'.queue[i].batches == s.queue[i].batches && s'.queue[i].logSeqNum == s.queue[i].logSeqNum
                  && s'.queue[i].pending == s.queue[i].pending && (i < n - 1 ==> s'.queue[i] == s.queue[i]))
            && (between != [] ==> s'.queue[n] == between[0])
            && s'.queue[|s'.queue| - 1] == Flushable(Memtable, log, sn, 1, {}, [])
            && s.queue[n - 1].kind.Memtable?
  {
    hide LogOrder, Logs, Current, Held, Conserved, Numbers, FlushOk, InLog, Between;
  }

  lemma RotateLogOrder(s: State, s': State, between: seq<Flushable>, log: nat, sn: nat)
    requires Rotates(s, s', between, log, sn)
    ensures LogOrder(s')
  {
    hide Refs, Current, Held, Conserved, Numbers, FlushOk, Between, RotateMemtable, InLog, HasLog;
    var n := |s.queue|;
    AppendedLogs(s, s', log);
    ExtendsHas(s.logs, s'.logs);
    RotatedQueue(s, s', between, log, sn);
    forall i | 0 <= i < n ensures s.queue[i].logNum < log { BelowLast(s, s.queue[i].logNum); }
    if between != [] {
      LogOfRecord(s.logs, between[0].logNum, between[0].batches[0].id);
      BelowLast(s, between[0].logNum);
    }
  }

  lemma LogOfRecord(logs: seq<Log>, num: nat, id: nat)
    requires InLog(logs, num, id)
    ensures HasLog(logs, num)
  {
  }

  lemma BelowLast(s: State, num: nat)
    requires s.logs != [] && Logs(s) && HasLog(s.logs, num)
    ensures num <= s.logs[|s.logs| - 1].num
  {
  }

  lemma RotateHeld(s: State, s': State, between: seq<Flushable>, log: nat, sn: nat)
    requires Rotates(s, s', between, log, sn)
    requires forall id | Outside(s'.pc, id) :: Outside(s.pc, id) && (between != [] ==> id != between[0].batches[0].id)
    requires !s.pc.Writing?
    ensures Held(s')
  {
    hide Refs, LogOrder, Current, Numbers, FlushOk, InLog, RotateMemtable, QueueIds;
    assert Extends(s.logs, s'.logs);
    ExtendsHas(s.logs, s'.logs);
    RotatedQueue(s, s', between, log, sn);
    if between != [] {
      WrittenRecord(s, between[0].logNum, between[0].batches[0].id);
      assert Outside(s.pc, between[0].batches[0].id);
    }
    hide Conserved, Logs, Outside, Between;
    forall i, b | 0 <= i < |s'.queue| && b in s'.queue[i].batches
      ensures b.id in s'.used && b.id !in s'.flushed && !Outside(s'.pc, b.id) && InLog(s'.logs, s'.queue[i].logNum, b.id)
    {
      assert i < |s.queue| || b == between[0].batches[0];
    }
  }

  lemma WrittenRecord(s: State, num: nat, id: nat)
    requires s.logs != [] && Logs(s) && InLog(s.logs, num, id)
    ensures id in s.written && id in s.used
  {
  }

  lemma RotateConserved(s: State, s': State, between: seq<Flushable>, log: nat, sn: nat)
    requires Rotates(s, s', between, log, sn)
    requires forall id | Outside(s'.pc, id) :: Outside(s.pc, id)
    requires forall id | Between(s.pc, id) :: Between(s'.pc, id) || (between != [] && id == between[0].batches[0].id)
    ensures Conserved(s')
  {
    hide Refs, LogOrder, Logs, Current, Numbers, FlushOk, InLog, RotateMemtable, Outside, Between, QueueIds;
    RotatedQueue(s, s', between, log, sn);
    forall id | id in s.written ensures id in s'.flushed || id in QueueIds(s'.queue) || Between(s'.pc, id) {
      if id in QueueIds(s.queue) {
        var i, b := QueueHasOnly(s.queue, id);
        QueueHas(s'.queue, i, b);
      } else if between != [] && id == between[0].batches[0].id {
        QueueHas(s'.queue, |s.queue|, between[0].batches[0]);
      }
    }
  }

  lemma RotateNumbers(s: State, s': State, between: seq<Flushable>, log: nat, sn: nat)
    requires Rotates(s, s', between, log, sn)
    requires Floor(s) <= sn <= Floor(s') <= PcEnd(s') == s'.nextSn
    requires between != [] ==> var b := between[0].batches[0]; b.sn == Floor(s) && b.sn + b.count <= sn
    ensures Numbers(s')
  {
    hide Refs, LogOrder, Logs, Current, Held, Conserved, FlushOk, InLog, RotateMemtable, Outside, Between, Floor, PcEnd;
    RotatedQueue(s, s', between, log, sn);
    forall i, b | 0 <= i < |s'.queue| && b in s'.queue[i].batches
      ensures s'.queue[i].logSeqNum <= b.sn && b.sn + b.count <= Floor(s')
    {
      assert i < |s.queue| || b == between[0].batches[0];
    }
  }

  lemma RotateFlush(s: State, s': State, between: seq<Flushable>, log: nat, sn: nat)
    requires Rotates(s, s', between, log, sn)
    ensures FlushOk(s')
  {
    hide Refs, LogOrder, Logs, Current, Held, Conserved, Numbers, InLog, RotateMemtable, Outside, Between;
    RotatedQueue(s, s', between, log, sn);
  }

  lemma StepRotated(s: State)
    requires Inv(s)
    ensures Inv(Step(s, Rotated))
  {
    hide LogOrder, Held, Conserved, FlushOk, InLog, Refs;
    var s' := Step(s, Rotated);
    if s.pc.Rotating? {
      var job, log, sn := s.pc.job, s.pc.log, NextLogSeqNum(s, s.pc.job);
      var between := if job.Large? then [Flushable(LargeBatch, s.queue[|s.queue| - 1].logNum, job.b.sn, 0, {}, [job.b])] else [];
      assert Rotates(s, s', between, log, sn);
      assert Floor(s) <= sn <= Floor(s') <= PcEnd(s') == s'.nextSn;
      RotatedQueue(s, s', between, log, sn);
      RotateRefs(s, s', between, log, sn);
      RotateLogOrder(s, s', between, log, sn);
      AppendedLogs(s, s', log);
      RotateHeld(s, s', between, log, sn);
      RotateConserved(s, s', between, log, sn);
      RotateNumbers(s, s', between, log, sn);
      RotateFlush(s, s', between, log, sn);
    }
  }

  lemma StepIngestQueue(s: State)
    requires Inv(s)
    ensures Inv(Step(s, IngestQueue))
  {
    hide LogOrder, Held, Conserved, FlushOk, InLog, Refs;
    var s' := Step(s, IngestQueue);
    if s.pc.IngestQueuing? {
      var b, log, sn := s.pc.b, s.pc.next, s.pc.b.sn + s.pc.b.count;
      var between := [Flushable(Ingested, s.pc.log, b.sn, 0, {}, [b])];
      assert Rotates(s, s', between, log, sn);
      assert Floor(s) <= sn <= Floor(s') <= PcEnd(s') == s'.nextSn;
      RotatedQueue(s, s', between, log, sn);
      RotateRefs(s, s', between, log, sn);
      RotateLogOrder(s, s', between, log, sn);
      AppendedLogs(s, s', log);
      RotateHeld(s, s', between, log, sn);
      RotateConserved(s, s', between, log, sn);
      RotateNumbers(s, s', between, log, sn);
      RotateFlush(s, s', between, log, sn);
    }
  }

  // Memtable entries

  /** The last entry takes the writer's batch. */
  lemma StepFits(s: State)
    requires Inv(s)
    ensures Inv(Step(s, Fits))
  {
    hide LogOrder, Logs, Held, Conserved, Numbers, FlushOk, InLog, Refs;
    var s' := Step(s, Fits);
    if s.pc.Room? && s.pc.job.Normal? {
      var b := s.pc.job.b;
      FitsRefs(s, s', b);
      FitsQueue(s, s', b);
      FrameLogs(s, s');
      FitsHeld(s, s', b);
      FitsConserved(s, s', b);
      FitsNumbers(s, s', b);
    }
  }

  ghost predicate Fitting(s: State, s': State, b: Batch) {
    && Inv(s) && s.pc.Room? && s.pc.job == Normal(b)
    && var last := |s.queue| - 1;
       var m := s.queue[last];
       s' == s.(pc := Writing(b),
                queue := s.queue[last := m.(batches := m.batches + [b], pending := m.pending + {b.id}, refs := m.refs + 1)])
  }

  lemma FitsFresh(s: State, s': State, b: Batch)
    requires Fitting(s, s', b)
    ensures b.id !in s.queue[|s.queue| - 1].pending
  {
    hide LogOrder, Logs, Current, Conserved, Numbers, FlushOk, InLog;
  }

  lemma FitsRefs(s: State, s': State, b: Batch)
    requires Fitting(s, s', b)
    ensures s'.queue != [] && Refs(s')
  {
    hide LogOrder, Logs, Current, Held, Conserved, Numbers, FlushOk, Ids;
    FitsFresh(s, s', b);
    IdsAppend(s.queue[|s.queue| - 1].batches, b);
  }

  lemma IdsAppend(bs: seq<Batch>, b: Batch)
    ensures Ids(bs + [b]) == Ids(bs) + {b.id}
  {
    assert b in bs + [b];
    assert forall c :: c in bs + [b] <==> c in bs || c == b;
  }

  lemma FitsQueue(s: State, s': State, b: Batch)
    requires Fitting(s, s', b)
    ensures LogOrder(s') && FlushOk(s')
  {
    hide Refs, Logs, Current, Held, Conserved, Numbers, InLog, HasLog;
  }

  lemma FitsHeld(s: State, s': State, b: Batch)
    requires Fitting(s, s', b)
    ensures Held(s')
  {
    hide Refs, LogOrder, Logs, Numbers, FlushOk, InLog, QueueIds;
    assert Outside(s.pc, b.id);
    assert b.id in s.used && b.id !in s.flushed;
    forall i, c | 0 <= i < |s'.queue| && c in s'.queue[i].batches
      ensures && c.id in s'.used && c.id !in s'.flushed && !Outside(s'.pc, c.id)
              && (InLog(s'.logs, s'.queue[i].logNum, c.id) || (s'.pc == Writing(c) && c.id in s'.queue[i].pending))
    {
      assert c in s.queue[i].batches || (i == |s.queue| - 1 && c == b);
    }
    forall i, j, c, d | 0 <= i < j < |s'.queue| && c in s'.queue[i].batches && d in s'.queue[j].batches ensures c.id != d.id {
      assert c in s.queue[i].batches;
      assert d in s.queue[j].batches || d == b;
    }
  }

  lemma FitsConserved(s: State, s': State, b: Batch)
    requires Fitting(s, s', b)
    ensures Conserved(s')
  {
    hide Refs, LogOrder, Logs, Current, Held, Numbers, FlushOk, InLog, QueueIds;
    forall id | id in QueueIds(s.queue) ensures id in QueueIds(s'.queue) {
      var i, c := QueueHasOnly(s.queue, id);
      QueueHas(s'.queue, i, c);
    }
  }

  lemma FitsNumbers(s: State, s': State, b: Batch)
    requires Fitting(s, s', b)
    ensures Numbers(s')
  {
    hide Refs, LogOrder, Logs, Current, Held, Conserved, FlushOk, InLog;
    forall i, c | 0 <= i < |s'.queue| && c in s'.queue[i].batches
      ensures s'.queue[i].logSeqNum <= c.sn && c.sn + c.count <= Floor(s')
    {
      assert c in s.queue[i].batches || (i == |s.queue| - 1 && c == b);
    }
  }

  lemma StepApply(s: State, i: nat, id: nat)
    requires Inv(s)
    ensures Inv(Step(s, Apply(i, id)))
  {
    hide LogOrder, Logs, Held, Conserved, Numbers, FlushOk, InLog, Refs;
    var s' := Step(s, Apply(i, id));
    if i < |s.queue| && id in s.queue[i].pending && id in s.written {
      ApplyRefs(s, s', i, id);
      ApplyQueue(s, s', i, id);
      FrameLogs(s, s');
      ApplyHeld(s, s', i, id);
      ApplyConserved(s, s', i, id);
      ApplyNumbers(s, s', i, id);
    }
  }

  ghost predicate Applying(s: State, s': State, i: nat, id: nat) {
    && Inv(s) && i < |s.queue| && id in s.queue[i].pending && id in s.written
    && s' == s.(queue := s.queue[i := s.queue[i].(pending := s.queue[i].pending - {id}, refs := s.queue[i].refs - 1)])
  }

  lemma ApplyRefs(s: State, s': State, i: nat, id: nat)
    requires Applying(s, s', i, id)
    ensures s'.queue != [] && Refs(s')
  {
    hide LogOrder, Logs, Current, Held, Conserved, Numbers, FlushOk, InLog, Ids;
  }

  lemma ApplyQueue(s: State, s': State, i: nat, id: nat)
    requires Applying(s, s', i, id)
    ensures LogOrder(s') && FlushOk(s')
  {
    hide Logs, Current, Held, Conserved, Numbers, InLog, HasLog, Ids;
    assert |s.queue[i].pending| > 0;
  }

  lemma ApplyHeld(s: State, s': State, i: nat, id: nat)
    requires Applying(s, s', i, id)
    ensures Held(s') && Current(s')
  {
    hide Refs, LogOrder, Logs, Conserved, Numbers, FlushOk, InLog, Outside;
  }

  lemma ApplyConserved(s: State, s': State, i: nat, id: nat)
    requires Applying(s, s', i, id)
    ensures Conserved(s')
  {
    hide Refs, LogOrder, Logs, Current, Held, Numbers, FlushOk, InLog, QueueIds, Outside, Between;
    forall x | x in QueueIds(s.queue) ensures x in QueueIds(s'.queue) {
      var j, c := QueueHasOnly(s.queue, x);
      QueueHas(s'.queue, j, c);
    }
  }

  lemma ApplyNumbers(s: State, s': State, i: nat, id: nat)
    requires Applying(s, s', i, id)
    ensures Numbers(s')
  {
    hide Refs, LogOrder, Logs, Current, Held, Conserved, FlushOk, InLog;
  }

  // Flushes

  /** Why flush1 stops where it stops. */
  lemma {:induction false} PrefixStops(queue: seq<Flushable>, n: nat)
    requires n < |queue|
    ensures var r := FlushPrefix(queue, n);
            && (forall i | n <= i < r :: queue[i].ReadyForFlush() && (queue[i].kind.Ingested? ==> i == 0 && r == 1))
            && (r == |queue| - 1 || queue[r].kind.Ingested? || !queue[r].ReadyForFlush()
                || (n == 0 && r == 1 && queue[0].kind.Ingested?))
    decreases |queue| - n
  {
    if n < |queue| - 1 && !queue[n].kind.Ingested? && queue[n].ReadyForFlush() {
      PrefixStops(queue, n + 1);
    }
  }

  /** Every flushable of a flush has a log number below the new minimum: the panic
      of flush1 is out of reach. */
  lemma FlushKeepsLogsApart(s: State)
    requires Shape(s) && Refs(s) && LogOrder(s)
    ensures var n := FlushPrefix(s.queue, 0);
            n < |s.queue| && forall i | 0 <= i < n :: s.queue[i].logNum < s.queue[n].logNum && s.queue[i].ReadyForFlush()
  {
    hide Ids, HasLog;
    PrefixStops(s.queue, 0);
  }

  lemma OnlyFlushChanges(s: State, f: Option<Flush>)
    requires Inv(s)
    ensures var s' := s.(flush := f);
            Refs(s') && LogOrder(s') && Logs(s') && Current(s') && Held(s') && Conserved(s') && Numbers(s')
  {
    hide Refs, LogOrder, Logs, Current, Held, Conserved, FlushOk, Outside, Between;
    var s' := s.(flush := f);
    assert Floor(s') == Floor(s) <= PcEnd(s') == s'.nextSn;
    hide Numbers;
    FrameRefs(s, s');
    FrameLogOrder(s, s');
    FrameLogs(s, s');
    FrameCurrent(s, s');
    FrameHeld(s, s');
    FrameConserved(s, s');
    FrameNumbers(s, s');
  }

  lemma FrameCurrent(s: State, s': State)
    requires s.queue != [] && s.logs != [] && Current(s) && s' == s.(flush := s'.flush)
    ensures Current(s')
  {
  }

  lemma StepFlushStart(s: State)
    requires Inv(s)
    ensures Inv(Step(s, FlushStart))
  {
    hide Refs, LogOrder, Logs, Current, Held, Conserved, Numbers;
    FlushKeepsLogsApart(s);
    OnlyFlushChanges(s, Some(Flush(FlushPrefix(s.queue, 0), s.queue[FlushPrefix(s.queue, 0)].logNum)));
  }

  ghost predicate Flushes(s: State, s': State, n: nat) {
    && Inv(s) && s.flush.Some? && s.flush.value.n == n
    && s' == s.(flush := None, minUnflushedLogNum := s.flush.value.min,
                flushed := s.flushed + QueueIds(s.queue[..n]), queue := s.queue[n..])
  }

  lemma FlushRefs(s: State, s': State, n: nat)
    requires Flushes(s, s', n)
    ensures s'.queue != [] && Refs(s') && Current(s')
  {
    hide LogOrder, Logs, Held, Conserved, Numbers, InLog, Ids, QueueIds;
  }

  lemma FlushLogOrder(s: State, s': State, n: nat)
    requires Flushes(s, s', n)
    ensures LogOrder(s')
  {
    hide Refs, Logs, Current, Held, Conserved, Numbers, InLog, HasLog, Ids, QueueIds;
    forall i | 0 <= i < |s'.queue| ensures s'.minUnflushedLogNum <= s'.queue[i].logNum {
      assert s'.queue[i] == s.queue[n + i];
      if i > 0 { assert s.queue[n].logNum <= s.queue[n + i].logNum; }
    }
  }

  /** A batch that is flushed has its record in a log below the new minimum. */
  lemma FlushedRecord(s: State, s': State, n: nat, id: nat) returns (i: nat)
    requires Flushes(s, s', n) && id in QueueIds(s.queue[..n])
    ensures i < n && InLog(s.logs, s.queue[i].logNum, id) && s.queue[i].logNum < s'.minUnflushedLogNum
    ensures id in s.used && !Outside(s.pc, id)
    ensures forall j, c | n <= j < |s.queue| && c in s.queue[j].batches :: c.id != id
  {
    hide LogOrder, Logs, Conserved, Numbers, QueueIds, InLog;
    var b;
    i, b := QueueHasOnly(s.queue[..n], id);
    assert s.queue[..n][i] == s.queue[i];
    assert s.queue[i].pending == {};
  }

  lemma FlushHeld(s: State, s': State, n: nat)
    requires Flushes(s, s', n)
    ensures Held(s')
  {
    hide Refs, LogOrder, Logs, Current, Conserved, Numbers, QueueIds, InLog, Outside;
    forall i, b | 0 <= i < |s'.queue| && b in s'.queue[i].batches ensures b.id !in s'.flushed {
      assert s'.queue[i] == s.queue[n + i];
      if b.id in QueueIds(s.queue[..n]) {
        var j := FlushedRecord(s, s', n, b.id);
      }
    }
  }

  lemma QueueSplits(queue: seq<Flushable>, n: nat, id: nat)
    requires n <= |queue| && id in QueueIds(queue)
    ensures id in QueueIds(queue[..n]) || id in QueueIds(queue[n..])
  {
    hide QueueIds;
    var i, b := QueueHasOnly(queue, id);
    if i < n { QueueHas(queue[..n], i, b); } else { QueueHas(queue[n..], i - n, b); }
  }

  lemma FlushConserved(s: State, s': State, n: nat)
    requires Flushes(s, s', n)
    ensures Conserved(s')
  {
    hide Refs, LogOrder, Current, Held, Numbers, QueueIds, Outside, Between;
    forall id | id in s.written ensures id in s'.flushed || id in QueueIds(s'.queue) || Between(s'.pc, id) {
      if id in QueueIds(s.queue) { QueueSplits(s.queue, n, id); }
    }
    forall id | id in s'.flushed ensures id in s.used && !Outside(s.pc, id) {
      if id in QueueIds(s.queue[..n]) { var i := FlushedRecord(s, s', n, id); }
    }
    forall l, id | 0 <= l < |s.logs| && s'.minUnflushedLogNum <= s.logs[l].num && id in s.logs[l].records ensures id !in s'.flushed {
      FlushRaisesMin(s, s', n);
      if id in QueueIds(s.queue[..n]) {
        var i := FlushedRecord(s, s', n, id);
        OneLog(s, s.queue[i].logNum, id, l);
      }
    }
  }

  lemma OneLog(s: State, num: nat, id: nat, l: nat)
    requires s.logs != [] && Logs(s) && InLog(s.logs, num, id) && l < |s.logs| && id in s.logs[l].records
    ensures s.logs[l].num == num
  {
  }

  lemma FlushRaisesMin(s: State, s': State, n: nat)
    requires Flushes(s, s', n)
    ensures s.minUnflushedLogNum < s'.minUnflushedLogNum < s.nextFileNum
  {
    hide Refs, Current, Held, Conserved, Numbers, QueueIds, InLog;
    assert s.queue[0].logNum < s.queue[n].logNum;
    BelowLast(s, s.queue[n].logNum);
  }

  lemma FlushNumbers(s: State, s': State, n: nat)
    requires Flushes(s, s', n)
    ensures Numbers(s')
  {
    hide Refs, LogOrder, Logs, Current, Held, Conserved, QueueIds, InLog;
  }

  lemma StepFlushDone(s: State, ok: bool)
    requires Inv(s)
    ensures Inv(Step(s, FlushDone(ok)))
  {
    hide Refs, LogOrder, Logs, Current, Held, Conserved, Numbers;
    var s' := Step(s, FlushDone(ok));
    if s.flush.Some? {
      if ok {
        var n := s.flush.value.n;
        FlushRefs(s, s', n);
        FlushLogOrder(s, s', n);
        FrameLogs(s, s');
        FlushHeld(s, s', n);
        FlushConserved(s, s', n);
        FlushNumbers(s, s', n);
      } else {
        OnlyFlushChanges(s, None);
      }
    }
  }

  // Removing logs

  lemma DropKeeps(logs: seq<Log>, min: nat, num: nat, id: nat)
    requires min <= num
    ensures HasLog(logs, num) ==> HasLog(DropLogs(logs, min), num)
    ensures InLog(logs, num, id) ==> InLog(DropLogs(logs, min), num, id)
  {
    var i := FirstNeeded(logs, min);
    var kept := DropLogs(logs, min);
    if HasLog(logs, num) {
      var l :| 0 <= l < |logs| && logs[l].num == num;
      if i < |logs| { assert kept[l - i] == logs[l]; }
    }
    if InLog(logs, num, id) {
      var l :| 0 <= l < |logs| && logs[l].num == num && id in logs[l].records;
      if i < |logs| { assert kept[l - i] == logs[l]; }
    }
  }

  ghost predicate Cleans(s: State, s': State) {
    Inv(s) && s' == s.(logs := DropLogs(s.logs, s.minUnflushedLogNum))
  }

  lemma SuffixLogs(s: State, s': State, k: nat)
    requires k < |s.logs| && Logs(s) && s' == s.(logs := s.logs[k..])
    ensures Logs(s')
  {
    assert forall l | 0 <= l < |s'.logs| :: s'.logs[l] == s.logs[k + l];
  }

  lemma CleanLogs(s: State, s': State)
    requires Cleans(s, s')
    ensures s'.logs != [] && |s'.logs| <= |s.logs| && s'.logs[|s'.logs| - 1] == s.logs[|s.logs| - 1] && Logs(s')
    ensures forall l | 0 <= l < |s'.logs| :: s'.logs[l] == s.logs[|s.logs| - |s'.logs| + l]
  {
    hide Refs, LogOrder, Logs, Current, Held, Conserved, Numbers, FlushOk, InLog;
    var k := FirstNeeded(s.logs, s.minUnflushedLogNum);
    assert s.logs[0..] == s.logs;
    SuffixLogs(s, s', if k < |s.logs| then k else 0);
  }

  lemma CleanKeeps(s: State, s': State)
    requires Cleans(s, s')
    ensures forall num | s.minUnflushedLogNum <= num && HasLog(s.logs, num) :: HasLog(s'.logs, num)
    ensures forall num, id | s.minUnflushedLogNum <= num && InLog(s.logs, num, id) :: InLog(s'.logs, num, id)
  {
    hide Inv, InLog, HasLog, DropLogs;
    forall num | s.minUnflushedLogNum <= num && HasLog(s.logs, num) ensures HasLog(s'.logs, num) {
      DropKeeps(s.logs, s.minUnflushedLogNum, num, 0);
    }
    forall num, id | s.minUnflushedLogNum <= num && InLog(s.logs, num, id) ensures InLog(s'.logs, num, id) {
      DropKeeps(s.logs, s.minUnflushedLogNum, num, id);
    }
  }

  lemma CleanQueue(s: State, s': State)
    requires Cleans(s, s')
    ensures LogOrder(s') && Held(s')
  {
    hide Refs, Logs, Current, Conserved, Numbers, FlushOk, InLog, HasLog, Ids, Outside, DropLogs;
    CleanKeeps(s, s');
  }

  lemma CleanCurrent(s: State, s': State)
    requires Cleans(s, s')
    ensures s'.logs != [] && Current(s') && Conserved(s')
  {
    hide Refs, Logs, Held, Numbers, FlushOk, InLog, HasLog, QueueIds, Outside, Between, DropLogs;
    CleanLogs(s, s');
    CleanKeeps(s, s');
    assert s.minUnflushedLogNum <= s.queue[|s.queue| - 1].logNum;
    forall l, id | 0 <= l < |s'.logs| && s'.minUnflushedLogNum <= s'.logs[l].num && id in s'.logs[l].records ensures id !in s'.flushed {
      assert s'.logs[l] == s.logs[|s.logs| - |s'.logs| + l];
    }
  }

  lemma StepCleanup(s: State)
    requires Inv(s)
    ensures Inv(Step(s, Cleanup))
  {
    hide Refs, LogOrder, Logs, Current, Held, Conserved, Numbers, DropLogs;
    var s' := Step(s, Cleanup);
    FrameRefs(s, s');
    CleanLogs(s, s');
    CleanQueue(s, s');
    CleanCurrent(s, s');
    FrameNumbersAlike(s, s');
  }

  lemma FrameNumbersAlike(s: State, s': State)
    requires Numbers(s) && s' == s.(logs := s'.logs)
    ensures Numbers(s')
  {
  }

  // ---------------------------------------------------------------------
  // Runs
  // ---------------------------------------------------------------------

  lemma StepInv(s: State, e: Event)
    requires Inv(s)
    ensures Inv(Step(s, e))
  {
    hide Inv, Step;
    InvShape(s);
    match e
    case StartLarge(id, count) => StepStartLarge(s, id, count);
    case Fits => StepFits(s);
    case Rotated => StepRotated(s);
    case WriteWal => StepWriteWal(s);
    case IngestRotated => StepIngestRotated(s);
    case IngestWrite => StepIngestWrite(s);
    case IngestQueue => StepIngestQueue(s);
    case Apply(i, id) => StepApply(s, i, id);
    case FlushStart => StepFlushStart(s);
    case FlushDone(ok) => StepFlushDone(s, ok);
    case Cleanup => StepCleanup(s);
    case StartNormal(_, _) => StepStart(s, e);
    case StartManual => StepStart(s, e);
    case StartIngest(_, _) => StepStart(s, e);
    case _ => StepOn(s, e);
  }

  lemma InvShape(s: State)
    requires Inv(s)
    ensures Shape(s)
  {
  }

  /** The state after a run from an empty store with one log. */
  ghost function Reached(log: nat, sn: nat, es: seq<Event>): (s: State)
    ensures Inv(s)
  {
    if es == [] then InitInv(log, sn); Init(log, sn)
    else
      var s := Reached(log, sn, es[..|es| - 1]);
      StepInv(s, es[|es| - 1]);
      Step(s, es[|es| - 1])
  }

  /** What a crash leaves to recover a batch from: the tables, and the logs that
      replay looks at. */
  predicate InReplay(s: State, id: nat) {
    exists l :: 0 <= l < |s.logs| && s.minUnflushedLogNum <= s.logs[l].num && id in s.logs[l].records
  }

  /** At every moment of every run, replaying the logs from minUnflushedLogNum on
      yields exactly the batches that are in the WAL and not yet in tables: no
      batch is lost, and none is replayed on top of the tables that have it. */
  lemma ReplayIsExact(log: nat, sn: nat, es: seq<Event>, id: nat)
    ensures var s := Reached(log, sn, es); InReplay(s, id) <==> id in s.written && id !in s.flushed
  {
    hide FlushOk, Numbers, QueueIds, Reached;
    var s := Reached(log, sn, es);
    if id in s.written && id !in s.flushed {
      if id in QueueIds(s.queue) {
        var i, b := QueueHasOnly(s.queue, id);
        InQueueReplays(s, i, b);
      } else {
        BetweenReplays(s, id);
      }
    }
  }

  lemma InQueueReplays(s: State, i: nat, b: Batch)
    requires Inv(s) && i < |s.queue| && b in s.queue[i].batches && b.id in s.written
    ensures InReplay(s, b.id)
  {
    hide FlushOk, Numbers, QueueIds, Refs, Conserved, Logs, InLog, HasLog;
    assert InLog(s.logs, s.queue[i].logNum, b.id);
    LogReplays(s, s.queue[i].logNum, b.id);
  }

  lemma LogReplays(s: State, num: nat, id: nat)
    requires InLog(s.logs, num, id) && s.minUnflushedLogNum <= num
    ensures InReplay(s, id)
  {
  }

  lemma BetweenReplays(s: State, id: nat)
    requires Inv(s) && Between(s.pc, id)
    ensures InReplay(s, id)
  {
    hide FlushOk, Numbers, QueueIds, Refs, Conserved, Logs, Held, InLog, HasLog;
    var mem := s.queue[|s.queue| - 1].logNum;
    LogReplays(s, if s.pc.IngestWritten? || s.pc.IngestQueuing? then s.pc.log else mem, id);
  }

  /** A flush never takes an entry apart from one that shares its log, so the
      assertion in flush1 holds, and the edit it writes passes the check of the
      version set; the minimum only rises. */
  lemma FlushIsConsistent(log: nat, sn: nat, es: seq<Event>)
    ensures var s := Reached(log, sn, es);
            var n := FlushPrefix(s.queue, 0);
            && n < |s.queue|
            && (forall i | 0 <= i < n :: s.queue[i].logNum < s.queue[n].logNum)
            && s.minUnflushedLogNum <= s.queue[n].logNum < s.nextFileNum
            && (s.flush.Some? ==> s.minUnflushedLogNum < s.flush.value.min < s.nextFileNum)
  {
    hide Held, Numbers, Conserved, Reached, InLog, Current;
    var s := Reached(log, sn, es);
    FlushKeepsLogsApart(s);
    BelowLast(s, s.queue[FlushPrefix(s.queue, 0)].logNum);
    if s.flush.Some? { BelowLast(s, s.queue[s.flush.value.n].logNum); }
  }

  /** What a flush writes to tables is complete: every batch of it is applied, and
      its record is in a log that the flush makes obsolete. */
  lemma FlushedIsApplied(log: nat, sn: nat, es: seq<Event>, i: nat)
    requires var s := Reached(log, sn, es); s.flush.Some? && i < s.flush.value.n
    ensures var s := Reached(log, sn, es);
            && s.queue[i].pending == {} && s.queue[i].refs == 0
            && (forall b | b in s.queue[i].batches :: b.id in s.written)
  {
    hide Numbers, Conserved, Reached, InLog, LogOrder;
    var s := Reached(log, sn, es);
    assert |s.queue[i].pending| == 0;
    forall b | b in s.queue[i].batches ensures b.id in s.written {
      WrittenRecord(s, s.queue[i].logNum, b.id);
    }
  }

  /** The sequence numbers of queued batches lie between their entry's logSeqNum and
      the next entry's, which is what lets a read skip the newest memtables. */
  lemma QueueIsOrderedBySeqNum(log: nat, sn: nat, es: seq<Event>, i: nat, b: Batch)
    requires i < |Reached(log, sn, es).queue| && b in Reached(log, sn, es).queue[i].batches
    ensures var s := Reached(log, sn, es);
            && s.queue[i].logSeqNum <= b.sn && b.sn + b.count <= s.nextSn
            && (forall j | i < j < |s.queue| :: b.sn + b.count <= s.queue[j].logSeqNum)
  {
    hide Held, Conserved, Reached, InLog, LogOrder, Logs, Refs, FlushOk, Current;
  }

  /** References never go below zero, and the mutable memtable is never flushed. */
  lemma RefsNeverNegative(log: nat, sn: nat, es: seq<Event>, i: nat)
    requires i < |Reached(log, sn, es).queue|
    ensures var s := Reached(log, sn, es); 0 <= s.queue[i].refs && (i == |s.queue| - 1 ==> !s.queue[i].ReadyForFlush())
  {
    hide Held, Conserved, Reached, InLog, LogOrder, Logs, Numbers, FlushOk, Current;
  }
}
