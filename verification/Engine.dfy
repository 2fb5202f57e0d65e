/**
 The engine as a step machine (internal/engine/db.go, version.go, compactor.go).

 Every thread of the program is a program counter in the state, and every step is one
 pointer load, pointer store, compare-and-swap, lock acquisition, MemTable operation
 or file operation of the code. A run is any interleaving of these steps.

 MemTables are numbered in the order they are created and files in the order they are
 written; `files`, `versions` and `tables` only grow. `spans` is history that no step reads:
 file f was made from the MemTables spans[f].lo .. spans[f].hi - 1.
 */
module Engine {
  import opened Options
  import opened ByteStrings
  import opened Layers

  datatype Span = Span(lo: nat, hi: nat)

  /** Manifest: per level, oldest file first. */
  datatype Manifest = Manifest(l0: seq<nat>, l1: seq<nat>) {
    /** All files in the reverse of the order a reader searches them. */
    function Files(): seq<nat> {
      l1 + l0
    }
  }

  /** The holder of DB.mu. */
  datatype Mutex = Free | Rotating(rot: Rotation) | Closer

  /** CheckFlush, by the statement that comes next. */
  datatype Rotation =
    | LoadActive
    | CheckRoom(t: nat)
    | FreezeTable(t: nat)
    | StoreImmutable(t: nat)
    | StoreActive(t: nat)
    | Send(t: nat)

  /** DB.Close, by the statement that comes next. */
  datatype Closing =
    | NotClosing
    | WaitRoom(t: nat)
    | SleepUnlocked(t: nat)
    | SendFinal(t: nat)
    | SignalStop
    | Join
    | Closed

  /** flushWorker with the maybeCompact it runs, by the statement that comes next. */
  datatype Worker =
    | Idle
    | Flush(t: nat)
    | LoadOld(t: nat, f: nat)
    | Publish(t: nat, f: nat, base: nat)
    | ClearImmutable(t: nat, l0Count: nat)
    | CompactionCheck(l0Count: nat)
    | CompactLoad
    | CompactWrite(v: nat)
    | CompactReload(batch: seq<nat>, f: nat)
    | CompactPublish(batch: seq<nat>, f: nat, base: nat)
    | Drain
    | Exited

  /** One DB.Put or DB.Delete call (val == [] for a Delete). */
  datatype Writer = Writer(key: Bytes, val: Bytes, pc: WriterPc)

  datatype WriterPc = AppendWal | LoadTable | Insert(t: nat) | Written

  /** The MemTables ever created, by number: contents, Size() and the frozen flag; activeMT and immutableMT. */
  datatype Mem = Mem(tables: seq<Contents>, sizes: seq<nat>, frozen: seq<bool>, active: nat, immutable: Option<nat>)

  /** The files ever written, the manifests ever published and currentVersion. */
  datatype Disk = Disk(files: seq<Contents>, spans: seq<Span>, versions: seq<Manifest>, current: nat)

  datatype Core = Core(
    flushThreshold: nat,
    compactionThreshold: nat,
    mem: Mem,
    disk: Disk,
    queue: seq<nat>,
    mu: Mutex,
    worker: Worker,
    closing: Closing,
    stopped: bool,
    flushed: seq<nat>,          // the tables FlushMemTable was called on, in order
    writers: map<nat, Writer>,
    wal: seq<(Bytes, Bytes)>)

  datatype GetResult = Found(val: Bytes) | NotFound | ReadError

  /** One DB.Get call. `floor` is history: every version seen from here on covers at least the tables below it. */
  datatype Reader = Reader(key: Bytes, pc: ReaderPc, floor: nat)

  datatype ReaderPc =
    | LoadActiveTable
    | SearchActive(t: nat)
    | LoadImmutable
    | SearchImmutable(t: nat)
    | LoadVersion
    | LoadRefs(v: nat)
    | CasRefs(v: nat, seen: int)
    | SearchFile(v: nat, left: nat)
    | Release(v: nat, res: GetResult)
    | Returned(res: GetResult)

  /** One PurgeObsoleteFiles(v, files) call: the CAS to -1, then one unlink after the other. */
  datatype Purge = Purge(v: nat, files: seq<nat>, marked: bool, removed: nat)

  datatype State = State(
    core: Core,
    refs: seq<int>,             // Version.Refs, by version
    readers: map<nat, Reader>,
    purges: seq<Purge>,
    unlinked: set<nat>)

  // ------------------------------------------------------------ the view

  predicate WellFormed(c: Core) {
    && |c.mem.tables| == |c.mem.sizes| == |c.mem.frozen|
    && c.mem.active < |c.mem.tables|
    && (c.mem.immutable.Some? ==> c.mem.immutable.value < |c.mem.tables|)
    && |c.disk.spans| == |c.disk.files|
    && c.disk.current < |c.disk.versions|
    && (forall v, i :: 0 <= v < |c.disk.versions| && 0 <= i < |c.disk.versions[v].Files()| ==>
        c.disk.versions[v].Files()[i] < |c.disk.files|)
  }

  /** Search a manifest's files from the last one back, as Get does. */
  function SearchFiles(files: seq<Contents>, ids: seq<nat>, k: Bytes): Option<Bytes>
    requires forall i :: 0 <= i < |ids| ==> ids[i] < |files|
  {
    if ids == [] then None
    else
      var f := ids[|ids| - 1];
      if k in files[f] then Some(files[f][k]) else SearchFiles(files, ids[..|ids| - 1], k)
  }

  /** What a Get that ran in one instant would meet first: active table, immutable table, files. */
  ghost function Stored(c: Core, k: Bytes): Option<Bytes>
    requires WellFormed(c)
  {
    if k in c.mem.tables[c.mem.active] then Some(c.mem.tables[c.mem.active][k])
    else if c.mem.immutable.Some? && k in c.mem.tables[c.mem.immutable.value]
    then Some(c.mem.tables[c.mem.immutable.value][k])
    else SearchFiles(c.disk.files, c.disk.versions[c.disk.current].Files(), k)
  }

  /** The abstract map. */
  ghost function View(c: Core, k: Bytes): Option<Bytes>
    requires WellFormed(c)
  {
    Live(Stored(c, k))
  }

  // ------------------------------------------------- what compaction writes

  /** Union of the files of a batch, the newest (last) winning. */
  function MergedFiles(files: seq<Contents>, batch: seq<nat>): Contents
    requires forall i :: 0 <= i < |batch| ==> batch[i] < |files|
  {
    if batch == [] then map[]
    else MergedFiles(files, batch[..|batch| - 1]) + files[batch[|batch| - 1]]
  }

  /** The compactor drops the empty key, because lastKey starts out nil. */
  function CompactedFile(files: seq<Contents>, batch: seq<nat>): Contents
    requires forall i :: 0 <= i < |batch| ==> batch[i] < |files|
  {
    MergedFiles(files, batch) - {[]}
  }

  /** The L0 files of `l0` that are not in `batch`. */
  function Remaining(l0: seq<nat>, batch: seq<nat>): seq<nat> {
    if l0 == [] then []
    else if l0[0] in batch then Remaining(l0[1..], batch)
    else [l0[0]] + Remaining(l0[1..], batch)
  }

  // ------------------------------------------------------------- actions

  datatype Action =
    | BeginPut(w: nat, key: Bytes, val: Bytes)
    | StepPut(w: nat)
    | BeginRotation
    | StepRotation
    | BeginClose
    | StepClose
    | StepWorker
    | StopWorker
    | FailCompaction
    | BeginGet(r: nat, key: Bytes)
    | StepGet(r: nat)
    | StepPurge(p: nat)

  ghost predicate Quiet(c: Core) {
    c.mu == Free && forall w :: w in c.writers ==> c.writers[w].pc == Written
  }

  ghost predicate Enabled(s: State, a: Action) {
    var c := s.core;
    match a
    case BeginPut(w, _, _) => w !in c.writers && c.closing == NotClosing
    case StepPut(w) => w in c.writers && c.writers[w].pc != Written
    case BeginRotation => c.mu == Free && c.closing == NotClosing
    case StepRotation => c.mu.Rotating? && (c.mu.rot.Send? ==> |c.queue| < 1)
    case BeginClose => Quiet(c) && c.closing == NotClosing
    case StepClose =>
      (match c.closing
       case NotClosing | Closed => false
       case SleepUnlocked(_) => c.mu == Free
       case SendFinal(_) => |c.queue| < 1
       case Join => c.worker == Exited
       case _ => true)
    case StepWorker =>
      (match c.worker
       case Idle => c.queue != []
       case ClearImmutable(_, _) => c.mu == Free
       case Exited => false
       case _ => true)
    case StopWorker => c.worker == Idle && c.stopped
    case FailCompaction => c.worker.CompactWrite?
    case BeginGet(r, _) => r !in s.readers
    case StepGet(r) => r in s.readers && !s.readers[r].pc.Returned?
    case StepPurge(p) =>
      p < |s.purges| &&
      var j := s.purges[p];
      if j.marked then j.removed < |j.files| else j.v < |s.refs| && s.refs[j.v] == 0
  }

  /** The table and file numbers a program counter holds exist. */
  ghost predicate InRange(s: State) {
    var c := s.core;
    && WellFormed(c)
    && |s.refs| == |c.disk.versions|
    && (c.mu.Rotating? && !c.mu.rot.LoadActive? ==> c.mu.rot.t < |c.mem.tables|)
    && (c.closing.WaitRoom? || c.closing.SleepUnlocked? || c.closing.SendFinal? ==> c.closing.t < |c.mem.tables|)
    && (forall i :: 0 <= i < |c.queue| ==> c.queue[i] < |c.mem.tables|)
    && (c.worker.Flush? ==> c.worker.t < |c.mem.tables|)
    && (c.worker.Publish? || c.worker.CompactPublish? ==> c.worker.base < |c.disk.versions|)
    && (c.worker.CompactWrite? ==> c.worker.v < |c.disk.versions|)
    && (forall w :: w in c.writers && c.writers[w].pc.Insert? ==> c.writers[w].pc.t < |c.mem.tables|)
    && (forall r :: r in s.readers ==> ReaderInRange(s, s.readers[r].pc))
  }

  predicate ReaderInRange(s: State, pc: ReaderPc) {
    match pc
    case SearchActive(t) => t < |s.core.mem.tables|
    case SearchImmutable(t) => t < |s.core.mem.tables|
    case LoadRefs(v) => v < |s.core.disk.versions|
    case CasRefs(v, _) => v < |s.core.disk.versions|
    case SearchFile(v, left) => v < |s.core.disk.versions| && left <= |s.core.disk.versions[v].Files()|
    case Release(v, _) => v < |s.core.disk.versions|
    case _ => true
  }

  // --------------------------------------------------- one step of a thread

  /** MemTable.Put on an unfrozen table; the size estimate grows only when the key is new. */
  function Store(m: Mem, t: nat, k: Bytes, v: Bytes): Mem
    requires t < |m.tables| == |m.sizes|
  {
    m.(tables := m.tables[t := m.tables[t][k := v]],
       sizes := if k in m.tables[t] then m.sizes else m.sizes[t := m.sizes[t] + |k| + |v|])
  }

  function PutStep(c: Core, w: nat): Core
    requires w in c.writers
    requires |c.mem.tables| == |c.mem.sizes| == |c.mem.frozen|
    requires c.writers[w].pc.Insert? ==> c.writers[w].pc.t < |c.mem.tables|
  {
    var Writer(k, v, pc) := c.writers[w];
    match pc
    case AppendWal => c.(wal := c.wal + [(k, v)], writers := c.writers[w := Writer(k, v, LoadTable)])
    case LoadTable => c.(writers := c.writers[w := Writer(k, v, Insert(c.mem.active))])
    case Insert(t) =>
      if c.mem.frozen[t] then c.(writers := c.writers[w := Writer(k, v, LoadTable)])
      else
        c.(mem := Store(c.mem, t, k, v),
           writers := c.writers[w := Writer(k, v, Written)])
    case Written => c
  }

  /** A fresh MemTable becomes the active one. */
  function NewTable(m: Mem): Mem {
    m.(tables := m.tables + [map[]], sizes := m.sizes + [0], frozen := m.frozen + [false], active := |m.tables|)
  }

  function RotationStep(c: Core): Core
    requires c.mu.Rotating?
    requires |c.mem.tables| == |c.mem.sizes| == |c.mem.frozen|
    requires !c.mu.rot.LoadActive? ==> c.mu.rot.t < |c.mem.tables|
    requires c.mem.active < |c.mem.tables|
  {
    match c.mu.rot
    case LoadActive =>
      if c.mem.sizes[c.mem.active] < c.flushThreshold then c.(mu := Free)
          else c.(mu := Rotating(CheckRoom(c.mem.active)))
    case CheckRoom(t) =>
      if c.mem.immutable.Some? then c.(mu := Free) else c.(mu := Rotating(FreezeTable(t)))
    case FreezeTable(t) => c.(mem := c.mem.(frozen := c.mem.frozen[t := true]), mu := Rotating(StoreImmutable(t)))
    case StoreImmutable(t) => c.(mem := c.mem.(immutable := Some(t)), mu := Rotating(StoreActive(t)))
    case StoreActive(t) =>
      c.(mem := NewTable(c.mem), mu := Rotating(Send(t)))
    case Send(t) => c.(queue := c.queue + [t], mu := Free)
  }

  function CloseStep(c: Core): Core
    requires |c.mem.tables| == |c.mem.sizes|
    requires c.closing.WaitRoom? || c.closing.SleepUnlocked? || c.closing.SendFinal? ==> c.closing.t < |c.mem.tables|
  {
    match c.closing
    case WaitRoom(t) =>
      if c.mem.sizes[t] == 0 then c.(mu := Free, closing := SignalStop)
      else if c.mem.immutable.Some? then c.(mu := Free, closing := SleepUnlocked(t))
      else c.(mem := c.mem.(immutable := Some(t)), closing := SendFinal(t))
    case SleepUnlocked(t) => c.(mu := Closer, closing := WaitRoom(t))
    case SendFinal(t) => c.(queue := c.queue + [t], mu := Free, closing := SignalStop)
    case SignalStop => c.(stopped := true, closing := Join)
    case Join => c.(closing := Closed)
    case NotClosing | Closed => c
  }

  function AddFile(d: Disk, data: Contents, span: Span): Disk {
    d.(files := d.files + [data], spans := d.spans + [span])
  }

  /** currentVersion.Store of a new Version. */
  function AddVersion(d: Disk, m: Manifest): Disk {
    d.(versions := d.versions + [m], current := |d.versions|)
  }

  function BatchSpan(spans: seq<Span>, batch: seq<nat>): Span
    requires forall i :: 0 <= i < |batch| ==> batch[i] < |spans|
  {
    if batch == [] then Span(0, 0) else Span(spans[batch[0]].lo, spans[batch[|batch| - 1]].hi)
  }

  /** FlushMemTable(table t): a new file with exactly the table's contents. */
  function WriteL0(c: Core, t: nat): Core
    requires t < |c.mem.tables|
  {
    c.(disk := AddFile(c.disk, c.mem.tables[t], Span(t, t + 1)), flushed := c.flushed + [t])
  }

  /** CompactL0toL1(batch): a new file with the newest entry of every non-empty key. */
  function WriteL1(c: Core, batch: seq<nat>): Core
    requires |c.disk.spans| == |c.disk.files|
    requires forall i :: 0 <= i < |batch| ==> batch[i] < |c.disk.files|
  {
    c.(disk := AddFile(c.disk, CompactedFile(c.disk.files, batch), BatchSpan(c.disk.spans, batch)))
  }

  function PublishL0(c: Core, t: nat, f: nat, base: nat): Core
    requires base < |c.disk.versions|
  {
    var m := c.disk.versions[base].(l0 := c.disk.versions[base].l0 + [f]);
    c.(disk := AddVersion(c.disk, m), worker := ClearImmutable(t, |m.l0|))
  }

  function PublishL1(c: Core, batch: seq<nat>, f: nat, base: nat): Core
    requires base < |c.disk.versions|
  {
    var m := Manifest(Remaining(c.disk.versions[base].l0, batch), c.disk.versions[base].l1 + [f]);
    c.(disk := AddVersion(c.disk, m), worker := Idle)
  }

  function WorkerCore(c: Core): Core
    requires |c.disk.spans| == |c.disk.files| && c.disk.current < |c.disk.versions|
    requires c.worker == Idle ==> c.queue != []
    requires c.worker.Flush? ==> c.worker.t < |c.mem.tables|
    requires c.worker == Drain && c.queue != [] ==> c.queue[0] < |c.mem.tables|
    requires c.worker.Publish? || c.worker.CompactPublish? ==> c.worker.base < |c.disk.versions|
    requires c.worker.CompactWrite? ==>
               && c.worker.v < |c.disk.versions|
               && forall i :: 0 <= i < |c.disk.versions[c.worker.v].l0| ==>
                   c.disk.versions[c.worker.v].l0[i] < |c.disk.files|
  {
    match c.worker
    case Idle => c.(queue := c.queue[1..], worker := Flush(c.queue[0]))
    case Flush(t) => WriteL0(c, t).(worker := LoadOld(t, |c.disk.files|))
    case LoadOld(t, f) => c.(worker := Publish(t, f, c.disk.current))
    case Publish(t, f, base) => PublishL0(c, t, f, base)
    case ClearImmutable(t, n) => c.(mem := c.mem.(immutable := None), worker := CompactionCheck(n))
    case CompactionCheck(n) => c.(worker := if n >= c.compactionThreshold then CompactLoad else Idle)
    case CompactLoad =>
      c.(worker := if |c.disk.versions[c.disk.current].l0| < c.compactionThreshold then Idle
          else CompactWrite(c.disk.current))
    case CompactWrite(v) =>
      var batch := c.disk.versions[v].l0;
      WriteL1(c, batch).(worker := CompactReload(batch, |c.disk.files|))
    case CompactReload(batch, f) => c.(worker := CompactPublish(batch, f, c.disk.current))
    case CompactPublish(batch, f, base) => PublishL1(c, batch, f, base)
    case Drain =>
      if c.queue == [] then c.(worker := Exited)
      else WriteL0(c, c.queue[0]).(queue := c.queue[1..])
    case Exited => c
  }

  /** A published Version starts with Refs == 0; a compaction also starts the purge of its input files. */
  function WorkerStep(s: State): State
    requires InRange(s)
    requires s.core.worker == Idle ==> s.core.queue != []
  {
    var c := s.core;
    assert c.worker.CompactWrite? ==>
        var m := c.disk.versions[c.worker.v];
        forall i :: 0 <= i < |m.l0| ==> m.l0[i] == m.Files()[|m.l1| + i];
    s.(core := WorkerCore(c),
       refs := if c.worker.Publish? || c.worker.CompactPublish? then s.refs + [0] else s.refs,
       purges := if c.worker.CompactPublish? then s.purges + [Purge(c.worker.base, c.worker.batch, false, 0)]
           else s.purges)
  }

  /** One statement of DB.Get that touches no reference count. */
  function Look(s: State, x: Reader): Reader
    requires WellFormed(s.core) && |s.refs| == |s.core.disk.versions| && ReaderInRange(s, x.pc)
  {
    var c := s.core;
    match x.pc
    case LoadActiveTable => Reader(x.key, SearchActive(c.mem.active), c.mem.active)
    case SearchActive(t) =>
      x.(pc := if x.key in c.mem.tables[t] then Returned(Answer(c.mem.tables[t][x.key])) else LoadImmutable)
    case LoadImmutable =>
      x.(pc := if c.mem.immutable.Some? then SearchImmutable(c.mem.immutable.value) else LoadVersion)
    case SearchImmutable(t) =>
      if x.key in c.mem.tables[t] then x.(pc := Returned(Answer(c.mem.tables[t][x.key])))
      else x.(pc := LoadVersion, floor := t)
    case LoadVersion => x.(pc := LoadRefs(c.disk.current))
    case LoadRefs(v) => x.(pc := if s.refs[v] < 0 then LoadVersion else CasRefs(v, s.refs[v]))
    case CasRefs(v, seen) =>
      x.(pc := if s.refs[v] == seen then SearchFile(v, |c.disk.versions[v].Files()|) else LoadRefs(v))
    case SearchFile(v, left) =>
      if left == 0 then x.(pc := Release(v, NotFound))
      else
        var f := c.disk.versions[v].Files()[left - 1];
        x.(pc := if f in s.unlinked then Release(v, ReadError)
                 else if x.key in c.disk.files[f] then Release(v, Answer(c.disk.files[f][x.key]))
                 else SearchFile(v, left - 1))
    case Release(_, res) => x.(pc := Returned(res))
    case Returned(_) => x
  }

  /** Acquire's successful CAS adds one to Refs, Release takes one away. */
  function Count(refs: seq<int>, pc: ReaderPc): seq<int> {
    match pc
    case CasRefs(v, seen) => if v < |refs| && refs[v] == seen then refs[v := seen + 1] else refs
    case Release(v, _) => if v < |refs| then refs[v := refs[v] - 1] else refs
    case _ => refs
  }

  function GetStep(s: State, r: nat): State
    requires WellFormed(s.core) && |s.refs| == |s.core.disk.versions|
    requires r in s.readers && ReaderInRange(s, s.readers[r].pc)
  {
    var x := s.readers[r];
    s.(refs := Count(s.refs, x.pc), readers := s.readers[r := Look(s, x)])
  }

  /** A stored value of length zero is a tombstone. */
  function Answer(val: Bytes): GetResult {
    if val == [] then NotFound else Found(val)
  }

  function PurgeStep(s: State, p: nat): State
    requires p < |s.purges|
    requires s.purges[p].marked ==> s.purges[p].removed < |s.purges[p].files|
    requires !s.purges[p].marked ==> s.purges[p].v < |s.refs|
  {
    var j := s.purges[p];
    if j.marked then
      s.(unlinked := s.unlinked + {j.files[j.removed]}, purges := s.purges[p := j.(removed := j.removed + 1)])
    else
      s.(refs := s.refs[j.v := -1], purges := s.purges[p := j.(marked := true)])
  }

  ghost function Apply(s: State, a: Action): State
    requires InRange(s) && Enabled(s, a)
  {
    var c := s.core;
    match a
    case BeginPut(w, k, v) => s.(core := c.(writers := c.writers[w := Writer(k, v, AppendWal)]))
    case StepPut(w) => s.(core := PutStep(c, w))
    case BeginRotation => s.(core := c.(mu := Rotating(LoadActive)))
    case StepRotation => s.(core := RotationStep(c))
    case BeginClose => s.(core := c.(mu := Closer, closing := WaitRoom(c.mem.active)))
    case StepClose => s.(core := CloseStep(c))
    case StepWorker => WorkerStep(s)
    case StopWorker => s.(core := c.(worker := Drain))
    case FailCompaction => s.(core := c.(worker := Idle))
    case BeginGet(r, k) => s.(readers := s.readers[r := Reader(k, LoadActiveTable, 0)])
    case StepGet(r) => GetStep(s, r)
    case StepPurge(p) => PurgeStep(s, p)
  }

  /** NewDB: the first MemTable holds what Recover replayed from the log; no file is known. */
  ghost predicate Init(s: State) {
    var c := s.core;
    && c.flushThreshold > 0 && c.compactionThreshold > 0
    && |c.mem.tables| == 1 && |c.mem.sizes| == 1 && c.mem.frozen == [false]
    && c.mem.tables[0] == Replay(c.wal)
    && c.mem.active == 0 && c.mem.immutable == None
    && c.disk.files == [] && c.disk.spans == []
    && c.disk.versions == [Manifest([], [])] && c.disk.current == 0
    && c.queue == [] && c.mu == Free && c.worker == Idle && c.closing == NotClosing && !c.stopped
    && c.flushed == [] && c.writers == map[]
    && s.refs == [0] && s.readers == map[] && s.purges == [] && s.unlinked == {}
  }

  /** acts[i] takes run[i] to run[i + 1]. */
  ghost predicate IsRun(run: seq<State>, acts: seq<Action>) {
    && |run| == |acts| + 1
    && Init(run[0])
    && forall i :: 0 <= i < |acts| ==> Steps(run[i], acts[i], run[i + 1])
  }

  ghost predicate Steps(s: State, a: Action, s': State) {
    InRange(s) && Enabled(s, a) && s' == Apply(s, a)
  }
}
