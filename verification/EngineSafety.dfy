/**
 What every step of the engine keeps (internal/engine/db.go:350-514).

 The MemTables form a log: only the active one changes, and at every moment the layers a reader
 searches hold exactly the newest entry of that log for every non-empty key.
 */
module EngineSafety {
  import opened Options
  import opened ByteStrings
  import opened Layers
  import opened Engine

  // ----------------------------------------------------- manifests as chains

  /**
   The files of `ids` were made from adjacent, ever newer stretches of MemTables, the first one starting at
   `from`.
   */
  ghost predicate Chain(spans: seq<Span>, from: nat, ids: seq<nat>) {
    && (forall i :: 0 <= i < |ids| ==> ids[i] < |spans| && spans[ids[i]].lo < spans[ids[i]].hi)
    && (ids != [] ==> spans[ids[0]].lo == from)
    && (forall i :: 0 < i < |ids| ==> spans[ids[i]].lo == spans[ids[i - 1]].hi)
  }

  /** The number of MemTables a manifest's files stand for. */
  ghost function Cover(spans: seq<Span>, from: nat, ids: seq<nat>): nat
    requires Chain(spans, from, ids)
  {
    if ids == [] then from else spans[ids[|ids| - 1]].hi
  }

  /** A file holds, for every non-empty key, the newest entry among the MemTables it was made from. */
  ghost predicate FileOk(tables: seq<Contents>, data: Contents, span: Span) {
    && span.lo < span.hi <= |tables|
    && forall k: Bytes :: k != [] ==> At(data, k) == Newest(tables[span.lo..span.hi], k)
  }

  ghost predicate FilesOk(tables: seq<Contents>, files: seq<Contents>, spans: seq<Span>) {
    && |spans| == |files|
    && forall f :: 0 <= f < |files| ==> FileOk(tables, files[f], spans[f])
  }

  lemma {:induction false} SearchIsNewest(tables: seq<Contents>, d: Disk, from: nat, ids: seq<nat>, k: Bytes)
    requires FilesOk(tables, d.files, d.spans) && Chain(d.spans, from, ids) && from <= |tables|
    requires k != []
    ensures from <= Cover(d.spans, from, ids) <= |tables|
    ensures SearchFiles(d.files, ids, k) == Newest(tables[from..Cover(d.spans, from, ids)], k)
  {
    if ids == [] {
      assert tables[from..from] == [];
    } else {
      var init, f := ids[..|ids| - 1], ids[|ids| - 1];
      assert FileOk(tables, d.files[f], d.spans[f]);
      SearchIsNewest(tables, d, from, init, k);
      var Span(lo, hi) := d.spans[f];
      assert lo == Cover(d.spans, from, init);
      assert At(d.files[f], k) == Newest(tables[lo..hi], k);
      hide FilesOk, Newest, FileOk;
      NewestConcat(tables[from..lo], tables[lo..hi], k);
      JoinSlices(tables, from, lo, hi);
    }
  }

  lemma {:induction false} MergedIsSearch(files: seq<Contents>, ids: seq<nat>, k: Bytes)
    requires forall i :: 0 <= i < |ids| ==> ids[i] < |files|
    ensures At(MergedFiles(files, ids), k) == SearchFiles(files, ids, k)
  {
    if ids != [] {
      MergedIsSearch(files, ids[..|ids| - 1], k);
    }
  }

  /** A chain's two parts are chains, and a part may be replaced by one file spanning it. */
  lemma ChainSplit(spans: seq<Span>, from: nat, a: seq<nat>, b: seq<nat>)
    requires Chain(spans, from, a + b)
    ensures Chain(spans, from, a)
    ensures Chain(spans, Cover(spans, from, a), b)
    ensures Cover(spans, Cover(spans, from, a), b) == Cover(spans, from, a + b)
  {
    assert forall i :: 0 <= i < |a| ==> (a + b)[i] == a[i];
    assert forall i :: 0 <= i < |b| ==> (a + b)[|a| + i] == b[i];
  }

  lemma ChainExtend(spans: seq<Span>, from: nat, a: seq<nat>, f: nat)
    requires Chain(spans, from, a)
    requires f < |spans| && spans[f].lo == Cover(spans, from, a) && spans[f].lo < spans[f].hi
    ensures Chain(spans, from, a + [f]) && Cover(spans, from, a + [f]) == spans[f].hi
  {
    assert forall i :: 0 <= i < |a| ==> (a + [f])[i] == a[i];
  }

  lemma ChainGrow(spans: seq<Span>, more: seq<Span>, from: nat, ids: seq<nat>)
    requires Chain(spans, from, ids)
    ensures Chain(spans + more, from, ids) && Cover(spans + more, from, ids) == Cover(spans, from, ids)
  {
  }

  // ------------------------------------------------------------- invariants

  ghost predicate TableInv(m: Mem) {
    && |m.tables| == |m.sizes| == |m.frozen|
    && m.active + 1 == |m.tables|
    && (forall t :: 0 <= t < m.active ==> m.frozen[t])
  }

  ghost predicate DiskInv(d: Disk) {
    && |d.spans| == |d.files|
    && d.current + 1 == |d.versions|
    && (forall v :: 0 <= v < |d.versions| ==> Chain(d.spans, 0, d.versions[v].Files()))
  }

  /** Until Close, a file is made from frozen tables only. */
  ghost predicate FileInv(tables: seq<Contents>, d: Disk, open: bool) {
    && FilesOk(tables, d.files, d.spans)
    && (open ==> forall f :: 0 <= f < |d.files| ==> d.spans[f].hi < |tables|)
  }

  /** The number of MemTables version v stands for. */
  ghost function Covers(d: Disk, v: nat): nat
    requires DiskInv(d) && v < |d.versions|
  {
    Cover(d.spans, 0, d.versions[v].Files())
  }

  ghost function Published(d: Disk): nat
    requires DiskInv(d)
  {
    Covers(d, d.current)
  }

  ghost predicate RotationInv(c: Core) {
    c.mu.Rotating? ==>
      && c.closing == NotClosing
      && var active, imm := c.mem.active, c.mem.immutable;
         match c.mu.rot
         case LoadActive => true
         case CheckRoom(t) => t == active
         case FreezeTable(t) => t == active && imm == None
         case StoreImmutable(t) => t == active && imm == None && t < |c.mem.frozen| && c.mem.frozen[t]
         case StoreActive(t) => t == active && imm == Some(t) && t < |c.mem.frozen| && c.mem.frozen[t]
         case Send(t) => t + 1 == active && imm == Some(t)
  }

  ghost predicate CloseInv(c: Core) {
    && (c.mu == Closer <==> c.closing.WaitRoom? || c.closing.SendFinal?)
    && (c.closing.WaitRoom? || c.closing.SleepUnlocked? || c.closing.SendFinal? ==> c.closing.t == c.mem.active)
    && (c.closing.SendFinal? ==> c.mem.immutable == Some(c.mem.active))
    && (c.stopped <==> c.closing == Join || c.closing == Closed)
    && (c.worker == Drain || c.worker == Exited ==> c.stopped)
    && (c.closing == Closed ==> c.worker == Exited)
    && (c.worker == Exited ==> c.queue == [])
  }

  /** Close is past its hand-off (or found nothing to hand off). */
  ghost predicate HandedOff(c: Core) {
    c.closing == SignalStop || c.closing == Join || c.closing == Closed
  }

  ghost predicate WriterInv(c: Core) {
    forall w :: w in c.writers ==>
      && (c.closing != NotClosing ==> c.writers[w].pc == Written)
      && (c.writers[w].pc.Insert? ==> c.writers[w].pc.t <= c.mem.active)
  }

  /** A table is stored in immutableMT but not yet in the queue. */
  ghost predicate BeforeSend(c: Core) {
    (c.mu.Rotating? && (c.mu.rot.StoreActive? || c.mu.rot.Send?)) || c.closing.SendFinal?
  }

  /** The table the worker took from the queue and has not yet cleared. */
  ghost function Holding(w: Worker): Option<nat> {
    match w
    case Flush(t) => Some(t)
    case LoadOld(t, _) => Some(t)
    case Publish(t, _, _) => Some(t)
    case ClearImmutable(t, _) => Some(t)
    case _ => None
  }

  /** Where the one table on its way to disk is; `published` tables are in the current version. */
  datatype Stage = Parked | Queued | Held | Drained

  ghost predicate InStage(c: Core, t: nat, published: nat, stage: Stage) {
    && (BeforeSend(c) <==> stage == Parked)
    && c.queue == (if stage == Queued then [t] else [])
    && Holding(c.worker) == (if stage == Held then Some(t) else None)
    && published == (if c.worker.ClearImmutable? then t + 1 else t)
    && |c.flushed| == (if stage == Drained || (stage == Held && !c.worker.Flush?) then t + 1 else t)
    && (stage == Drained ==> c.worker == Drain || c.worker == Exited)
  }

  /**
   At most one table is on its way to disk, it is the immutable one, and it is in exactly one place:
   stored but not sent, in the queue, with the worker, or drained at shutdown.
   */
  ghost predicate HandoffInv(c: Core, published: nat) {
    match c.mem.immutable
    case None =>
      && !BeforeSend(c) && c.queue == [] && Holding(c.worker) == None
      && |c.flushed| == published
      && (published == c.mem.active || (published == c.mem.active + 1 && HandedOff(c)))
    case Some(t) =>
      && (t + 1 == c.mem.active
          || (t == c.mem.active && ((c.mu.Rotating? && c.mu.rot.StoreActive?) || c.closing.SendFinal? || HandedOff(c))))
      && (InStage(c, t, published, Parked) || InStage(c, t, published, Queued)
          || InStage(c, t, published, Held) || InStage(c, t, published, Drained))
  }

  ghost predicate FlushedInv(flushed: seq<nat>) {
    forall i :: 0 <= i < |flushed| ==> flushed[i] == i
  }

  /** What Close still owes the final active table: nothing, or it is the immutable one, or it is written. */
  ghost predicate FinalInv(c: Core) {
    HandedOff(c) ==>
      || (c.mem.active < |c.mem.sizes| && c.mem.sizes[c.mem.active] == 0)
      || c.mem.immutable == Some(c.mem.active)
      || |c.flushed| == c.mem.active + 1
  }

  ghost predicate ControlInv(c: Core, published: nat) {
    && c.compactionThreshold > 0
    && TableInv(c.mem) && RotationInv(c) && CloseInv(c) && WriterInv(c)
    && HandoffInv(c, published) && FlushedInv(c.flushed) && FinalInv(c)
  }

  /** The file `f` stands for the whole, non-empty batch `batch`, the oldest L0 files of version b. */
  ghost predicate MergeOf(d: Disk, b: nat, batch: seq<nat>, f: nat) {
    && b < |d.versions| && batch != [] && batch <= d.versions[b].l0
    && f < |d.spans|
    && batch[0] < |d.spans| && batch[|batch| - 1] < |d.spans|
    && d.spans[f] == Span(d.spans[batch[0]].lo, d.spans[batch[|batch| - 1]].hi)
  }

  /** The batch is all of the current L0. */
  ghost predicate CompactionOf(d: Disk, batch: seq<nat>, f: nat) {
    MergeOf(d, d.current, batch, f) && batch == d.versions[d.current].l0
  }

  ghost predicate WorkerInv(w: Worker, d: Disk) {
    match w
    case LoadOld(t, f) => f < |d.spans| && d.spans[f] == Span(t, t + 1)
    case Publish(t, f, base) => f < |d.spans| && d.spans[f] == Span(t, t + 1) && base == d.current
    case CompactWrite(v) => v == d.current && v < |d.versions| && d.versions[v].l0 != []
    case CompactReload(batch, f) => CompactionOf(d, batch, f)
    case CompactPublish(batch, f, base) => CompactionOf(d, batch, f) && base == d.current
    case _ => true
  }

  ghost predicate CoreInv(c: Core) {
    && DiskInv(c.disk)
    && ControlInv(c, Published(c.disk))
    && WorkerInv(c.worker, c.disk)
    && FileInv(c.mem.tables, c.disk, c.closing == NotClosing)
  }

  // --------------------------------------------------------- the view lemma

  lemma CoreWellFormed(c: Core)
    requires CoreInv(c)
    ensures WellFormed(c)
  {
    forall v, i | 0 <= v < |c.disk.versions| && 0 <= i < |c.disk.versions[v].Files()|
      ensures c.disk.versions[v].Files()[i] < |c.disk.files|
    {
      assert Chain(c.disk.spans, 0, c.disk.versions[v].Files());
    }
  }

  /** A version answers, for every non-empty key, what the newest of the MemTables it covers holds. */
  lemma VersionIsPrefix(c: Core, v: nat, k: Bytes)
    requires CoreInv(c) && v < |c.disk.versions| && k != []
    ensures WellFormed(c)
    ensures Covers(c.disk, v) <= |c.mem.tables|
    ensures SearchFiles(c.disk.files, c.disk.versions[v].Files(), k) == Newest(c.mem.tables[..Covers(c.disk, v)], k)
  {
    CoreWellFormed(c);
    SearchIsNewest(c.mem.tables, c.disk, 0, c.disk.versions[v].Files(), k);
  }

  /** No layer is missing below the active table: the immutable table fills the gap to the published files. */
  lemma NoGap(c: Core, published: nat)
    requires ControlInv(c, published)
    ensures c.mem.active + 1 == |c.mem.tables|
    ensures c.mem.immutable == None ==> c.mem.active <= published <= c.mem.active + 1
    ensures c.mem.immutable.Some? ==>
              && c.mem.active <= c.mem.immutable.value + 1 <= c.mem.active + 1
              && c.mem.immutable.value <= published <= c.mem.immutable.value + 1
  {
  }

  lemma {:induction false} StackedLayers(tables: seq<Contents>, imm: Option<nat>, published: nat, k: Bytes)
    requires |tables| > 0 && published <= |tables|
    requires imm == None ==> |tables| <= published + 1
    requires imm.Some? ==> imm.value < |tables| <= imm.value + 2 && imm.value <= published
    ensures Newest(tables, k) ==
            if k in tables[|tables| - 1] then Some(tables[|tables| - 1][k])
            else if imm.Some? && k in tables[imm.value] then Some(tables[imm.value][k])
            else Newest(tables[..published], k)
  {
    var n := |tables|;
    assert tables[..n] == tables;
    if n > 1 {
      assert tables[..n - 1][..n - 2] == tables[..n - 2];
    }
  }

  /** The three places a reader looks hold together the newest entry of the whole log of MemTables. */
  lemma ViewIsNewest(c: Core, k: Bytes)
    requires CoreInv(c) && k != []
    ensures WellFormed(c) && Stored(c, k) == Newest(c.mem.tables, k)
  {
    VersionIsPrefix(c, c.disk.current, k);
    NoGap(c, Published(c.disk));
    hide CoreInv;
    StackedLayers(c.mem.tables, c.mem.immutable, Published(c.disk), k);
  }

  // ------------------------------------------------ what each thread keeps

  lemma InitKeeps(s: State)
    requires Init(s)
    ensures CoreInv(s.core)
  {
  }

  /** The newest table may change and tables may be added without touching a file made from older ones. */
  lemma FilesKeep(tables: seq<Contents>, tables': seq<Contents>, d: Disk)
    requires FileInv(tables, d, true) && |tables| <= |tables'|
    requires forall t :: 0 <= t < |tables| - 1 ==> tables'[t] == tables[t]
    ensures FileInv(tables', d, true)
  {
    forall f | 0 <= f < |d.files| ensures FileOk(tables', d.files[f], d.spans[f]) {
      assert FileOk(tables, d.files[f], d.spans[f]);
      var Span(lo, hi) := d.spans[f];
      assert tables'[lo..hi] == tables[lo..hi];
    }
  }

  /** The hand-off looks at neither the writers, the log, nor the contents of tables. */
  lemma HandoffFrame(c: Core, c': Core, p: nat)
    requires HandoffInv(c, p) && RotationInv(c) && CloseInv(c)
    requires c' == c.(mem := c'.mem, writers := c'.writers, wal := c'.wal)
    requires c'.mem.active == c.mem.active && c'.mem.immutable == c.mem.immutable && c'.mem.frozen == c.mem.frozen
    ensures HandoffInv(c', p) && RotationInv(c') && CloseInv(c')
  {
    if c.mem.immutable.Some? {
      var t := c.mem.immutable.value;
      forall stage | InStage(c, t, p, stage) ensures InStage(c', t, p, stage) {
      }
    }
  }

  lemma PutControl(c: Core, p: nat, w: nat)
    requires ControlInv(c, p) && w in c.writers && c.writers[w].pc != Written
    ensures |c.mem.tables| == |c.mem.sizes| == |c.mem.frozen|
    ensures c.writers[w].pc.Insert? ==> c.writers[w].pc.t < |c.mem.tables|
    ensures ControlInv(PutStep(c, w), p)
  {
    HandoffFrame(c, PutStep(c, w), p);
  }

  lemma RotationControl(c: Core, p: nat)
    requires ControlInv(c, p) && c.mu.Rotating? && (c.mu.rot.Send? ==> |c.queue| < 1)
    ensures !c.mu.rot.LoadActive? ==> c.mu.rot.t < |c.mem.tables|
    ensures |c.mem.tables| == |c.mem.sizes| == |c.mem.frozen| && c.mem.active < |c.mem.tables|
        && c.closing == NotClosing
    ensures ControlInv(RotationStep(c), p)
  {
    if c.mu.rot.StoreImmutable? || c.mu.rot.StoreActive? || c.mu.rot.Send? {
      RotationStores(c, p);
    }
  }

  lemma RotationStores(c: Core, p: nat)
    requires ControlInv(c, p) && c.mu.Rotating? && (c.mu.rot.Send? ==> |c.queue| < 1)
    requires c.mu.rot.StoreImmutable? || c.mu.rot.StoreActive? || c.mu.rot.Send?
    ensures c.mu.rot.t < |c.mem.tables|
    ensures ControlInv(RotationStep(c), p)
  {
    match c.mu.rot
    case StoreImmutable(t) => assert InStage(RotationStep(c), t, p, Parked);
    case StoreActive(t) => assert InStage(RotationStep(c), t, p, Parked);
    case Send(t) => assert InStage(RotationStep(c), t, p, Queued);
  }

  lemma CloseControl(c: Core, p: nat)
    requires ControlInv(c, p)
    requires c.closing.SleepUnlocked? ==> c.mu == Free
    requires c.closing.SendFinal? ==> |c.queue| < 1
    requires c.closing == Join ==> c.worker == Exited
    requires c.closing != NotClosing && c.closing != Closed
    ensures ControlInv(CloseStep(c), p)
  {
  }

  /** The tables and files the worker is about to touch exist. */
  ghost predicate WorkerReady(c: Core) {
    && |c.disk.spans| == |c.disk.files| && c.disk.current < |c.disk.versions|
    && (c.worker.Flush? ==> c.worker.t < |c.mem.tables|)
    && (c.worker == Drain && c.queue != [] ==> c.queue[0] < |c.mem.tables|)
    && (c.worker.Publish? || c.worker.CompactPublish? ==> c.worker.base < |c.disk.versions|)
    && (c.worker.CompactWrite? ==>
         && c.worker.v < |c.disk.versions|
         && forall i :: 0 <= i < |c.disk.versions[c.worker.v].l0| ==>
             c.disk.versions[c.worker.v].l0[i] < |c.disk.files|)
  }

  lemma WorkerIsReady(c: Core, p: nat)
    requires ControlInv(c, p) && DiskInv(c.disk) && WorkerInv(c.worker, c.disk)
    ensures WorkerReady(c)
  {
    if c.worker.CompactWrite? {
      var m := c.disk.versions[c.worker.v];
      assert Chain(c.disk.spans, 0, m.l1 + m.l0);
      ChainSplit(c.disk.spans, 0, m.l1, m.l0);
    }
  }

  ghost predicate Flushing(w: Worker) {
    w == Idle || Holding(w).Some?
  }

  lemma FlushControl(c: Core, p: nat)
    requires ControlInv(c, p) && WorkerReady(c) && Flushing(c.worker)
    requires c.worker == Idle ==> c.queue != []
    requires c.worker.ClearImmutable? ==> c.mu == Free
    ensures ControlInv(WorkerCore(c), if c.worker.Publish? then p + 1 else p)
  {
    if c.worker == Idle || c.worker.ClearImmutable? {
      HandControl(c, p);
    } else {
      FileControl(c, p);
    }
  }

  /** The worker takes a table off the queue, or is done with it. */
  lemma HandControl(c: Core, p: nat)
    requires ControlInv(c, p) && WorkerReady(c)
    requires (c.worker == Idle && c.queue != []) || (c.worker.ClearImmutable? && c.mu == Free)
    ensures ControlInv(WorkerCore(c), p)
  {
    hide FlushedInv;
    if c.worker == Idle {
      assert InStage(WorkerCore(c), c.queue[0], p, Held);
    }
  }

  /** The worker writes and publishes the table in its hand. */
  lemma FileControl(c: Core, p: nat)
    requires ControlInv(c, p) && WorkerReady(c) && (c.worker.Flush? || c.worker.LoadOld? || c.worker.Publish?)
    ensures ControlInv(WorkerCore(c), if c.worker.Publish? then p + 1 else p)
  {
    var c' := WorkerCore(c);
    match c.worker
    case Publish(t, _, _) => assert InStage(c', t, p + 1, Held);
    case Flush(t) => assert InStage(c', t, p, Held);
    case LoadOld(t, _) => assert InStage(c', t, p, Held);
  }

  /** Neither in a flush nor at shutdown. */
  ghost predicate Unladen(w: Worker) {
    Holding(w) == None && w != Drain && w != Exited
  }

  /** The tables' hand-off looks neither at the disk nor at a worker without a table. */
  lemma UnladenControl(c: Core, c': Core, p: nat)
    requires ControlInv(c, p) && Unladen(c.worker) && Unladen(c'.worker)
    requires c' == c.(disk := c'.disk, worker := c'.worker)
    ensures ControlInv(c', p)
  {
    hide TableInv, FlushedInv;
    if c.mem.immutable.Some? {
      UnladenStages(c, c', c.mem.immutable.value, p);
    }
  }

  lemma UnladenStages(c: Core, c': Core, t: nat, p: nat)
    requires Unladen(c.worker) && Unladen(c'.worker) && c' == c.(disk := c'.disk, worker := c'.worker)
    ensures forall stage :: InStage(c, t, p, stage) ==> InStage(c', t, p, stage)
  {
  }

  /** A compaction's statements touch disk and worker only. */
  lemma CompactionMoves(c: Core)
    requires WorkerReady(c) && Unladen(c.worker) && c.worker != Idle
    ensures var c' := WorkerCore(c);
            Unladen(c'.worker) && c' == c.(disk := c'.disk, worker := c'.worker)
  {
    hide CompactedFile, BatchSpan, Remaining;
  }

  lemma CompactionControl(c: Core, p: nat)
    requires ControlInv(c, p) && WorkerReady(c) && Unladen(c.worker) && c.worker != Idle
    ensures ControlInv(WorkerCore(c), p)
  {
    hide ControlInv, WorkerCore;
    CompactionMoves(c);
    UnladenControl(c, WorkerCore(c), p);
  }

  lemma DrainControl(c: Core, p: nat)
    requires ControlInv(c, p) && WorkerReady(c) && c.worker == Drain
    ensures ControlInv(WorkerCore(c), p)
  {
    if c.queue != [] {
      assert InStage(WorkerCore(c), c.queue[0], p, Drained);
    }
  }

  lemma StopControl(c: Core, p: nat, w: Worker)
    requires ControlInv(c, p)
    requires (c.worker == Idle && c.stopped && w == Drain) || (c.worker.CompactWrite? && w == Idle)
    ensures ControlInv(c.(worker := w), p)
  {
  }

  // ------------------------------------------------------- files and manifests

  /** Files and versions are only ever added, and what a version stands for never changes. */
  ghost predicate DiskGrows(d: Disk, d': Disk)
    requires DiskInv(d)
  {
    && DiskInv(d')
    && d.files <= d'.files && d.versions <= d'.versions
    && forall v :: 0 <= v < |d.versions| ==> Covers(d', v) == Covers(d, v)
  }

  lemma AddFileKeeps(tables: seq<Contents>, d: Disk, data: Contents, span: Span, open: bool)
    requires FileInv(tables, d, open) && DiskInv(d)
    requires span.lo < span.hi <= |tables| && (open ==> span.hi < |tables|)
    requires forall k: Bytes :: k != [] ==> At(data, k) == Newest(tables[span.lo..span.hi], k)
    ensures DiskGrows(d, AddFile(d, data, span)) && FileInv(tables, AddFile(d, data, span), open)
    ensures Published(AddFile(d, data, span)) == Published(d)
  {
    var d' := AddFile(d, data, span);
    forall v | 0 <= v < |d.versions|
      ensures Chain(d'.spans, 0, d.versions[v].Files())
      ensures Cover(d'.spans, 0, d.versions[v].Files()) == Covers(d, v)
    {
      ChainGrow(d.spans, [span], 0, d.versions[v].Files());
    }
    forall f | 0 <= f < |d'.files|
      ensures FileOk(tables, d'.files[f], d'.spans[f]) && (open ==> d'.spans[f].hi < |tables|)
    {
      if f < |d.files| {
        assert FileOk(tables, d.files[f], d.spans[f]);
      }
    }
  }

  lemma AddVersionKeeps(d: Disk, m: Manifest)
    requires DiskInv(d) && Chain(d.spans, 0, m.Files())
    ensures DiskGrows(d, AddVersion(d, m)) && Published(AddVersion(d, m)) == Cover(d.spans, 0, m.Files())
  {
    var d' := AddVersion(d, m);
    forall v | 0 <= v < |d'.versions| ensures Chain(d'.spans, 0, d'.versions[v].Files()) {
      if v < |d.versions| {
        assert d'.versions[v] == d.versions[v];
      }
    }
  }

  /** A disk that only grew, with right files, and `published` tables in the current version. */
  ghost predicate DiskStep(c: Core, d: Disk, published: nat)
    requires DiskInv(c.disk)
  {
    DiskGrows(c.disk, d) && FileInv(c.mem.tables, d, c.closing == NotClosing) && Published(d) == published
  }

  lemma PublishL0Keeps(c: Core, t: nat, f: nat)
    requires CoreInv(c) && f < |c.disk.spans| && c.disk.spans[f] == Span(t, t + 1) && Published(c.disk) == t
    ensures DiskStep(c, PublishL0(c, t, f, c.disk.current).disk, t + 1)
  {
    hide CoreInv, FilesOk, DiskInv, Cover;
    CoreParts(c);
    CurrentChain(c.disk);
    var m := c.disk.versions[c.disk.current];
    assert m.(l0 := m.l0 + [f]).Files() == m.Files() + [f];
    hide Chain, Manifest.Files;
    ChainExtend(c.disk.spans, 0, m.Files(), f);
    AddVersionKeeps(c.disk, m.(l0 := m.l0 + [f]));
  }

  lemma CurrentChain(d: Disk)
    requires DiskInv(d)
    ensures d.current + 1 == |d.versions| && |d.spans| == |d.files|
    ensures Chain(d.spans, 0, d.versions[d.current].Files())
    ensures Published(d) == Cover(d.spans, 0, d.versions[d.current].Files())
  {
    hide Chain, Cover, Manifest.Files;
  }

  lemma {:induction false} NothingRemains(l0: seq<nat>, batch: seq<nat>)
    requires forall f :: f in l0 ==> f in batch
    ensures Remaining(l0, batch) == []
  {
    if l0 != [] {
      NothingRemains(l0[1..], batch);
    }
  }

  lemma {:induction false} AllRemain(l0: seq<nat>, batch: seq<nat>)
    requires forall f :: f in l0 ==> f !in batch
    ensures Remaining(l0, batch) == l0
  {
    if l0 != [] {
      AllRemain(l0[1..], batch);
    }
  }

  lemma {:induction false} RemainingOfBoth(a: seq<nat>, b: seq<nat>, batch: seq<nat>)
    ensures Remaining(a + b, batch) == Remaining(a, batch) + Remaining(b, batch)
  {
    if a == [] {
      assert a + b == b;
    } else {
      assert (a + b)[1..] == a[1..] + b;
      RemainingOfBoth(a[1..], b, batch);
    }
  }

  /** The files of a chain are strictly ordered by age, so they are distinct. */
  lemma {:induction false} ChainOrder(spans: seq<Span>, from: nat, ids: seq<nat>, i: nat, j: nat)
    requires Chain(spans, from, ids) && i < j < |ids|
    ensures spans[ids[i]].hi <= spans[ids[j]].lo && ids[i] != ids[j]
  {
    if i + 1 < j {
      ChainOrder(spans, from, ids, i, j - 1);
    }
  }

  /** Of a chain, the files behind the batch remain. */
  lemma TailRemains(spans: seq<Span>, from: nat, batch: seq<nat>, rest: seq<nat>)
    requires Chain(spans, from, batch + rest)
    ensures Remaining(batch + rest, batch) == rest
  {
    forall f | f in rest ensures f !in batch {
      var j :| 0 <= j < |rest| && rest[j] == f;
      forall i | 0 <= i < |batch| ensures batch[i] != f {
        ChainOrder(spans, from, batch + rest, i, |batch| + j);
      }
    }
    RemainingOfBoth(batch, rest, batch);
    NothingRemains(batch, batch);
    AllRemain(rest, batch);
  }

  lemma {:induction false} ChainJoin(spans: seq<Span>, from: nat, a: seq<nat>, b: seq<nat>)
    requires Chain(spans, from, a) && Chain(spans, Cover(spans, from, a), b)
    ensures Chain(spans, from, a + b) && Cover(spans, from, a + b) == Cover(spans, Cover(spans, from, a), b)
  {
    if b == [] {
      assert a + b == a;
    } else {
      var init, f := b[..|b| - 1], b[|b| - 1];
      ChainJoin(spans, from, a, init);
      assert a + b == (a + init) + [f];
      ChainExtend(spans, from, a + init, f);
    }
  }

  /** The manifest that a compaction makes from version b stands for the same MemTables as b. */
  lemma MergedManifest(d: Disk, b: nat, batch: seq<nat>, f: nat)
    requires DiskInv(d) && MergeOf(d, b, batch, f)
    ensures var m := d.versions[b];
            var m' := Manifest(Remaining(m.l0, batch), m.l1 + [f]);
            && m'.l0 == m.l0[|batch|..]
            && Chain(d.spans, 0, m'.Files()) && Cover(d.spans, 0, m'.Files()) == Covers(d, b)
  {
    var m := d.versions[b];
    var rest := m.l0[|batch|..];
    assert m.l0 == batch + rest;
    ChainSplit(d.spans, 0, m.l1, m.l0);
    var from := Cover(d.spans, 0, m.l1);
    TailRemains(d.spans, from, batch, rest);
    ChainSplit(d.spans, from, batch, rest);
    BatchOrder(d.spans, from, batch);
    ChainExtend(d.spans, 0, m.l1, f);
    ChainJoin(d.spans, 0, m.l1 + [f], rest);
  }

  lemma PublishMergeKeeps(c: Core, batch: seq<nat>, f: nat)
    requires CoreInv(c) && MergeOf(c.disk, c.disk.current, batch, f)
    ensures DiskStep(c, PublishL1(c, batch, f, c.disk.current).disk, Published(c.disk))
  {
    MergedManifest(c.disk, c.disk.current, batch, f);
    var m := c.disk.versions[c.disk.current];
    AddVersionKeeps(c.disk, Manifest(Remaining(m.l0, batch), m.l1 + [f]));
  }

  /** The compacted file stands for the whole batch. */
  lemma BatchKeeps(tables: seq<Contents>, d: Disk, b: nat, batch: seq<nat>, open: bool)
    requires FileInv(tables, d, open) && DiskInv(d) && b < |d.versions| && batch == d.versions[b].l0 && batch != []
    ensures forall i :: 0 <= i < |batch| ==> batch[i] < |d.files|
    ensures var span := BatchSpan(d.spans, batch);
            && span.lo < span.hi <= |tables| && (open ==> span.hi < |tables|)
            && forall k: Bytes :: k != [] ==>
                 At(CompactedFile(d.files, batch), k) == Newest(tables[span.lo..span.hi], k)
  {
    var v := d.versions[b];
    ChainSplit(d.spans, 0, v.l1, v.l0);
    var from := Cover(d.spans, 0, v.l1);
    var last := batch[|batch| - 1];
    assert FileOk(tables, d.files[batch[0]], d.spans[batch[0]]) && FileOk(tables, d.files[last], d.spans[last]);
    BatchOrder(d.spans, from, batch);
    var span := BatchSpan(d.spans, batch);
    forall k: Bytes | k != []
      ensures At(CompactedFile(d.files, batch), k) == Newest(tables[span.lo..span.hi], k)
    {
      SearchIsNewest(tables, d, from, batch, k);
      MergedIsSearch(d.files, batch, k);
    }
  }

  lemma {:induction false} BatchOrder(spans: seq<Span>, from: nat, batch: seq<nat>)
    requires Chain(spans, from, batch) && batch != []
    ensures from < Cover(spans, from, batch)
  {
    if |batch| > 1 {
      BatchOrder(spans, from, batch[..|batch| - 1]);
    }
  }

  ghost predicate WorkerMayStep(c: Core) {
    && (c.worker == Idle ==> c.queue != [])
    && (c.worker.ClearImmutable? ==> c.mu == Free)
    && c.worker != Exited
  }

  lemma SameDisk(c: Core)
    requires CoreInv(c)
    ensures DiskStep(c, c.disk, Published(c.disk))
  {
  }

  lemma WriteL0Keeps(c: Core, t: nat)
    requires CoreInv(c) && t < |c.mem.tables| && (c.closing == NotClosing ==> t < c.mem.active)
    ensures DiskStep(c, WriteL0(c, t).disk, Published(c.disk))
  {
    assert c.mem.tables[t..t + 1] == [c.mem.tables[t]];
    AddFileKeeps(c.mem.tables, c.disk, c.mem.tables[t], Span(t, t + 1), c.closing == NotClosing);
  }

  lemma WriteL1Keeps(c: Core, b: nat, batch: seq<nat>)
    requires CoreInv(c) && b < |c.disk.versions| && batch == c.disk.versions[b].l0 && batch != []
    ensures forall i :: 0 <= i < |batch| ==> batch[i] < |c.disk.files|
    ensures DiskStep(c, WriteL1(c, batch).disk, Published(c.disk))
  {
    BatchKeeps(c.mem.tables, c.disk, b, batch, c.closing == NotClosing);
    AddFileKeeps(c.mem.tables, c.disk, CompactedFile(c.disk.files, batch), BatchSpan(c.disk.spans, batch),
        c.closing == NotClosing);
  }

  /** What the worker is about to write or publish. */
  lemma WorkerAims(c: Core, p: nat)
    requires ControlInv(c, p)
    ensures c.worker.Flush? ==> c.worker.t < |c.mem.tables| && (c.closing == NotClosing ==> c.worker.t < c.mem.active)
    ensures c.worker == Drain && c.queue != [] ==>
              c.queue[0] < |c.mem.tables| && (c.closing == NotClosing ==> c.queue[0] < c.mem.active)
    ensures c.worker.Publish? ==> p == c.worker.t
  {
    hide FinalInv, FlushedInv, WriterInv;
  }

  /** A worker step keeps files and manifests right, and publishes at most the table in its hand. */
  lemma WorkerDisk(c: Core)
    requires CoreInv(c) && WorkerMayStep(c)
    ensures WorkerReady(c)
    ensures DiskStep(c, WorkerCore(c).disk, if c.worker.Publish? then Published(c.disk) + 1 else Published(c.disk))
  {
    hide CoreInv, ControlInv, DiskInv, DiskStep, FileInv, Published;
    CoreParts(c);
    WorkerIsReady(c, Published(c.disk));
    WorkerAims(c, Published(c.disk));
    if c.worker.Flush? {
      WriteL0Keeps(c, c.worker.t);
    } else if c.worker == Drain && c.queue != [] {
      WriteL0Keeps(c, c.queue[0]);
    } else if c.worker.Publish? {
      PublishL0Keeps(c, c.worker.t, c.worker.f);
    } else if c.worker.CompactWrite? {
      WriteL1Keeps(c, c.worker.v, c.disk.versions[c.worker.v].l0);
    } else if c.worker.CompactPublish? {
      PublishMergeKeeps(c, c.worker.batch, c.worker.f);
    } else {
      SameDisk(c);
    }
  }

  lemma WorkerProgram(c: Core)
    requires WorkerReady(c) && WorkerInv(c.worker, c.disk) && WorkerMayStep(c) && c.compactionThreshold > 0
    ensures WorkerInv(WorkerCore(c).worker, WorkerCore(c).disk)
  {
    match c.worker
    case CompactWrite(v) => CompactWriteProgram(c.disk, c.disk.versions[v].l0);
    case _ =>
  }

  lemma CompactWriteProgram(d: Disk, batch: seq<nat>)
    requires |d.spans| == |d.files| && d.current < |d.versions| && batch == d.versions[d.current].l0 && batch != []
    requires forall i :: 0 <= i < |batch| ==> batch[i] < |d.files|
    ensures CompactionOf(AddFile(d, CompactedFile(d.files, batch), BatchSpan(d.spans, batch)), batch, |d.files|)
  {
  }

  // ----------------------------------------------------------- every step

  /** What one step of any thread does to the core. */
  ghost predicate CoreStep(c: Core, c': Core)
    requires CoreInv(c)
  {
    && CoreInv(c')
    && DiskGrows(c.disk, c'.disk)
    && Published(c.disk) <= Published(c'.disk)
  }

  lemma SameDiskStep(c: Core, c': Core)
    requires CoreInv(c) && c'.disk == c.disk && c'.worker == c.worker
    requires ControlInv(c', Published(c.disk)) && FileInv(c'.mem.tables, c.disk, c'.closing == NotClosing)
    ensures CoreStep(c, c')
  {
    hide ControlInv, FileInv, WorkerInv;
  }

  lemma CoreParts(c: Core)
    requires CoreInv(c)
    ensures DiskInv(c.disk) && ControlInv(c, Published(c.disk)) && WorkerInv(c.worker, c.disk)
    ensures FileInv(c.mem.tables, c.disk, c.closing == NotClosing)
  {
    hide DiskInv, ControlInv, WorkerInv, FileInv;
  }

  lemma PutStepKeeps(c: Core, w: nat)
    requires CoreInv(c) && w in c.writers && c.writers[w].pc != Written
    ensures c.writers[w].pc.Insert? ==> c.writers[w].pc.t < |c.mem.tables|
    ensures CoreStep(c, PutStep(c, w))
  {
    hide CoreInv, ControlInv, FileInv, DiskInv, CoreStep, WorkerInv;
    CoreParts(c);
    PutControl(c, Published(c.disk), w);
    if c.writers[w].pc.Insert? {
      InsertIsActive(c, w);
      FilesKeep(c.mem.tables, PutStep(c, w).mem.tables, c.disk);
    }
    SameDiskStep(c, PutStep(c, w));
  }

  /** A table that is not frozen is the active one, and Close has not begun. */
  lemma InsertIsActive(c: Core, w: nat)
    requires CoreInv(c) && w in c.writers && c.writers[w].pc.Insert?
    ensures c.closing == NotClosing && c.writers[w].pc.t <= c.mem.active
        && c.mem.active + 1 == |c.mem.tables| == |c.mem.sizes| == |c.mem.frozen|
    ensures !c.mem.frozen[c.writers[w].pc.t] ==> c.writers[w].pc.t == c.mem.active
  {
  }

  lemma RotationTables(c: Core)
    requires c.mu.Rotating? && |c.mem.tables| == |c.mem.sizes| == |c.mem.frozen| && c.mem.active < |c.mem.tables|
    requires !c.mu.rot.LoadActive? ==> c.mu.rot.t < |c.mem.tables|
    ensures RotationStep(c).mem.tables == c.mem.tables || RotationStep(c).mem.tables == c.mem.tables + [map[]]
    ensures RotationStep(c).disk == c.disk && RotationStep(c).worker == c.worker && RotationStep(c).closing == c.closing
  {
  }

  lemma RotationStepKeeps(c: Core)
    requires CoreInv(c) && c.mu.Rotating? && (c.mu.rot.Send? ==> |c.queue| < 1)
    ensures !c.mu.rot.LoadActive? ==> c.mu.rot.t < |c.mem.tables|
    ensures CoreStep(c, RotationStep(c))
  {
    hide CoreInv, ControlInv, FileInv, DiskInv, CoreStep, WorkerInv, RotationStep;
    CoreParts(c);
    RotationControl(c, Published(c.disk));
    RotationTables(c);
    FilesKeep(c.mem.tables, RotationStep(c).mem.tables, c.disk);
    SameDiskStep(c, RotationStep(c));
  }

  lemma CloseStepKeeps(c: Core)
    requires CoreInv(c)
    requires c.closing.SleepUnlocked? ==> c.mu == Free
    requires c.closing.SendFinal? ==> |c.queue| < 1
    requires c.closing == Join ==> c.worker == Exited
    requires c.closing != NotClosing && c.closing != Closed
    ensures CoreStep(c, CloseStep(c))
  {
    CloseControl(c, Published(c.disk));
    SameDiskStep(c, CloseStep(c));
  }

  lemma GrowsParts(c: Core, d: Disk, published: nat)
    requires DiskInv(c.disk) && DiskStep(c, d, published)
    ensures DiskGrows(c.disk, d) && DiskInv(d) && Published(d) == published
    ensures FileInv(c.mem.tables, d, c.closing == NotClosing)
  {
    hide FileInv, DiskInv;
  }

  lemma WorkerFrame(c: Core)
    requires WorkerReady(c) && WorkerMayStep(c)
    ensures WorkerCore(c).mem.tables == c.mem.tables && WorkerCore(c).closing == c.closing
    ensures WorkerCore(c).compactionThreshold == c.compactionThreshold
  {
    hide CompactedFile, BatchSpan, Remaining;
  }

  lemma Threshold(c: Core, p: nat)
    requires ControlInv(c, p)
    ensures c.compactionThreshold > 0
  {
    hide TableInv, RotationInv, CloseInv, WriterInv, HandoffInv, FinalInv, FlushedInv;
  }

  lemma WorkerControl(c: Core, p: nat)
    requires ControlInv(c, p) && WorkerReady(c) && WorkerMayStep(c)
    ensures ControlInv(WorkerCore(c), if c.worker.Publish? then p + 1 else p)
  {
    hide ControlInv, WorkerCore;
    if Flushing(c.worker) {
      FlushControl(c, p);
    } else if c.worker == Drain {
      DrainControl(c, p);
    } else {
      CompactionControl(c, p);
    }
  }

  lemma WorkerStepKeeps(c: Core)
    requires CoreInv(c) && WorkerMayStep(c)
    ensures WorkerReady(c) && CoreStep(c, WorkerCore(c))
  {
    hide ControlInv, DiskInv, WorkerInv, FileInv, DiskGrows, WorkerCore, Published;
    CoreParts(c);
    WorkerDisk(c);
    Threshold(c, Published(c.disk));
    WorkerProgram(c);
    WorkerControl(c, Published(c.disk));
    WorkerFrame(c);
    GrowsParts(c, WorkerCore(c).disk, if c.worker.Publish? then Published(c.disk) + 1 else Published(c.disk));
  }
}
