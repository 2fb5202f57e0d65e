/** When the engine freezes, flushes and compacts (internal/engine/db.go:350-514): never before it is due. */
module EngineDue {
  import opened Engine
  import opened EngineSafety
  import opened EngineVersions

  /** MemTable t exists and its size estimate is at least n. */
  ghost predicate Holds(m: Mem, t: nat, n: nat) {
    t < |m.sizes| && m.sizes[t] >= n
  }

  ghost predicate MemDue(m: Mem, flushThreshold: nat) {
    && |m.tables| == |m.sizes| == |m.frozen|
    && forall t :: 0 <= t < |m.frozen| && m.frozen[t] ==> m.sizes[t] >= flushThreshold
  }

  ghost predicate RotationDue(m: Mem, mu: Mutex, flushThreshold: nat) {
    mu.Rotating? && !mu.rot.LoadActive? ==> Holds(m, mu.rot.t, flushThreshold)
  }

  /** The tables on their way to disk, and those written. */
  ghost predicate TablesDue(c: Core) {
    && (c.closing.SendFinal? ==> Holds(c.mem, c.closing.t, 1))
    && (forall i :: 0 <= i < |c.queue| ==> Holds(c.mem, c.queue[i], 1))
    && (c.worker.Flush? ==> Holds(c.mem, c.worker.t, 1))
    && (forall i :: 0 <= i < |c.flushed| ==> Holds(c.mem, c.flushed[i], 1))
  }

  ghost predicate CompactionDue(w: Worker, d: Disk, compactionThreshold: nat) {
    && (w.CompactWrite? ==> w.v < |d.versions| && |d.versions[w.v].l0| >= compactionThreshold)
    && (w.CompactReload? || w.CompactPublish? ==> |w.batch| >= compactionThreshold)
  }

  ghost predicate PurgesDue(purges: seq<Purge>, compactionThreshold: nat) {
    forall p :: 0 <= p < |purges| ==> |purges[p].files| >= compactionThreshold
  }

  /** The parts of the invariant that speak of MemTables. */
  ghost predicate CoreDue(c: Core) {
    && c.flushThreshold > 0
    && MemDue(c.mem, c.flushThreshold) && RotationDue(c.mem, c.mu, c.flushThreshold) && TablesDue(c)
  }

  ghost predicate DueInv(s: State) {
    var c := s.core;
    && CoreDue(c) && CompactionDue(c.worker, c.disk, c.compactionThreshold)
        && PurgesDue(s.purges, c.compactionThreshold)
  }

  lemma PutDue(c: Core, w: nat)
    requires w in c.writers && CoreDue(c)
    requires c.writers[w].pc.Insert? ==> c.writers[w].pc.t < |c.mem.tables|
    ensures |c.mem.tables| == |c.mem.sizes| == |c.mem.frozen|
    ensures var c' := PutStep(c, w);
            && CoreDue(c') && c' == c.(mem := c'.mem, wal := c'.wal, writers := c'.writers)
  {
    if c.writers[w].pc.Insert? {
      var m := Store(c.mem, c.writers[w].pc.t, c.writers[w].key, c.writers[w].val);
      assert |m.sizes| == |c.mem.sizes| && forall t :: 0 <= t < |m.sizes| ==> m.sizes[t] >= c.mem.sizes[t];
      hide Store, CoreDue;
      BiggerDue(c, PutStep(c, w).mem, PutStep(c, w));
    } else {
      hide MemDue, RotationDue, TablesDue;
      OthersKeepTables(c, PutStep(c, w));
    }
  }

  /** The writers and the log do not matter. */
  lemma OthersKeepTables(c: Core, c': Core)
    requires TablesDue(c) && c' == c.(wal := c'.wal, writers := c'.writers)
    ensures TablesDue(c')
  {
  }

  /** MemTables of the same number, frozen as before, whose sizes have not shrunk. */
  lemma BiggerDue(c: Core, m: Mem, c': Core)
    requires CoreDue(c) && c' == c.(mem := m, wal := c'.wal, writers := c'.writers)
    requires m.frozen == c.mem.frozen && |m.tables| == |c.mem.tables| && |m.sizes| == |c.mem.sizes|
    requires forall t :: 0 <= t < |m.sizes| ==> m.sizes[t] >= c.mem.sizes[t]
    ensures CoreDue(c')
  {
  }

  lemma RotationStepDue(c: Core)
    requires c.mu.Rotating? && c.mem.active < |c.mem.tables| && CoreDue(c)
    ensures |c.mem.tables| == |c.mem.sizes| == |c.mem.frozen|
    ensures !c.mu.rot.LoadActive? ==> c.mu.rot.t < |c.mem.tables|
    ensures CoreDue(RotationStep(c))
    ensures RotationStep(c) == c.(mem := RotationStep(c).mem, mu := RotationStep(c).mu, queue := RotationStep(c).queue)
  {
    match c.mu.rot {
      case FreezeTable(t) => FreezeDue(c, t);
      case StoreActive(t) => StoreActiveDue(c, t);
      case _ => hide MemDue;
    }
  }

  lemma FreezeDue(c: Core, t: nat)
    requires c.mu == Rotating(FreezeTable(t)) && c.mem.active < |c.mem.tables| && CoreDue(c)
    ensures |c.mem.tables| == |c.mem.sizes| == |c.mem.frozen| && t < |c.mem.tables|
    ensures CoreDue(RotationStep(c))
  {
    hide TablesDue;
    SameTablesDue(c, RotationStep(c));
  }

  lemma StoreActiveDue(c: Core, t: nat)
    requires c.mu == Rotating(StoreActive(t)) && c.mem.active < |c.mem.tables| && CoreDue(c)
    ensures |c.mem.tables| == |c.mem.sizes| == |c.mem.frozen| && t < |c.mem.tables|
    ensures CoreDue(RotationStep(c))
  {
    hide TablesDue;
    SameTablesDue(c, RotationStep(c));
  }

  /** The tables' sizes only grow, and nothing else moves. */
  lemma SameTablesDue(c: Core, c': Core)
    requires TablesDue(c) && c' == c.(mem := c'.mem, mu := c'.mu)
    requires c.mem.sizes <= c'.mem.sizes
    ensures TablesDue(c')
  {
  }

  lemma CloseStepDue(c: Core)
    requires CoreDue(c)
    requires c.closing.WaitRoom? || c.closing.SleepUnlocked? || c.closing.SendFinal? ==> c.closing.t < |c.mem.tables|
    ensures var c' := CloseStep(c);
            && CoreDue(c') && c' == c.(mem := c'.mem, mu := c'.mu, queue := c'.queue, closing := c'.closing,
                stopped := c'.stopped)
  {
  }

  lemma WorkerDue(c: Core)
    requires WorkerReady(c) && (c.worker == Idle ==> c.queue != [])
    requires CoreDue(c) && CompactionDue(c.worker, c.disk, c.compactionThreshold)
    ensures var c' := WorkerCore(c);
            && c'.compactionThreshold == c.compactionThreshold && CoreDue(c')
            && CompactionDue(c'.worker, c'.disk, c'.compactionThreshold)
  {
    WorkerTablesDue(c);
    WorkerBatchDue(c);
    hide CoreDue, WorkerCore, CompactionDue;
  }

  lemma WorkerTablesDue(c: Core)
    requires WorkerReady(c) && (c.worker == Idle ==> c.queue != []) && CoreDue(c)
    ensures CoreDue(WorkerCore(c))
  {
    hide CompactedFile, BatchSpan, Remaining, AddVersion;
  }

  lemma WorkerBatchDue(c: Core)
    requires WorkerReady(c) && (c.worker == Idle ==> c.queue != [])
    requires CompactionDue(c.worker, c.disk, c.compactionThreshold)
    ensures var c' := WorkerCore(c);
            c'.compactionThreshold == c.compactionThreshold && CompactionDue(c'.worker, c'.disk, c'.compactionThreshold)
  {
    hide CompactedFile, BatchSpan, Remaining;
  }

  lemma WorkerStepDue(s: State)
    requires InRange(s) && WorkerReady(s.core) && Enabled(s, StepWorker) && DueInv(s)
    ensures DueInv(WorkerStep(s))
  {
    WorkerDue(s.core);
    hide InRange, WorkerCore, MemDue, RotationDue, TablesDue;
  }

  lemma PurgeStepDue(s: State, p: nat)
    requires Enabled(s, StepPurge(p)) && DueInv(s)
    requires !s.purges[p].marked ==> s.purges[p].v < |s.refs|
    ensures DueInv(PurgeStep(s, p))
  {
    hide MemDue, RotationDue, TablesDue, CompactionDue;
  }

  lemma StepDue(s: State, a: Action)
    requires Inv(s) && InRange(s) && Enabled(s, a) && DueInv(s)
    ensures DueInv(Apply(s, a))
  {
    hide Inv, InRange, MemDue, RotationDue, CompactionDue, PurgesDue, PutStep, RotationStep, CloseStep, WorkerStep,
        PurgeStep, GetStep, WorkerReady;
    StepRanges(s);
    match a {
      case StepPut(w) => PutDue(s.core, w);
      case StepRotation => RotationStepDue(s.core);
      case StepClose => CloseStepDue(s.core);
      case StepWorker => WorkerStepDue(s);
      case StepPurge(p) => PurgeStepDue(s, p);
      case StepGet(r) => GetDue(s, r);
      case BeginRotation => OthersDue(s, a);
      case BeginClose => OthersDue(s, a);
      case _ => OthersDue(s, a);
    }
  }

  lemma OthersDue(s: State, a: Action)
    requires InRange(s) && Enabled(s, a) && DueInv(s)
    requires !a.StepPut? && !a.StepRotation? && !a.StepClose? && !a.StepWorker? && !a.StepPurge? && !a.StepGet?
    ensures DueInv(Apply(s, a))
  {
    hide InRange, MemDue, PurgesDue;
  }

  lemma GetDue(s: State, r: nat)
    requires InRange(s) && Enabled(s, StepGet(r)) && DueInv(s)
    ensures DueInv(Apply(s, StepGet(r)))
  {
    hide InRange, MemDue, RotationDue, TablesDue, CompactionDue, PurgesDue, Look, Count;
  }

  lemma StepRanges(s: State)
    requires Inv(s)
    ensures WorkerReady(s.core) && s.core.mem.active < |s.core.mem.tables|
    ensures forall w :: w in s.core.writers && s.core.writers[w].pc.Insert? ==>
        s.core.writers[w].pc.t < |s.core.mem.tables|
    ensures s.core.closing.WaitRoom? || s.core.closing.SleepUnlocked? || s.core.closing.SendFinal? ==>
              s.core.closing.t < |s.core.mem.tables|
    ensures forall p :: 0 <= p < |s.purges| ==> s.purges[p].v < |s.refs|
  {
    forall p | 0 <= p < |s.purges| ensures s.purges[p].v < |s.refs| {
      assert PurgeOk(s.core.disk, s.refs, s.purges[p]);
    }
    InvCore(s);
    hide Inv, CoreInv, ControlInv, FileInv;
    CoreParts(s.core);
    ControlRanges(s.core, Published(s.core.disk));
    WorkerIsReady(s.core, Published(s.core.disk));
    ActiveExists(s.core, Published(s.core.disk));
  }

  lemma ActiveExists(c: Core, p: nat)
    requires ControlInv(c, p)
    ensures c.mem.active < |c.mem.tables|
  {
    hide RotationInv, CloseInv, WriterInv, HandoffInv, FinalInv, FlushedInv;
  }

  lemma {:induction false} DueRun(run: seq<State>, acts: seq<Action>, i: nat)
    requires IsRun(run, acts) && i < |run|
    ensures DueInv(run[i])
  {
    hide IsRun, DueInv, Inv, InRange, Enabled, Apply, Init;
    RunParts(run, acts, 0);
    if i == 0 {
      InitDue(run[0]);
    } else {
      DueRun(run, acts, i - 1);
      RunParts(run, acts, i - 1);
      RunInv(run, acts, i - 1);
      StepDue(run[i - 1], acts[i - 1]);
    }
  }

  lemma InitDue(s: State)
    requires Init(s)
    ensures DueInv(s)
  {
  }

  /**
   In every state of every run: a frozen table has grown to the flush threshold, a table handed to FlushMemTable holds
   data, and a finished compaction took at least as many files as the compaction threshold asks for.
   */
  lemma BackgroundWorkIsDue(run: seq<State>, acts: seq<Action>, i: nat)
    requires IsRun(run, acts) && i < |run|
    ensures var s, m := run[i], run[i].core.mem;
            && |m.frozen| == |m.sizes|
            && (forall t :: 0 <= t < |m.frozen| && m.frozen[t] ==> m.sizes[t] >= s.core.flushThreshold)
            && (forall j :: 0 <= j < |s.core.flushed| ==>
                  s.core.flushed[j] < |m.sizes| && m.sizes[s.core.flushed[j]] > 0)
            && forall p :: 0 <= p < |s.purges| ==> |s.purges[p].files| >= s.core.compactionThreshold
  {
    DueRun(run, acts, i);
    hide IsRun;
  }
}
