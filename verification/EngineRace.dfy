/**
 The engine with a second compactor (internal/engine/db.go:134-137, 384-431).

 TriggerCompaction runs maybeCompact, the code the flush worker also runs, in the thread of its caller. compactionMu
 keeps two compactions apart, but nothing orders a compaction's load and store of currentVersion against those of a
 flush.
 */
module EngineRace {
  import opened Options
  import opened Layers
  import opened Engine
  import opened EngineSafety
  import opened EngineVersions
  import opened EngineLinear

  // ------------------------------------------------------------ the machine

  /** `out` is the next statement of the TriggerCompaction call in progress; Idle when there is none. */
  datatype Race = Race(s: State, out: Worker)

  /**
   A statement of the engine's own threads, or of TriggerCompaction: take compactionMu, go on, or give up on an
   error.
   */
  datatype Turn = Inside(a: Action) | Lock | Advance | GiveUp

  /** Between the load of the version to compact and the swap. */
  predicate Compacting(w: Worker) {
    w.CompactWrite? || w.CompactReload? || w.CompactPublish?
  }

  /** The state with the outside compactor at the place of the flush worker. */
  function Outside(r: Race): State {
    r.s.(core := r.s.core.(worker := r.out))
  }

  ghost predicate MayTurn(r: Race, t: Turn) {
    match t
    case Inside(a) => Enabled(r.s, a) && (a == StepWorker && r.s.core.worker == CompactLoad ==> r.out == Idle)
    case Lock => r.out == Idle && !Compacting(r.s.core.worker)
    case Advance => r.out != Idle
    case GiveUp => r.out.CompactWrite?
  }

  ghost predicate RaceInRange(r: Race) {
    InRange(r.s) && InRange(Outside(r))
  }

  ghost function Turned(r: Race, t: Turn): Race
    requires RaceInRange(r) && MayTurn(r, t)
  {
    match t
    case Inside(a) => Race(Apply(r.s, a), r.out)
    case Lock => Race(r.s, CompactLoad)
    case Advance =>
      var s' := WorkerStep(Outside(r));
      Race(s'.(core := s'.core.(worker := r.s.core.worker)), s'.core.worker)
    case GiveUp => Race(r.s, Idle)
  }

  ghost predicate Turns(r: Race, t: Turn, r': Race) {
    RaceInRange(r) && MayTurn(r, t) && r' == Turned(r, t)
  }

  /** turns[i] takes run[i] to run[i + 1]. */
  ghost predicate IsRace(run: seq<Race>, turns: seq<Turn>) {
    && |run| == |turns| + 1
    && Init(run[0].s) && run[0].out == Idle
    && forall i :: 0 <= i < |turns| ==> Turns(run[i], turns[i], run[i + 1])
  }

  /** The swap replaces another version than the one its manifest was made from. */
  ghost predicate Stale(r: Race, t: Turn) {
    var current := r.s.core.disk.current;
    || (t == Inside(StepWorker) && r.s.core.worker.Publish? && r.s.core.worker.base != current)
    || (t == Advance && r.out.CompactPublish? && r.out.base != current)
  }

  /** No swap among the first i turns was stale. */
  ghost predicate InTime(run: seq<Race>, turns: seq<Turn>, i: nat)
    requires i <= |turns| <= |run|
  {
    forall m :: 0 <= m < i ==> !Stale(run[m], turns[m])
  }

  // ------------------------------------------------------------- invariants

  /** A flush that had loaded the current version. */
  function Refreshed(s: State): State {
    match s.core.worker
    case Publish(t, f, _) => s.(core := s.core.(worker := Publish(t, f, s.core.disk.current)))
    case _ => s
  }

  /** Since version b only L0 files were added. */
  ghost predicate Grown(d: Disk, b: nat) {
    && b <= d.current < |d.versions|
    && d.versions[b].l1 == d.versions[d.current].l1 && d.versions[b].l0 <= d.versions[d.current].l0
  }

  ghost predicate OutInv(out: Worker, d: Disk) {
    match out
    case Idle => true
    case CompactLoad => true
    case CompactWrite(v) => Grown(d, v) && d.versions[v].l0 != []
    case CompactReload(batch, f) => MergeOf(d, d.current, batch, f)
    case CompactPublish(batch, f, base) => MergeOf(d, base, batch, f) && Grown(d, base)
    case _ => false
  }

  /** A purge was handed one of these files. */
  ghost predicate HandedOver(purges: seq<Purge>, ids: seq<nat>) {
    exists p, g :: 0 <= p < |purges| && g in ids && g in purges[p].files
  }

  /** A flush about to swap: compactions may have replaced its version by one that stands for the same MemTables. */
  ghost predicate FlushInv(w: Worker, d: Disk, purges: seq<Purge>)
    requires DiskInv(d)
  {
    w.Publish? ==>
      && w.base <= d.current && Covers(d, w.base) == Published(d)
      && (w.base < d.current ==> HandedOver(purges, d.versions[w.base].l0))
  }

  /** The two threads' unpublished files, their locks and versions. */
  ghost predicate OutPending(r: Race) {
    && PendingInv(r.out, r.s.core.disk, r.s.purges)
    && (Pending(r.out).Some? ==> Pending(r.out) != Pending(r.s.core.worker))
    && (r.out != Idle ==> !Compacting(r.s.core.worker))
  }

  ghost predicate RaceInv(r: Race) {
    && Inv(Refreshed(r.s))
    && DiskInv(r.s.core.disk)
    && OutInv(r.out, r.s.core.disk)
    && OutPending(r)
    && FlushInv(r.s.core.worker, r.s.core.disk, r.s.purges)
  }

  lemma InitRace(r: Race)
    requires Init(r.s) && r.out == Idle
    ensures RaceInv(r)
  {
    hide Inv, DiskInv;
    InitInv(r.s);
    InvDisk(r.s);
  }

  lemma InvDisk(s: State)
    requires Inv(s)
    ensures DiskInv(s.core.disk)
  {
    hide Inv, DiskInv, ControlInv, FileInv, WorkerInv;
    InvCore(s);
  }

  function WithWorker(c: Core, x: Worker): Core {
    c.(worker := x)
  }

  lemma WorkerRanges(s: State, x: Worker)
    requires InRange(s)
    requires x.Flush? ==> x.t < |s.core.mem.tables|
    requires x.Publish? || x.CompactPublish? ==> x.base < |s.core.disk.versions|
    requires x.CompactWrite? ==> x.v < |s.core.disk.versions|
    ensures InRange(s.(core := WithWorker(s.core, x)))
  {
    var s' := s.(core := WithWorker(s.core, x));
    forall r | r in s.readers ensures ReaderInRange(s', s.readers[r].pc) {
      assert ReaderInRange(s, s.readers[r].pc);
    }
  }

  lemma RaceRanges(r: Race)
    requires RaceInv(r)
    ensures RaceInRange(r) && InRange(Refreshed(r.s))
  {
    InvInRange(Refreshed(r.s));
    hide Inv, CoreInv, PendingInv, HandedOver, Covers, Published, InRange, DiskInv;
    WorkerRanges(Refreshed(r.s), r.s.core.worker);
    WorkerRanges(r.s, r.out);
  }

  // --------------------------------------------------------- the engine's turns

  ghost predicate SameWork(c: Core, c': Core) {
    c'.worker == c.worker && c'.disk == c.disk && c'.compactionThreshold == c.compactionThreshold
  }

  /** The tables a thread is about to touch exist. */
  ghost predicate TablesExist(c: Core) {
    && |c.mem.tables| == |c.mem.sizes| == |c.mem.frozen| && c.mem.active < |c.mem.tables|
    && (c.mu.Rotating? && !c.mu.rot.LoadActive? ==> c.mu.rot.t < |c.mem.tables|)
    && (c.closing.WaitRoom? || c.closing.SleepUnlocked? || c.closing.SendFinal? ==> c.closing.t < |c.mem.tables|)
    && (forall w :: w in c.writers && c.writers[w].pc.Insert? ==> c.writers[w].pc.t < |c.mem.tables|)
  }

  lemma InRangeTables(s: State)
    requires InRange(s)
    ensures TablesExist(s.core)
  {
    hide ReaderInRange;
  }

  lemma PutIgnoresWorker(c: Core, w: nat, x: Worker)
    requires TablesExist(c) && w in c.writers
    ensures PutStep(WithWorker(c, x), w) == WithWorker(PutStep(c, w), x)
    ensures SameWork(c, PutStep(c, w))
  {
    hide Store;
  }

  lemma RotationIgnoresWorker(c: Core, x: Worker)
    requires TablesExist(c) && c.mu.Rotating?
    ensures RotationStep(WithWorker(c, x)) == WithWorker(RotationStep(c), x)
    ensures SameWork(c, RotationStep(c))
  {
    hide NewTable;
    match c.mu.rot {
      case LoadActive =>
      case CheckRoom(_) =>
      case _ => RotationStoresIgnore(c, x);
    }
  }

  lemma RotationStoresIgnore(c: Core, x: Worker)
    requires c.mu.Rotating? && !c.mu.rot.LoadActive? && !c.mu.rot.CheckRoom?
    requires |c.mem.tables| == |c.mem.sizes| == |c.mem.frozen| && c.mem.active < |c.mem.tables|
    requires c.mu.rot.t < |c.mem.tables|
    ensures RotationStep(WithWorker(c, x)) == WithWorker(RotationStep(c), x)
    ensures SameWork(c, RotationStep(c))
  {
    hide NewTable;
  }

  lemma CloseIgnoresWorker(c: Core, x: Worker)
    requires TablesExist(c)
    ensures CloseStep(WithWorker(c, x)) == WithWorker(CloseStep(c), x)
    ensures SameWork(c, CloseStep(c))
  {
  }

  lemma LookIgnoresWorker(s: State, r: nat, x: Worker)
    requires InRange(s) && r in s.readers
    ensures WellFormed(WithWorker(s.core, x)) && ReaderInRange(s.(core := WithWorker(s.core, x)), s.readers[r].pc)
    ensures Look(s.(core := WithWorker(s.core, x)), s.readers[r]) == Look(s, s.readers[r])
  {
  }

  /** Threads other than the worker do not look at the version in its hand. */
  lemma OthersIgnoreBase(s: State, a: Action)
    requires InRange(s) && InRange(Refreshed(s)) && Enabled(s, a) && s.core.worker.Publish? && a != StepWorker
    ensures Enabled(Refreshed(s), a) && Refreshed(Apply(s, a)) == Apply(Refreshed(s), a)
  {
    hide InRange, WellFormed, Look, Count, PutStep, RotationStep, CloseStep, TablesExist;
    InRangeTables(s);
    match a {
      case StepPut(w) => PutIgnoresWorker(s.core, w, Refreshed(s).core.worker);
      case StepRotation => RotationIgnoresWorker(s.core, Refreshed(s).core.worker);
      case StepClose => CloseIgnoresWorker(s.core, Refreshed(s).core.worker);
      case StepGet(r) => LookIgnoresWorker(s, r, Refreshed(s).core.worker);
      case _ =>
    }
  }

  lemma InsideRefreshed(s: State, a: Action)
    requires Inv(Refreshed(s)) && InRange(s) && Enabled(s, a)
    requires a == StepWorker && s.core.worker.Publish? ==> s.core.worker.base == s.core.disk.current
    ensures InRange(Refreshed(s)) && Enabled(Refreshed(s), a) && Refreshed(Apply(s, a)) == Apply(Refreshed(s), a)
    ensures Inv(Refreshed(Apply(s, a))) && CoreStep(Refreshed(s).core, Refreshed(Apply(s, a)).core)
  {
    InvInRange(Refreshed(s));
    if Refreshed(s) == s {
      StepKeeps(s, a);
      WorkerHoldsCurrent(Apply(s, a).core);
    } else {
      OthersIgnoreBase(s, a);
      StepKeeps(Refreshed(s), a);
    }
    hide *;
  }

  /** A purge may unlink a file, but keeps its list. */
  ghost predicate SameLists(purges: seq<Purge>, purges': seq<Purge>) {
    |purges'| == |purges| && forall p :: 0 <= p < |purges| ==> purges'[p].files == purges[p].files
  }

  lemma OthersKeepDisk(s: State, a: Action)
    requires InRange(s) && Enabled(s, a) && a != StepWorker
    ensures var s' := Apply(s, a);
            && s'.core.disk == s.core.disk && SameLists(s.purges, s'.purges)
            && s'.core.compactionThreshold == s.core.compactionThreshold
            && (s'.core.worker == s.core.worker
                || (a == StopWorker && s.core.worker == Idle && s'.core.worker == Drain)
                || (a == FailCompaction && s.core.worker.CompactWrite? && s'.core.worker == Idle))
  {
    hide InRange, WellFormed, Look, Count, PutStep, RotationStep, CloseStep, TablesExist;
    InRangeTables(s);
    match a {
      case StepPut(w) => PutIgnoresWorker(s.core, w, Idle);
      case StepRotation => RotationIgnoresWorker(s.core, Idle);
      case StepClose => CloseIgnoresWorker(s.core, Idle);
      case _ =>
    }
  }

  /** What a worker outside its compaction does to the disk. */
  ghost predicate WorkerTurn(w: Worker, d: Disk, w': Worker, d': Disk) {
    || (d' == d && Pending(w') == Pending(w) && !w'.Publish? && (Compacting(w') ==> w == CompactLoad))
    || (d' == d && w.LoadOld? && w' == Publish(w.t, w.f, d.current))
    || (w.Publish? && w.base < |d.versions| && w'.ClearImmutable?
        && d' == AddVersion(d, d.versions[w.base].(l0 := d.versions[w.base].l0 + [w.f])))
    || ((w'.LoadOld? || w' == Drain) && Pending(w) == None && (w'.LoadOld? ==> w'.f == |d.files|)
        && exists data, span :: d' == AddFile(d, data, span))
  }

  lemma WorkerTurns(s: State)
    requires InRange(s) && Enabled(s, StepWorker) && !Compacting(s.core.worker)
    ensures WorkerTurn(s.core.worker, s.core.disk, WorkerStep(s).core.worker, WorkerStep(s).core.disk)
    ensures WorkerStep(s).purges == s.purges
  {
    var c, c' := s.core, WorkerStep(s).core;
    if c.worker.Flush? {
      assert c'.disk == AddFile(c.disk, c.mem.tables[c.worker.t], Span(c.worker.t, c.worker.t + 1));
    } else if c.worker == Drain && c.queue != [] {
      assert c'.disk == AddFile(c.disk, c.mem.tables[c.queue[0]], Span(c.queue[0], c.queue[0] + 1));
    }
    hide InRange, WellFormed;
  }

  lemma OutAddFile(out: Worker, d: Disk, data: Contents, span: Span)
    requires OutInv(out, d)
    ensures OutInv(out, AddFile(d, data, span))
  {
  }

  lemma OutAddVersion(out: Worker, d: Disk, m: Manifest)
    requires OutInv(out, d) && d.current + 1 == |d.versions|
    requires m.l1 == d.versions[d.current].l1 && d.versions[d.current].l0 <= m.l0
    ensures OutInv(out, AddVersion(d, m))
  {
  }

  /** What the worker does outside its compaction leaves the other compactor's knowledge true. */
  lemma WorkerTurnKeepsOut(out: Worker, purges: seq<Purge>, w: Worker, d: Disk, w': Worker, d': Disk)
    requires OutInv(out, d) && PendingInv(out, d, purges) && (Pending(out).Some? ==> Pending(out) != Pending(w))
    requires WorkerTurn(w, d, w', d') && w != CompactLoad && !Compacting(w)
    requires DiskInv(d) && (w.Publish? ==> w.base == d.current)
    ensures OutInv(out, d') && PendingInv(out, d', purges)
    ensures (Pending(out).Some? ==> Pending(out) != Pending(w')) && !Compacting(w')
  {
    hide Chain;
    if data, span :| d' == AddFile(d, data, span) && (w'.LoadOld? || w' == Drain) {
      OutAddFile(out, d, data, span);
    } else if w.Publish? && d' != d {
      OutAddVersion(out, d, d.versions[w.base].(l0 := d.versions[w.base].l0 + [w.f]));
      hide OutInv, MergeOf, Grown;
    }
  }

  lemma ListsKeepPending(out: Worker, d: Disk, purges: seq<Purge>, purges': seq<Purge>)
    requires PendingInv(out, d, purges) && SameLists(purges, purges')
    ensures PendingInv(out, d, purges')
  {
  }

  lemma ListsKeepHanded(purges: seq<Purge>, purges': seq<Purge>, ids: seq<nat>)
    requires HandedOver(purges, ids) && SameLists(purges, purges')
    ensures HandedOver(purges', ids)
  {
    var p, g :| 0 <= p < |purges| && g in ids && g in purges[p].files;
    assert g in purges'[p].files;
  }

  /** The race's own part of the invariant, for one step of the engine. */
  ghost predicate RaceRest(r: Race)
    requires DiskInv(r.s.core.disk)
  {
    OutInv(r.out, r.s.core.disk) && OutPending(r) && FlushInv(r.s.core.worker, r.s.core.disk, r.s.purges)
  }

  lemma OthersKeepRest(r: Race, a: Action)
    requires DiskInv(r.s.core.disk) && RaceRest(r)
    requires InRange(r.s) && Enabled(r.s, a) && a != StepWorker
    ensures DiskInv(Apply(r.s, a).core.disk) && RaceRest(Race(Apply(r.s, a), r.out))
  {
    hide Chain, InRange, Apply, Enabled, Covers, Published, OutInv, PendingInv, HandedOver;
    var s' := Apply(r.s, a);
    OthersKeepDisk(r.s, a);
    hide SameLists;
    ListsKeepPending(r.out, r.s.core.disk, r.s.purges, s'.purges);
    if r.s.core.worker.Publish? && r.s.core.worker.base < r.s.core.disk.current {
      ListsKeepHanded(r.s.purges, s'.purges, r.s.core.disk.versions[r.s.core.worker.base].l0);
    }
  }

  lemma WorkerKeepsRest(r: Race)
    requires DiskInv(r.s.core.disk) && RaceRest(r) && MayTurn(r, Inside(StepWorker)) && !Stale(r, Inside(StepWorker))
    requires InRange(r.s) && DiskInv(WorkerStep(r.s).core.disk)
    ensures RaceRest(Race(WorkerStep(r.s), r.out))
  {
    hide Chain, InRange, WorkerStep, HandedOver, Covers;
    var s, s' := r.s, WorkerStep(r.s);
    if r.out == Idle {
      WorkerToPublish(s);
    } else {
      WorkerTurns(s);
      WorkerToPublish(s);
      hide WorkerTurn, OutInv, PendingInv;
      WorkerTurnKeepsOut(r.out, s.purges, s.core.worker, s.core.disk, s'.core.worker, s'.core.disk);
    }
  }

  /** The worker comes to its swap with the current version. */
  lemma WorkerToPublish(s: State)
    requires InRange(s) && Enabled(s, StepWorker)
    ensures var s' := WorkerStep(s);
            s'.core.worker.Publish? ==> s'.core.worker.base == s'.core.disk.current
  {
    hide InRange, WellFormed;
  }

  lemma InsideKeeps(r: Race, a: Action)
    requires RaceInv(r) && MayTurn(r, Inside(a)) && !Stale(r, Inside(a))
    ensures RaceInRange(r) && RaceInv(Turned(r, Inside(a)))
  {
    RaceRanges(r);
    InsideRefreshed(r.s, a);
    var s' := Apply(r.s, a);
    hide Inv, InRange, Apply, Enabled, Covers, Published, OutInv, OutPending, FlushInv, CoreInv, DiskInv;
    if a == StepWorker {
      WorkerKeepsRest(r);
    } else {
      OthersKeepRest(r, a);
    }
  }

  // ----------------------------------------------- the outside compactor's turns

  /** The manifest a compaction makes from version b. */
  function MergedFrom(d: Disk, b: nat, batch: seq<nat>, f: nat): Manifest
    requires b < |d.versions|
  {
    Manifest(Remaining(d.versions[b].l0, batch), d.versions[b].l1 + [f])
  }

  /** The swap of a compaction outside the worker. */
  function Swap(s: State, batch: seq<nat>, f: nat, b: nat): State
    requires b < |s.core.disk.versions|
  {
    s.(core := s.core.(disk := AddVersion(s.core.disk, MergedFrom(s.core.disk, b, batch, f))),
       refs := s.refs + [0],
       purges := s.purges + [Purge(b, batch, false, 0)])
  }

  lemma BatchExists(d: Disk, v: nat)
    requires DiskInv(d) && v < |d.versions|
    ensures forall i :: 0 <= i < |d.versions[v].l0| ==> d.versions[v].l0[i] < |d.files|
  {
    ChainSplit(d.spans, 0, d.versions[v].l1, d.versions[v].l0);
  }

  /** maybeCompact outside the worker, statement by statement. */
  lemma AdvanceIs(r: Race)
    requires RaceInRange(r) && r.out != Idle && OutInv(r.out, r.s.core.disk) && DiskInv(r.s.core.disk)
    ensures var d, r' := r.s.core.disk, Turned(r, Advance);
            match r.out
            case CompactLoad =>
              r' == Race(r.s, if |d.versions[d.current].l0| < r.s.core.compactionThreshold then Idle
                  else CompactWrite(d.current))
            case CompactWrite(v) =>
              && (forall i :: 0 <= i < |d.versions[v].l0| ==> d.versions[v].l0[i] < |d.files|)
              && r' == Race(r.s.(core := WriteL1(r.s.core, d.versions[v].l0)),
                  CompactReload(d.versions[v].l0, |d.files|))
            case CompactReload(batch, f) => r' == Race(r.s, CompactPublish(batch, f, d.current))
            case CompactPublish(batch, f, b) => b < |d.versions| && r' == Race(Swap(r.s, batch, f, b), Idle)
            case _ => true
  {
    if r.out.CompactWrite? {
      BatchExists(r.s.core.disk, r.out.v);
    }
    hide InRange, WellFormed, Chain, CompactedFile, BatchSpan, Remaining;
  }

  /** A worker outside its compaction, up to the version a flush has loaded. */
  predicate SameButBase(w: Worker, w': Worker) {
    w' == w || (w.Publish? && w'.Publish? && w'.t == w.t && w'.f == w.f)
  }

  /** The tables' hand-off looks neither at the disk nor at the version a flush has loaded. */
  lemma ControlFrame(c: Core, c': Core, p: nat)
    requires ControlInv(c, p) && c' == c.(disk := c'.disk, worker := c'.worker) && SameButBase(c.worker, c'.worker)
    ensures ControlInv(c', p)
  {
    hide TableInv, FlushedInv;
    if c.mem.immutable.Some? {
      var t := c.mem.immutable.value;
      forall stage | InStage(c, t, p, stage) ensures InStage(c', t, p, stage) {
      }
    }
  }

  /** A disk that grew under a worker outside its compaction. */
  lemma CoreGrows(c: Core, c': Core)
    requires CoreInv(c) && c' == c.(disk := c'.disk, worker := c'.worker) && SameButBase(c.worker, c'.worker)
    requires DiskStep(c, c'.disk, Published(c.disk)) && c.disk.spans <= c'.disk.spans
    requires !Compacting(c'.worker) && (c'.worker.Publish? ==> c'.worker.base == c'.disk.current)
    ensures CoreInv(c')
  {
    hide ControlInv, FileInv, DiskInv, Published, DiskGrows;
    CoreParts(c);
    ControlFrame(c, c', Published(c.disk));
    GrowsParts(c, c'.disk, Published(c.disk));
  }

  /** A number no manifest and no purge knows, and no thread holds, for the next file. */
  lemma NextFileIsNew(s: State)
    requires Inv(s)
    ensures forall v :: 0 <= v < |s.core.disk.versions| ==> |s.core.disk.files| !in s.core.disk.versions[v].Files()
    ensures forall p :: 0 <= p < |s.purges| ==> |s.core.disk.files| !in s.purges[p].files
    ensures !Compacting(s.core.worker) ==> Pending(s.core.worker) != Some(|s.core.disk.files|)
  {
    ManifestRanges(s.core);
    forall p | 0 <= p < |s.purges| ensures |s.core.disk.files| !in s.purges[p].files {
      assert PurgeOk(s.core.disk, s.refs, s.purges[p]);
    }
  }

  /** The compactor writes its file beside whatever the worker does. */
  lemma WriteDisk(x: State, v: nat, batch: seq<nat>)
    requires Inv(x) && !Compacting(x.core.worker)
    requires v < |x.core.disk.versions| && batch == x.core.disk.versions[v].l0 && batch != []
    ensures forall i :: 0 <= i < |batch| ==> batch[i] < |x.core.disk.files|
    ensures |x.core.disk.spans| == |x.core.disk.files|
    ensures Inv(x.(core := WriteL1(x.core, batch))) && DiskInv(x.core.disk)
    ensures DiskGrows(x.core.disk, WriteL1(x.core, batch).disk) && DiskInv(WriteL1(x.core, batch).disk)
    ensures Published(WriteL1(x.core, batch).disk) == Published(x.core.disk)
  {
    WriteL1Keeps(x.core, v, batch);
    WorkerHoldsCurrent(x.core);
    var c' := WriteL1(x.core, batch);
    GrowsParts(x.core, c'.disk, Published(x.core.disk));
    hide CoreInv, CompactedFile, BatchSpan, DiskStep, DiskGrows, Published, Inv;
    CoreGrows(x.core, c');
    WorkerFileKeeps(x, c');
  }

  lemma WriteKeeps(r: Race, v: nat)
    requires RaceInv(r) && r.out == CompactWrite(v)
    ensures v < |r.s.core.disk.versions| && |r.s.core.disk.spans| == |r.s.core.disk.files|
    ensures var batch := r.s.core.disk.versions[v].l0;
            && (forall i :: 0 <= i < |batch| ==> batch[i] < |r.s.core.disk.files|)
            && RaceInv(Race(r.s.(core := WriteL1(r.s.core, batch)), CompactReload(batch, |r.s.core.disk.files|)))
  {
    hide Inv, CoreInv, Chain, Covers, HandedOver, Published, FlushInv, PendingInv, DiskGrows;
    var x, batch := Refreshed(r.s), r.s.core.disk.versions[v].l0;
    WriteDisk(x, v, batch);
    NextFileIsNew(x);
    WrittenBatch(r.s.core.disk, v, batch);
    FlushFrame(r.s.core.worker, r.s.core.disk, WriteL1(r.s.core, batch).disk, r.s.purges);
    NewIsPending(CompactReload(batch, |r.s.core.disk.files|), WriteL1(r.s.core, batch).disk, r.s.purges);
    hide DiskInv, OutInv, CompactedFile, BatchSpan;
    assert Refreshed(r.s.(core := WriteL1(r.s.core, batch))) == x.(core := WriteL1(x.core, batch));
  }

  lemma NewIsPending(out: Worker, d: Disk, purges: seq<Purge>)
    requires Pending(out).Some?
    requires forall v :: 0 <= v < |d.versions| ==> Pending(out).value !in d.versions[v].Files()
    requires forall p :: 0 <= p < |purges| ==> Pending(out).value !in purges[p].files
    ensures PendingInv(out, d, purges)
  {
  }

  lemma FlushFrame(w: Worker, d: Disk, d': Disk, purges: seq<Purge>)
    requires DiskInv(d) && FlushInv(w, d, purges) && DiskGrows(d, d')
    requires d'.versions == d.versions && d'.current == d.current
    ensures FlushInv(w, d', purges)
  {
    hide Covers, HandedOver;
  }

  /** What the compactor knows of the file it wrote. */
  lemma WrittenBatch(d: Disk, v: nat, batch: seq<nat>)
    requires DiskInv(d) && OutInv(CompactWrite(v), d) && batch == d.versions[v].l0
    requires forall i :: 0 <= i < |batch| ==> batch[i] < |d.files|
    ensures OutInv(CompactReload(batch, |d.files|), AddFile(d, CompactedFile(d.files, batch),
        BatchSpan(d.spans, batch)))
  {
    hide Chain, CompactedFile;
  }

  /** Reference counts and purges over a swap of the current version. */
  lemma SwapRefs(x: State, batch: seq<nat>, f: nat)
    requires Inv(x) && MergeOf(x.core.disk, x.core.disk.current, batch, f)
    requires PendingInv(CompactReload(batch, f), x.core.disk, x.purges)
    ensures var x' := Swap(x, batch, f, x.core.disk.current);
            RefsInv(x'.refs, x'.readers) && TraceInv(x'.refs, x'.purges, x'.unlinked)
                && PurgesInv(x'.core.disk, x'.refs, x'.purges) && ReadersInv(x') && |x'.refs| == |x'.core.disk.versions|
  {
    NewVersionRefs(x);
    NewPurge(x.core.disk, x.refs, x.purges, batch, f);
    NewPurgeTrace(x.refs + [0], x.purges, x.unlinked, Purge(x.core.disk.current, batch, false, 0));
    ReadersFrame(x, Swap(x, batch, f, x.core.disk.current));
    hide CoreInv, PurgesInv, TraceInv, RefsInv, ReadersInv, PendingInv;
  }

  lemma {:induction false} RemainingHas(l0: seq<nat>, batch: seq<nat>, f: nat)
    ensures f in Remaining(l0, batch) <==> f in l0 && f !in batch
  {
    if l0 != [] {
      RemainingHas(l0[1..], batch, f);
      assert l0 == [l0[0]] + l0[1..];
    }
  }

  lemma InManifest(m: Manifest, f: nat)
    ensures f in m.Files() <==> f in m.l0 || f in m.l1
  {
  }

  /** Which files the manifest of a compaction lists. */
  lemma MergedLists(d: Disk, b: nat, batch: seq<nat>, f: nat, g: nat)
    requires b < |d.versions| && batch <= d.versions[b].l0
    ensures g in MergedFrom(d, b, batch, f).Files() <==>
              g == f || g in d.versions[b].l1 || (g in d.versions[b].l0 && g !in batch)
    ensures g in batch ==> g in d.versions[b].Files()
  {
    RemainingHas(d.versions[b].l0, batch, g);
    InManifest(MergedFrom(d, b, batch, f), g);
    InManifest(d.versions[b], g);
    hide Manifest.Files, Remaining;
  }

  /** The worker's unpublished file over a swap of the current version. */
  lemma SwapPending(w: Worker, d: Disk, purges: seq<Purge>, batch: seq<nat>, f: nat)
    requires d.current < |d.versions| && batch <= d.versions[d.current].l0
    requires PendingInv(w, d, purges) && Pending(w) != Some(f)
    ensures PendingInv(w, AddVersion(d, MergedFrom(d, d.current, batch, f)),
        purges + [Purge(d.current, batch, false, 0)])
  {
    if Pending(w).Some? {
      MergedLists(d, d.current, batch, f, Pending(w).value);
      InManifest(d.versions[d.current], Pending(w).value);
      hide Manifest.Files, MergedFrom;
    }
  }

  /** The core over a swap of the current version. */
  lemma SwapCore(x: State, w: Worker, batch: seq<nat>, f: nat)
    requires Inv(x) && !Compacting(x.core.worker) && MergeOf(x.core.disk, x.core.disk.current, batch, f)
    requires SameButBase(x.core.worker, w)
    ensures DiskInv(x.core.disk)
    ensures var d' := Swap(x, batch, f, x.core.disk.current).core.disk;
            && DiskGrows(x.core.disk, d') && DiskInv(d') && Published(d') == Published(x.core.disk)
            && ((w.Publish? ==> w.base == d'.current) ==> CoreInv(x.core.(disk := d', worker := w)))
  {
    WorkerHoldsCurrent(x.core);
    PublishMergeKeeps(x.core, batch, f);
    var d' := Swap(x, batch, f, x.core.disk.current).core.disk;
    GrowsParts(x.core, d', Published(x.core.disk));
    hide CoreInv, DiskInv, Inv, DiskStep, DiskGrows, Published, MergeOf, Remaining;
    if w.Publish? ==> w.base == d'.current {
      CoreGrows(x.core, x.core.(disk := d', worker := w));
    }
  }

  /** A swap of the current version keeps the invariant, and a flush may have to go on with an old version. */
  lemma SwapDisk(s: State, batch: seq<nat>, f: nat)
    requires Inv(Refreshed(s)) && !Compacting(s.core.worker)
    requires MergeOf(s.core.disk, s.core.disk.current, batch, f)
    requires PendingInv(CompactReload(batch, f), s.core.disk, s.purges) && Pending(s.core.worker) != Some(f)
    ensures DiskInv(s.core.disk)
    ensures var s' := Swap(s, batch, f, s.core.disk.current);
            && Inv(Refreshed(s')) && DiskGrows(s.core.disk, s'.core.disk) && DiskInv(s'.core.disk)
            && Published(s'.core.disk) == Published(s.core.disk)
  {
    hide CoreInv, DiskInv, Inv, DiskGrows, Published, RefsInv, TraceInv, PurgesInv, PendingInv, MergedFrom, ReadersInv;
    var x, s' := Refreshed(s), Swap(s, batch, f, s.core.disk.current);
    InvPending(x);
    SwapRefs(x, batch, f);
    SwapPending(x.core.worker, x.core.disk, x.purges, batch, f);
    SwapCore(x, Refreshed(s').core.worker, batch, f);
    ReadersFrame(Swap(x, batch, f, s.core.disk.current), s');
    SwapInv(x, s');
  }

  lemma InvPending(s: State)
    requires Inv(s)
    ensures PendingInv(s.core.worker, s.core.disk, s.purges)
  {
    hide CoreInv, ReadersInv, RefsInv, PurgesInv, TraceInv, PendingInv;
  }

  lemma SwapInv(x: State, s': State)
    requires CoreInv(Refreshed(s').core) && |s'.refs| == |s'.core.disk.versions|
    requires RefsInv(s'.refs, s'.readers) && TraceInv(s'.refs, s'.purges, s'.unlinked)
    requires PurgesInv(s'.core.disk, s'.refs, s'.purges) && ReadersInv(s')
    requires PendingInv(x.core.worker, s'.core.disk, s'.purges) && Pending(x.core.worker) == Pending(s'.core.worker)
    ensures Inv(Refreshed(s'))
  {
    hide CoreInv, RefsInv, TraceInv, PurgesInv;
  }

  /** After a swap of the current version, a flush still stands for all tables before its own. */
  lemma SwapFlush(w: Worker, d: Disk, purges: seq<Purge>, batch: seq<nat>, d': Disk)
    requires DiskInv(d) && FlushInv(w, d, purges) && DiskGrows(d, d') && Published(d') == Published(d)
    requires d'.current == |d.versions| && batch != [] && batch <= d.versions[d.current].l0
    ensures FlushInv(w, d', purges + [Purge(d.current, batch, false, 0)])
  {
    if w.Publish? {
      var purges' := purges + [Purge(d.current, batch, false, 0)];
      if w.base == d.current {
        assert batch[0] in d.versions[w.base].l0 && batch[0] in purges'[|purges|].files;
      } else {
        var p, g :| 0 <= p < |purges| && g in d.versions[w.base].l0 && g in purges[p].files;
        assert g in purges'[p].files;
      }
      assert HandedOver(purges', d'.versions[w.base].l0);
    }
    hide Covers, HandedOver, Chain;
  }

  lemma SwapKeeps(r: Race, batch: seq<nat>, f: nat)
    requires RaceInv(r) && r.out == CompactPublish(batch, f, r.s.core.disk.current)
    ensures r.s.core.disk.current < |r.s.core.disk.versions|
    ensures RaceInv(Race(Swap(r.s, batch, f, r.s.core.disk.current), Idle))
  {
    hide CoreInv, DiskInv, Inv, DiskGrows, Published, FlushInv, MergedFrom, Covers;
    var d, s' := r.s.core.disk, Swap(r.s, batch, f, r.s.core.disk.current);
    SwapDisk(r.s, batch, f);
    CurrentIsLast(d);
    SwapFlush(r.s.core.worker, d, r.s.purges, batch, s'.core.disk);
  }

  lemma CurrentIsLast(d: Disk)
    requires DiskInv(d)
    ensures d.current + 1 == |d.versions| && |d.spans| == |d.files|
  {
  }

  /** What the two moves without a disk operation learn. */
  lemma LoadKeeps(r: Race)
    requires RaceInv(r) && r.out == CompactLoad
    ensures r.s.core.disk.current < |r.s.core.disk.versions|
    ensures r.s.core.disk.versions[r.s.core.disk.current].l0 != [] ==>
        RaceInv(Race(r.s, CompactWrite(r.s.core.disk.current)))
    ensures RaceInv(Race(r.s, Idle))
  {
    hide CoreInv, DiskInv, Inv, Published, FlushInv, Covers;
    CurrentIsLast(r.s.core.disk);
  }

  lemma ReloadKeeps(r: Race, batch: seq<nat>, f: nat)
    requires RaceInv(r) && r.out == CompactReload(batch, f)
    ensures RaceInv(Race(r.s, CompactPublish(batch, f, r.s.core.disk.current)))
  {
    hide CoreInv, DiskInv, Inv, Published, FlushInv, Covers;
    CurrentIsLast(r.s.core.disk);
  }

  lemma ThresholdPositive(r: Race)
    requires RaceInv(r)
    ensures r.s.core.compactionThreshold > 0
  {
    hide DiskInv, TableInv, RotationInv, CloseInv, WriterInv, HandoffInv, FinalInv, WorkerInv, FileInv;
  }

  lemma AdvanceKeeps(r: Race)
    requires RaceInv(r) && MayTurn(r, Advance) && !Stale(r, Advance)
    ensures RaceInRange(r) && RaceInv(Turned(r, Advance))
  {
    RaceRanges(r);
    AdvanceIs(r);
    ThresholdPositive(r);
    match r.out {
      case CompactLoad => LoadKeeps(r);
      case CompactWrite(v) => WriteKeeps(r, v);
      case CompactReload(batch, f) => ReloadKeeps(r, batch, f);
      case CompactPublish(batch, f, _) => SwapKeeps(r, batch, f);
      case _ =>
    }
    hide RaceInRange, Inv, DiskInv, OutPending, FlushInv, CoreInv, Turned, Swap;
  }

  /** Taking the lock and giving up. */
  lemma MoveKeeps(r: Race, out: Worker)
    requires RaceInv(r) && (out == Idle || (out == CompactLoad && !Compacting(r.s.core.worker)))
    ensures RaceInv(Race(r.s, out))
  {
    hide Inv, DiskInv, FlushInv;
  }

  /** A TriggerCompaction that gives up leaves the engine as it was, and another call can begin. */
  lemma GivingUpIsHarmless(run: seq<Race>, turns: seq<Turn>, i: nat)
    requires IsRace(run, turns) && i < |turns| && InTime(run, turns, i) && turns[i] == GiveUp
    ensures |run| == |turns| + 1 && run[i + 1].s == run[i].s && MayTurn(run[i + 1], Lock)
  {
    RaceRun(run, turns, i);
    RaceParts(run, turns, i);
    hide IsRace, InTime, Inv, DiskInv, FlushInv, PendingInv, RaceInRange;
  }

  /** Every turn that is no stale swap keeps the invariant. */
  lemma TurnKeeps(r: Race, t: Turn)
    requires RaceInv(r) && MayTurn(r, t) && !Stale(r, t)
    ensures RaceInRange(r) && RaceInv(Turned(r, t))
  {
    hide RaceInRange, Inv, DiskInv, FlushInv, CoreInv, Apply, Enabled, PendingInv;
    RaceRanges(r);
    match t {
      case Inside(a) => InsideKeeps(r, a);
      case Lock => MoveKeeps(r, CompactLoad);
      case Advance => AdvanceKeeps(r);
      case GiveUp => MoveKeeps(r, Idle);
    }
  }

  lemma RaceParts(run: seq<Race>, turns: seq<Turn>, i: nat)
    requires IsRace(run, turns) && i <= |turns|
    ensures |run| == |turns| + 1 && Init(run[0].s) && run[0].out == Idle
    ensures i < |turns| ==> RaceInRange(run[i]) && MayTurn(run[i], turns[i]) && run[i + 1] == Turned(run[i], turns[i])
  {
    assert i < |turns| ==> Turns(run[i], turns[i], run[i + 1]);
    hide RaceInRange, MayTurn, Turned, Init;
  }

  /** As long as no swap was stale, the invariant holds. */
  lemma {:induction false} RaceRun(run: seq<Race>, turns: seq<Turn>, i: nat)
    requires IsRace(run, turns) && i <= |turns| && InTime(run, turns, i)
    ensures RaceInv(run[i])
  {
    assert |run| == |turns| + 1;
    RaceParts(run, turns, if i == 0 then 0 else i - 1);
    hide IsRace, RaceInv, RaceInRange, MayTurn, Turned, Init, Stale;
    if i == 0 {
      InitRace(run[0]);
    } else {
      RaceRun(run, turns, i - 1);
      TurnKeeps(run[i - 1], turns[i - 1]);
    }
  }

  // ------------------------------------------- when no swap can be stale

  ghost function L0Count(d: Disk): nat {
    if d.current < |d.versions| then |d.versions[d.current].l0| else 0
  }

  /** The worker is on its way to a compaction, or waits for compactionMu, and flushes nothing before it. */
  predicate Awaits(w: Worker, threshold: nat) {
    w == CompactLoad || (w.ClearImmutable? && w.l0Count >= threshold) || (w.CompactionCheck? && w.l0Count >= threshold)
  }

  /** A full level 0 sends the worker into a compaction before it flushes again. */
  ghost predicate WorkerCalm(w: Worker, d: Disk, threshold: nat) {
    && (w.Publish? ==> w.base == d.current)
    && (L0Count(d) >= threshold ==> Awaits(w, threshold) || Compacting(w))
  }

  /** So an outside compaction under way works on the current version. */
  ghost predicate OutCalm(out: Worker, w: Worker, d: Disk, threshold: nat) {
    Compacting(out) ==>
      && Awaits(w, threshold)
      && (out.CompactPublish? ==> out.base == d.current)
  }

  ghost predicate Calm(r: Race) {
    var c := r.s.core;
    WorkerCalm(c.worker, c.disk, c.compactionThreshold) && OutCalm(r.out, c.worker, c.disk, c.compactionThreshold)
  }

  lemma WorkerStaysCalm(s: State)
    requires Inv(s) && InRange(s) && Enabled(s, StepWorker)
    requires WorkerCalm(s.core.worker, s.core.disk, s.core.compactionThreshold)
    ensures var c := WorkerStep(s).core;
            WorkerCalm(c.worker, c.disk, c.compactionThreshold) && c.compactionThreshold == s.core.compactionThreshold
  {
    hide CoreInv, RefsInv, PurgesInv, TraceInv, PendingInv, ReadersInv, ControlInv, InRange, WorkerCore,
        WorkerStep, Chain;
    WorkerParts(s);
    WorkerIsReady(s.core, Published(s.core.disk));
    WorkerStepCore(s);
    WorkerHoldsCurrent(s.core);
    Threshold(s.core, Published(s.core.disk));
    CoreStaysCalm(s.core);
  }

  lemma CoreStaysCalm(c: Core)
    requires WorkerReady(c) && (c.worker == Idle ==> c.queue != []) && c.compactionThreshold > 0
    requires c.worker.CompactPublish? ==>
               c.worker.base == c.disk.current && CompactionOf(c.disk, c.worker.batch, c.worker.f)
    requires c.disk.current + 1 == |c.disk.versions|
    requires WorkerCalm(c.worker, c.disk, c.compactionThreshold)
    ensures var c' := WorkerCore(c);
            WorkerCalm(c'.worker, c'.disk, c.compactionThreshold) && c'.compactionThreshold == c.compactionThreshold
  {
    if c.worker.CompactPublish? {
      NothingRemains(c.worker.batch, c.worker.batch);
    }
    hide Remaining, CompactedFile, BatchSpan;
  }

  /** While the worker is on its way to a compaction, the disk stays as it is. */
  lemma AwaitingWorker(s: State)
    requires InRange(s) && Enabled(s, StepWorker) && s.core.worker != CompactLoad
    requires Awaits(s.core.worker, s.core.compactionThreshold)
    ensures var c := WorkerStep(s).core;
            Awaits(c.worker, c.compactionThreshold) && c.disk == s.core.disk
  {
    hide InRange, WellFormed;
  }

  lemma InsideStaysCalm(r: Race, a: Action)
    requires RaceInv(r) && Calm(r) && MayTurn(r, Inside(a)) && a != FailCompaction
    ensures RaceInRange(r) && Calm(Turned(r, Inside(a)))
  {
    RaceRanges(r);
    hide Inv, InRange, WorkerStep, L0Count, DiskInv, OutInv, OutPending, FlushInv;
    if a == StepWorker {
      assert Refreshed(r.s) == r.s;
      WorkerStaysCalm(r.s);
      if Compacting(r.out) {
        AwaitingWorker(r.s);
      }
    } else {
      OthersKeepDisk(r.s, a);
      hide Apply, Enabled;
    }
  }

  lemma SwapShrinks(d: Disk, batch: seq<nat>, f: nat)
    requires DiskInv(d) && MergeOf(d, d.current, batch, f)
    ensures L0Count(AddVersion(d, MergedFrom(d, d.current, batch, f))) <= L0Count(d)
  {
    MergedManifest(d, d.current, batch, f);
    hide Chain;
  }

  lemma FileKeepsCount(d: Disk, data: Contents, span: Span)
    ensures L0Count(AddFile(d, data, span)) == L0Count(d)
  {
  }

  lemma AdvanceStaysCalm(r: Race)
    requires RaceInv(r) && Calm(r) && MayTurn(r, Advance)
    ensures RaceInRange(r) && Calm(Turned(r, Advance))
  {
    hide Inv, DiskInv, RaceInRange, Turned, FlushInv, PendingInv, L0Count, MergedFrom, MergeOf;
    RaceRanges(r);
    AdvanceIs(r);
    CurrentIsLast(r.s.core.disk);
    match r.out {
      case CompactLoad => LoadStaysCalm(r);
      case CompactWrite(v) =>
        var d, batch := r.s.core.disk, r.s.core.disk.versions[v].l0;
        FileKeepsCount(d, CompactedFile(d.files, batch), BatchSpan(d.spans, batch));
      case CompactPublish(batch, f, _) => SwapShrinks(r.s.core.disk, batch, f);
      case _ =>
    }
  }

  /** An outside compaction begins on a full level 0, so the worker is on its way to its own. */
  lemma LoadStaysCalm(r: Race)
    requires Calm(r) && r.out == CompactLoad && !Compacting(r.s.core.worker)
    requires r.s.core.disk.current < |r.s.core.disk.versions|
    ensures Calm(Race(r.s, Idle))
    ensures |r.s.core.disk.versions[r.s.core.disk.current].l0| >= r.s.core.compactionThreshold ==>
              Calm(Race(r.s, CompactWrite(r.s.core.disk.current)))
  {
  }

  /** Unless a compaction of the worker's fails, no swap is ever stale. */
  lemma CalmTurn(r: Race, t: Turn)
    requires RaceInv(r) && Calm(r) && MayTurn(r, t) && t != Inside(FailCompaction)
    ensures !Stale(r, t) && RaceInRange(r) && Calm(Turned(r, t))
  {
    RaceRanges(r);
    match t {
      case Inside(a) => InsideStaysCalm(r, a);
      case Advance => AdvanceStaysCalm(r);
      case _ =>
    }
    hide RaceInRange, RaceInv, Apply, Enabled;
  }

  lemma InitCalm(r: Race)
    requires Init(r.s) && r.out == Idle
    ensures Calm(r)
  {
  }

  /** No compaction of the worker's own fails. */
  ghost predicate WorkerCompacts(turns: seq<Turn>) {
    forall i :: 0 <= i < |turns| ==> turns[i] != Inside(FailCompaction)
  }

  lemma CalmStep(run: seq<Race>, turns: seq<Turn>, m: nat)
    requires IsRace(run, turns) && m < |turns| && WorkerCompacts(turns) && RaceInv(run[m]) && Calm(run[m])
    ensures |run| == |turns| + 1 && !Stale(run[m], turns[m]) && RaceInv(run[m + 1]) && Calm(run[m + 1])
  {
    assert turns[m] != Inside(FailCompaction);
    hide IsRace, RaceInv, RaceInRange, MayTurn, Turned, Init, Calm, Stale, WorkerCompacts;
    RaceParts(run, turns, m);
    CalmTurn(run[m], turns[m]);
    TurnKeeps(run[m], turns[m]);
  }

  lemma {:induction false} CalmRun(run: seq<Race>, turns: seq<Turn>, i: nat)
    requires IsRace(run, turns) && i <= |turns| && WorkerCompacts(turns)
    ensures |run| == |turns| + 1 && InTime(run, turns, i) && RaceInv(run[i]) && Calm(run[i])
  {
    hide IsRace, RaceInv, RaceInRange, MayTurn, Turned, Init, Calm, Stale, WorkerCompacts;
    RaceParts(run, turns, 0);
    if i == 0 {
      InitRace(run[0]);
      InitCalm(run[0]);
    } else {
      CalmRun(run, turns, i - 1);
      CalmStep(run, turns, i - 1);
    }
  }
}
