/**
 Reference counts and the purge of compacted files
 (internal/engine/version.go:26-44, compactor.go:165-175, db.go:396-431).
 */
module EngineVersions {
  import opened Options
  import opened ByteStrings
  import opened Engine
  import opened EngineSafety

  // ------------------------------------------------------------- invariants

  predicate Holds(pc: ReaderPc, v: nat) {
    (pc.SearchFile? && pc.v == v) || (pc.Release? && pc.v == v)
  }

  /** The readers between a successful Acquire of version v and its Release. */
  ghost function Holders(readers: map<nat, Reader>, v: nat): set<nat> {
    set r | r in readers && Holds(readers[r].pc, v)
  }

  ghost predicate ReadersInv(s: State) {
    forall r :: r in s.readers ==>
      ReaderInRange(s, s.readers[r].pc) && (s.readers[r].pc.CasRefs? ==> s.readers[r].pc.seen >= 0)
  }

  /** Refs counts the holders, or is -1 for good with no holder left. */
  ghost predicate RefsInv(refs: seq<int>, readers: map<nat, Reader>) {
    forall v :: 0 <= v < |refs| ==>
      refs[v] == |Holders(readers, v)| || (refs[v] == -1 && Holders(readers, v) == {})
  }

  /** Every file a purge was handed has left all manifests published after the version the purge waits on. */
  ghost predicate PurgeOk(d: Disk, refs: seq<int>, j: Purge) {
    && j.v < d.current && d.current < |d.versions| && j.v < |refs|
    && j.removed <= |j.files|
    && (j.marked ==> refs[j.v] == -1)
    && (!j.marked ==> j.removed == 0)
    && (forall f :: f in j.files ==> f < |d.files|)
    && (forall u, f :: j.v < u < |d.versions| && f in j.files ==> f !in d.versions[u].Files())
  }

  ghost predicate PurgesInv(d: Disk, refs: seq<int>, purges: seq<Purge>) {
    forall p :: 0 <= p < |purges| ==> PurgeOk(d, refs, purges[p])
  }

  /** -1 is written, and files are unlinked, by a purge only. */
  ghost predicate TraceInv(refs: seq<int>, purges: seq<Purge>, unlinked: set<nat>) {
    && (forall v :: 0 <= v < |refs| && refs[v] == -1 ==>
          exists p :: 0 <= p < |purges| && purges[p].marked && purges[p].v == v)
    && (forall f :: f in unlinked ==> exists p :: 0 <= p < |purges| && purges[p].marked && f in purges[p].files)
  }

  /** The file the worker has written and not yet published. */
  ghost function Pending(w: Worker): Option<nat> {
    match w
    case LoadOld(_, f) => Some(f)
    case Publish(_, f, _) => Some(f)
    case CompactReload(_, f) => Some(f)
    case CompactPublish(_, f, _) => Some(f)
    case _ => None
  }

  ghost predicate PendingInv(w: Worker, d: Disk, purges: seq<Purge>) {
    Pending(w).Some? ==>
      && (forall v :: 0 <= v < |d.versions| ==> Pending(w).value !in d.versions[v].Files())
      && (forall p :: 0 <= p < |purges| ==> Pending(w).value !in purges[p].files)
  }

  ghost predicate Inv(s: State) {
    && CoreInv(s.core)
    && |s.refs| == |s.core.disk.versions|
    && ReadersInv(s)
    && RefsInv(s.refs, s.readers)
    && PurgesInv(s.core.disk, s.refs, s.purges)
    && TraceInv(s.refs, s.purges, s.unlinked)
    && PendingInv(s.core.worker, s.core.disk, s.purges)
  }

  lemma InvCore(s: State)
    requires Inv(s)
    ensures CoreInv(s.core)
  {
    hide CoreInv, ReadersInv, RefsInv, PurgesInv, TraceInv, PendingInv;
  }

  // -------------------------------------------------------- ranges always hold

  /** No thread of a reachable state is stuck on a table, file or version that does not exist. */
  lemma InvInRange(s: State)
    requires Inv(s)
    ensures InRange(s)
  {
    var c := s.core;
    CoreWellFormed(c);
    ControlRanges(c, Published(c.disk));
    WorkerIsReady(c, Published(c.disk));
    hide CoreInv;
  }

  lemma ControlRanges(c: Core, p: nat)
    requires ControlInv(c, p)
    ensures c.mu.Rotating? && !c.mu.rot.LoadActive? ==> c.mu.rot.t < |c.mem.tables|
    ensures c.closing.WaitRoom? || c.closing.SleepUnlocked? || c.closing.SendFinal? ==> c.closing.t < |c.mem.tables|
    ensures forall i :: 0 <= i < |c.queue| ==> c.queue[i] < |c.mem.tables|
    ensures forall w :: w in c.writers && c.writers[w].pc.Insert? ==> c.writers[w].pc.t < |c.mem.tables|
  {
  }

  // ------------------------------------------------------------ reader steps

  lemma HoldersChange(readers: map<nat, Reader>, r: nat, x: Reader, v: nat)
    ensures var h, h' := Holders(readers, v), Holders(readers[r := x], v);
            && (r in readers && Holds(readers[r].pc, v) <==> r in h)
            && h' == if Holds(x.pc, v) then h + {r} else h - {r}
  {
  }

  lemma ReaderMoves(refs: seq<int>, readers: map<nat, Reader>, r: nat, x: Reader)
    requires RefsInv(refs, readers) && r in readers
    requires forall v :: Holds(readers[r].pc, v) <==> Holds(x.pc, v)
    ensures RefsInv(refs, readers[r := x])
  {
    forall v | 0 <= v < |refs| ensures Holders(readers[r := x], v) == Holders(readers, v) {
      HoldersChange(readers, r, x, v);
    }
  }

  lemma ReaderAcquires(refs: seq<int>, readers: map<nat, Reader>, r: nat, x: Reader, v: nat)
    requires RefsInv(refs, readers) && r in readers && v < |refs| && refs[v] >= 0
    requires forall u :: !Holds(readers[r].pc, u)
    requires forall u :: Holds(x.pc, u) <==> u == v
    ensures RefsInv(refs[v := refs[v] + 1], readers[r := x])
  {
    forall u | 0 <= u < |refs|
      ensures Holders(readers[r := x], u) == if u == v then Holders(readers, u) + {r} else Holders(readers, u)
      ensures r !in Holders(readers, u)
    {
      HoldersChange(readers, r, x, u);
    }
  }

  lemma ReaderReleases(refs: seq<int>, readers: map<nat, Reader>, r: nat, x: Reader, v: nat)
    requires RefsInv(refs, readers) && r in readers && v < |refs|
    requires forall u :: Holds(readers[r].pc, u) <==> u == v
    requires forall u :: !Holds(x.pc, u)
    ensures refs[v] >= 1 && RefsInv(refs[v := refs[v] - 1], readers[r := x])
  {
    forall u | 0 <= u < |refs|
      ensures Holders(readers[r := x], u) == if u == v then Holders(readers, u) - {r} else Holders(readers, u)
    {
      HoldersChange(readers, r, x, u);
    }
    HoldersChange(readers, r, x, v);
    assert r in Holders(readers, v);
  }

  lemma GetRefs(s: State, r: nat)
    requires Inv(s) && InRange(s) && r in s.readers && !s.readers[r].pc.Returned?
    ensures RefsInv(GetStep(s, r).refs, GetStep(s, r).readers)
    ensures forall v :: 0 <= v < |s.refs| ==> (s.refs[v] == -1 <==> GetStep(s, r).refs[v] == -1)
  {
    var x := Look(s, s.readers[r]);
    hide CoreInv, PurgesInv, TraceInv, PendingInv, InRange;
    match s.readers[r].pc
    case CasRefs(v, seen) =>
      if s.refs[v] == seen {
        ReaderAcquires(s.refs, s.readers, r, x, v);
      } else {
        ReaderMoves(s.refs, s.readers, r, x);
      }
    case Release(v, _) => ReaderReleases(s.refs, s.readers, r, x, v);
    case _ => ReaderMoves(s.refs, s.readers, r, x);
  }

  lemma CountKeepsPurges(d: Disk, refs: seq<int>, refs': seq<int>, purges: seq<Purge>, unlinked: set<nat>)
    requires PurgesInv(d, refs, purges) && TraceInv(refs, purges, unlinked) && |refs'| == |refs|
    requires forall v :: 0 <= v < |refs| ==> (refs[v] == -1 <==> refs'[v] == -1)
    ensures PurgesInv(d, refs', purges) && TraceInv(refs', purges, unlinked)
  {
    forall p | 0 <= p < |purges| ensures PurgeOk(d, refs', purges[p]) {
      assert PurgeOk(d, refs, purges[p]);
    }
  }

  lemma GetKeeps(s: State, r: nat)
    requires Inv(s) && InRange(s) && r in s.readers && !s.readers[r].pc.Returned?
    ensures Inv(GetStep(s, r))
  {
    hide CoreInv, RefsInv, PendingInv, PurgesInv, TraceInv;
    GetRefs(s, r);
    var s' := GetStep(s, r);
    CountKeepsPurges(s.core.disk, s.refs, s'.refs, s.purges, s.unlinked);
    assert s'.core == s.core && s'.purges == s.purges && s'.unlinked == s.unlinked;
    assert ReaderInRange(s', s'.readers[r].pc);
  }

  // ------------------------------------------------------------- purge steps

  lemma MarkRefs(refs: seq<int>, readers: map<nat, Reader>, v: nat)
    requires RefsInv(refs, readers) && v < |refs| && refs[v] == 0
    ensures RefsInv(refs[v := -1], readers)
  {
    assert |Holders(readers, v)| == 0;
  }

  lemma PurgePurges(d: Disk, refs: seq<int>, refs': seq<int>, purges: seq<Purge>, p: nat, j: Purge)
    requires PurgesInv(d, refs, purges) && p < |purges| && |refs'| == |refs|
    requires j.v == purges[p].v && j.files == purges[p].files && j.removed <= |j.files|
    requires j.marked && refs'[j.v] == -1
    requires forall v :: 0 <= v < |refs| && refs[v] == -1 ==> refs'[v] == -1
    ensures PurgesInv(d, refs', purges[p := j])
  {
    var purges' := purges[p := j];
    forall q | 0 <= q < |purges'| ensures PurgeOk(d, refs', purges'[q]) {
      assert PurgeOk(d, refs, purges[q]);
    }
  }

  lemma PurgeKeeps(s: State, p: nat)
    requires Inv(s) && Enabled(s, StepPurge(p))
    ensures s.purges[p].v < |s.refs| && Inv(PurgeStep(s, p))
  {
    assert PurgeOk(s.core.disk, s.refs, s.purges[p]);
    var s' := PurgeStep(s, p);
    PurgePurges(s.core.disk, s.refs, s'.refs, s.purges, p, s'.purges[p]);
    PurgeTrace(s, p);
    if !s.purges[p].marked {
      MarkRefs(s.refs, s.readers, s.purges[p].v);
    }
    ReadersFrame(s, s');
    hide CoreInv, PurgesInv, PurgeOk, TraceInv, RefsInv, ReadersInv;
  }

  lemma PurgeTrace(s: State, p: nat)
    requires TraceInv(s.refs, s.purges, s.unlinked) && Enabled(s, StepPurge(p)) && s.purges[p].v < |s.refs|
    ensures TraceInv(PurgeStep(s, p).refs, PurgeStep(s, p).purges, PurgeStep(s, p).unlinked)
  {
    var s' := PurgeStep(s, p);
    forall v | 0 <= v < |s'.refs| && s'.refs[v] == -1
      ensures exists q :: 0 <= q < |s'.purges| && s'.purges[q].marked && s'.purges[q].v == v
    {
      if s.refs[v] == -1 {
        var q :| 0 <= q < |s.purges| && s.purges[q].marked && s.purges[q].v == v;
        assert s'.purges[q].marked && s'.purges[q].v == v;
      } else {
        assert s'.purges[p].marked && s'.purges[p].v == v;
      }
    }
    forall f | f in s'.unlinked
      ensures exists q :: 0 <= q < |s'.purges| && s'.purges[q].marked && f in s'.purges[q].files
    {
      if f in s.unlinked {
        var q :| 0 <= q < |s.purges| && s.purges[q].marked && f in s.purges[q].files;
        assert s'.purges[q].marked && f in s'.purges[q].files;
      } else {
        assert s'.purges[p].marked && f in s'.purges[p].files;
      }
    }
  }

  // -------------------------------------------------------- steps on the core

  /** A step that leaves disk and worker alone keeps every reader and purge in order. */
  lemma CoreOnlyKeeps(s: State, c: Core)
    requires Inv(s) && CoreInv(c) && c.disk == s.core.disk && Pending(c.worker) == Pending(s.core.worker)
    requires |s.core.mem.tables| <= |c.mem.tables|
    ensures Inv(s.(core := c))
  {
    ReadersFrame(s, s.(core := c));
    hide CoreInv, ReadersInv;
  }

  /** Readers stay in range while tables, files and versions only grow. */
  lemma ReadersFrame(s: State, s': State)
    requires ReadersInv(s) && s'.readers == s.readers
    requires |s.core.mem.tables| <= |s'.core.mem.tables| && s.core.disk.versions <= s'.core.disk.versions
    ensures ReadersInv(s')
  {
    forall r | r in s.readers ensures ReaderInRange(s', s.readers[r].pc) {
      assert ReaderInRange(s, s.readers[r].pc);
    }
  }

  /**
   currentVersion moves on to the manifest `m`, which names one new file and otherwise only files of the last
   manifest.
   */
  lemma PublishKeepsPurges(d: Disk, refs: seq<int>, purges: seq<Purge>, m: Manifest, f: nat)
    requires PurgesInv(d, refs, purges) && |refs| == |d.versions| && d.current + 1 == |d.versions|
    requires forall p :: 0 <= p < |purges| ==> f !in purges[p].files
    requires forall g :: g in m.Files() ==> g == f || g in d.versions[d.current].Files()
    ensures PurgesInv(AddVersion(d, m), refs + [0], purges)
  {
    var d' := AddVersion(d, m);
    forall p | 0 <= p < |purges| ensures PurgeOk(d', refs + [0], purges[p]) {
      var j := purges[p];
      assert PurgeOk(d, refs, j);
      forall u, g | j.v < u < |d'.versions| && g in j.files ensures g !in d'.versions[u].Files() {
        if u < |d.versions| {
          assert d'.versions[u] == d.versions[u];
        } else {
          assert g !in d.versions[d.current].Files();
        }
      }
    }
  }

  lemma NewVersionRefs(s: State)
    requires RefsInv(s.refs, s.readers) && TraceInv(s.refs, s.purges, s.unlinked)
    requires forall r :: r in s.readers ==> ReaderInRange(s, s.readers[r].pc)
    requires |s.refs| == |s.core.disk.versions|
    ensures RefsInv(s.refs + [0], s.readers) && TraceInv(s.refs + [0], s.purges, s.unlinked)
  {
    assert Holders(s.readers, |s.refs|) == {};
  }

  lemma AddFilePurges(d: Disk, d': Disk, refs: seq<int>, purges: seq<Purge>, w: Worker, w': Worker)
    requires PurgesInv(d, refs, purges) && PendingInv(w, d, purges)
    requires |d.files| <= |d'.files| && d'.versions == d.versions && d'.current == d.current
    requires forall v, f :: 0 <= v < |d.versions| && f in d.versions[v].Files() ==> f < |d.files|
    requires Pending(w') == Pending(w) || Pending(w') == None || Pending(w') == Some(|d.files|)
    ensures PurgesInv(d', refs, purges) && PendingInv(w', d', purges)
  {
    forall p | 0 <= p < |purges|
      ensures PurgeOk(d', refs, purges[p]) && |d.files| !in purges[p].files
    {
      assert PurgeOk(d, refs, purges[p]);
    }
  }

  lemma ManifestRanges(c: Core)
    requires CoreInv(c)
    ensures forall v, f :: 0 <= v < |c.disk.versions| && f in c.disk.versions[v].Files() ==> f < |c.disk.files|
  {
    CoreWellFormed(c);
  }

  /** A worker step that publishes nothing: it may add a file, or only move the worker. */
  lemma WorkerFileKeeps(s: State, c: Core)
    requires Inv(s) && CoreInv(c)
    requires c.mem.tables == s.core.mem.tables && |s.core.disk.files| <= |c.disk.files|
    requires c.disk.versions == s.core.disk.versions && c.disk.current == s.core.disk.current
    requires Pending(c.worker) == Pending(s.core.worker) || Pending(c.worker) == None
             || Pending(c.worker) == Some(|s.core.disk.files|)
    ensures Inv(s.(core := c))
  {
    ManifestRanges(s.core);
    AddFilePurges(s.core.disk, c.disk, s.refs, s.purges, s.core.worker, c.worker);
    ReadersFrame(s, s.(core := c));
    hide CoreInv, PurgesInv, PendingInv, ReadersInv;
  }

  lemma PublishL0Pins(s: State)
    requires Inv(s) && s.core.worker.Publish? && s.core.worker.base == s.core.disk.current
    requires CoreInv(WorkerCore(s.core))
    requires s.core.disk.current + 1 == |s.core.disk.versions|
    ensures InRange(s) && Inv(WorkerStep(s))
  {
    InvInRange(s);
    NewVersionRefs(s);
    var c := s.core;
    var f := c.worker.f;
    var m := c.disk.versions[c.worker.base].(l0 := c.disk.versions[c.worker.base].l0 + [f]);
    PublishKeepsPurges(c.disk, s.refs, s.purges, m, f);
    ReadersFrame(s, WorkerStep(s));
    hide CoreInv, PurgesInv, TraceInv, RefsInv, ReadersInv;
  }

  /** A compaction's inputs are in none of the manifests published from then on. */
  lemma InputsLeave(d: Disk, batch: seq<nat>, f: nat)
    requires DiskInv(d) && MergeOf(d, d.current, batch, f) && f !in d.versions[d.current].Files()
    ensures var m := d.versions[d.current];
            && Remaining(m.l0, batch) == m.l0[|batch|..]
            && forall g :: g in batch ==> g < |d.spans| && g !in m.l0[|batch|..] + (m.l1 + [f])
  {
    MergedManifest(d, d.current, batch, f);
    var m := d.versions[d.current];
    var n := |m.l1|;
    forall i | 0 <= i < |batch| ensures batch[i] < |d.spans| && batch[i] !in m.l0[|batch|..] + (m.l1 + [f]) {
      assert (m.l1 + m.l0)[n + i] == m.l0[i] == batch[i];
      assert batch[i] in m.Files();
      BatchFileLeaves(d.spans, m.l1, m.l0, |batch|, i);
    }
  }

  /** A file of the batch is not among the other files. */
  lemma BatchFileLeaves(spans: seq<Span>, l1: seq<nat>, l0: seq<nat>, n: nat, i: nat)
    requires Chain(spans, 0, l1 + l0) && i < n <= |l0|
    ensures l0[i] !in l1 && l0[i] !in l0[n..] && l0[i] < |spans|
  {
    assert (l1 + l0)[|l1| + i] == l0[i];
    forall j | 0 <= j < |l1| ensures l1[j] != l0[i] {
      ChainOrder(spans, 0, l1 + l0, j, |l1| + i);
    }
    forall j | n <= j < |l0| ensures l0[j] != l0[i] {
      ChainOrder(spans, 0, l1 + l0, |l1| + i, |l1| + j);
    }
  }

  lemma NewPurge(d: Disk, refs: seq<int>, purges: seq<Purge>, batch: seq<nat>, f: nat)
    requires DiskInv(d) && MergeOf(d, d.current, batch, f) && |refs| == |d.versions|
    requires f !in d.versions[d.current].Files()
    requires forall p :: 0 <= p < |purges| ==> f !in purges[p].files
    requires PurgesInv(d, refs, purges)
    ensures var m := Manifest(Remaining(d.versions[d.current].l0, batch), d.versions[d.current].l1 + [f]);
            PurgesInv(AddVersion(d, m), refs + [0], purges + [Purge(d.current, batch, false, 0)])
  {
    InputsLeave(d, batch, f);
    var was := d.versions[d.current];
    var m := Manifest(was.l0[|batch|..], was.l1 + [f]);
    PublishKeepsPurges(d, refs, purges, m, f);
    assert PurgeOk(AddVersion(d, m), refs + [0], Purge(d.current, batch, false, 0));
  }

  lemma NewPurgeTrace(refs: seq<int>, purges: seq<Purge>, unlinked: set<nat>, j: Purge)
    requires TraceInv(refs, purges, unlinked)
    ensures TraceInv(refs, purges + [j], unlinked)
  {
    forall v | 0 <= v < |refs| && refs[v] == -1
      ensures exists p :: 0 <= p < |purges + [j]| && (purges + [j])[p].marked && (purges + [j])[p].v == v
    {
      var p :| 0 <= p < |purges| && purges[p].marked && purges[p].v == v;
      assert (purges + [j])[p] == purges[p];
    }
    forall f | f in unlinked
      ensures exists p :: 0 <= p < |purges + [j]| && (purges + [j])[p].marked && f in (purges + [j])[p].files
    {
      var p :| 0 <= p < |purges| && purges[p].marked && f in purges[p].files;
      assert (purges + [j])[p] == purges[p];
    }
  }

  lemma PublishL1Pins(s: State)
    requires Inv(s) && s.core.worker.CompactPublish? && s.core.worker.base == s.core.disk.current
    requires CompactionOf(s.core.disk, s.core.worker.batch, s.core.worker.f)
    requires CoreInv(WorkerCore(s.core))
    requires s.core.disk.current + 1 == |s.core.disk.versions|
    ensures InRange(s) && Inv(WorkerStep(s))
  {
    InvInRange(s);
    NewVersionRefs(s);
    var c := s.core;
    NewPurge(c.disk, s.refs, s.purges, c.worker.batch, c.worker.f);
    NewPurgeTrace(s.refs + [0], s.purges, s.unlinked, Purge(c.worker.base, c.worker.batch, false, 0));
    ReadersFrame(s, WorkerStep(s));
    hide CoreInv, PurgesInv, TraceInv, RefsInv, ReadersInv;
  }

  /** What the worker's program counter promises about the manifest it is about to replace. */
  lemma WorkerHoldsCurrent(c: Core)
    requires CoreInv(c)
    ensures c.disk.current + 1 == |c.disk.versions|
    ensures c.worker.Publish? || c.worker.CompactPublish? ==> c.worker.base == c.disk.current
    ensures c.worker.CompactPublish? ==> CompactionOf(c.disk, c.worker.batch, c.worker.f)
  {
  }

  /** A worker step that publishes nothing adds at most one file. */
  lemma WorkerMoves(c: Core)
    requires WorkerReady(c) && WorkerMayStep(c) && !c.worker.Publish? && !c.worker.CompactPublish?
    ensures WorkerCore(c).mem.tables == c.mem.tables && |c.disk.files| <= |WorkerCore(c).disk.files|
    ensures WorkerCore(c).disk.versions == c.disk.versions && WorkerCore(c).disk.current == c.disk.current
    ensures Pending(WorkerCore(c).worker) == Pending(c.worker) || Pending(WorkerCore(c).worker) == None
            || Pending(WorkerCore(c).worker) == Some(|c.disk.files|)
  {
    hide CompactedFile, BatchSpan, Remaining;
  }

  lemma WorkerQuietPins(s: State)
    requires Inv(s) && InRange(s) && WorkerMayStep(s.core) && !s.core.worker.Publish? && !s.core.worker.CompactPublish?
    requires WorkerReady(s.core) && CoreInv(WorkerCore(s.core))
    ensures Inv(WorkerStep(s))
  {
    WorkerMoves(s.core);
    WorkerFileKeeps(s, WorkerCore(s.core));
    hide Inv, CoreInv;
    assert WorkerStep(s) == s.(core := WorkerCore(s.core));
  }

  lemma WorkerKeeps(s: State)
    requires Inv(s) && WorkerMayStep(s.core)
    ensures InRange(s) && Inv(WorkerStep(s)) && CoreStep(s.core, WorkerStep(s).core)
  {
    InvInRange(s);
    WorkerStepKeeps(s.core);
    WorkerHoldsCurrent(s.core);
    assert CoreInv(WorkerCore(s.core));
    hide CoreInv, DiskGrows, WorkerReady, Inv, CoreStep;
    if s.core.worker.Publish? {
      PublishL0Pins(s);
    } else if s.core.worker.CompactPublish? {
      PublishL1Pins(s);
    } else {
      WorkerQuietPins(s);
    }
  }

  // ----------------------------------------------------------- every step

  lemma BeginPutKeeps(c: Core, w: nat, x: Writer)
    requires CoreInv(c) && c.closing == NotClosing && x.pc == AppendWal
    ensures CoreStep(c, c.(writers := c.writers[w := x]))
  {
    var c' := c.(writers := c.writers[w := x]);
    HandoffFrame(c, c', Published(c.disk));
    SameDiskStep(c, c');
  }

  lemma BeginLockKeeps(c: Core)
    requires CoreInv(c) && c.mu == Free && c.closing == NotClosing
    ensures CoreStep(c, c.(mu := Rotating(LoadActive)))
    ensures Quiet(c) ==> CoreStep(c, c.(mu := Closer, closing := WaitRoom(c.mem.active)))
  {
    BeginRotationControl(c, Published(c.disk));
    SameDiskStep(c, c.(mu := Rotating(LoadActive)));
    if Quiet(c) {
      BeginCloseControl(c, Published(c.disk));
      var c' := c.(mu := Closer, closing := WaitRoom(c.mem.active));
      assert FileInv(c'.mem.tables, c.disk, false);
      SameDiskStep(c, c');
    }
  }

  lemma BeginRotationControl(c: Core, p: nat)
    requires ControlInv(c, p) && c.mu == Free && c.closing == NotClosing
    ensures ControlInv(c.(mu := Rotating(LoadActive)), p)
  {
  }

  lemma BeginCloseControl(c: Core, p: nat)
    requires ControlInv(c, p) && Quiet(c) && c.closing == NotClosing
    ensures ControlInv(c.(mu := Closer, closing := WaitRoom(c.mem.active)), p)
  {
  }

  lemma MoveWorkerKeeps(c: Core, w: Worker)
    requires CoreInv(c)
    requires (c.worker == Idle && c.stopped && w == Drain) || (c.worker.CompactWrite? && w == Idle)
    ensures CoreStep(c, c.(worker := w))
  {
    StopControl(c, Published(c.disk), w);
    SameDisk(c);
  }

  /** Each step of a thread on the core alone. */
  lemma CoreActionKeeps(s: State, a: Action)
    requires Inv(s) && InRange(s) && Enabled(s, a)
    requires !a.StepWorker? && !a.BeginGet? && !a.StepGet? && !a.StepPurge?
    ensures CoreStep(s.core, Apply(s, a).core)
    ensures Apply(s, a) == s.(core := Apply(s, a).core)
    ensures Apply(s, a).core.disk == s.core.disk && Pending(Apply(s, a).core.worker) == Pending(s.core.worker)
    ensures |s.core.mem.tables| <= |Apply(s, a).core.mem.tables|
  {
    hide CoreStep, CoreInv, InRange;
    var c := s.core;
    match a
    case BeginPut(w, k, v) => BeginPutKeeps(c, w, Writer(k, v, AppendWal));
    case StepPut(w) => PutStepKeeps(c, w);
    case BeginRotation => BeginLockKeeps(c);
    case StepRotation => RotationStepKeeps(c);
    case BeginClose => BeginLockKeeps(c);
    case StepClose => CloseStepKeeps(c);
    case StopWorker => MoveWorkerKeeps(c, Drain);
    case FailCompaction => MoveWorkerKeeps(c, Idle);
    case _ =>
  }

  /** The invariant survives every step of every thread. */
  lemma StepKeeps(s: State, a: Action)
    requires Inv(s) && Enabled(s, a)
    ensures InRange(s) && Inv(Apply(s, a)) && CoreStep(s.core, Apply(s, a).core)
  {
    InvInRange(s);
    match a
    case StepWorker => WorkerKeeps(s);
    case BeginGet(r, k) =>
      BeginGetKeeps(s, r, k);
      SameDisk(s.core);
    case StepGet(r) =>
      GetKeeps(s, r);
      SameDisk(s.core);
    case StepPurge(p) =>
      PurgeKeeps(s, p);
      SameDisk(s.core);
    case _ =>
      CoreActionKeeps(s, a);
      CoreOnlyKeeps(s, Apply(s, a).core);
  }

  lemma BeginGetKeeps(s: State, r: nat, k: Bytes)
    requires Inv(s) && r !in s.readers
    ensures Inv(s.(readers := s.readers[r := Reader(k, LoadActiveTable, 0)]))
  {
    var x := Reader(k, LoadActiveTable, 0);
    forall v | 0 <= v < |s.refs| ensures Holders(s.readers[r := x], v) == Holders(s.readers, v) {
      HoldersChange(s.readers, r, x, v);
    }
    hide CoreInv, PurgesInv, TraceInv, PendingInv;
  }

  lemma InitInv(s: State)
    requires Init(s)
    ensures Inv(s)
  {
    hide CoreInv;
    InitKeeps(s);
    assert Holders(s.readers, 0) == {};
  }

  /** Every state of every run satisfies the invariant. */
  lemma {:induction false} RunInv(run: seq<State>, acts: seq<Action>, i: nat)
    requires IsRun(run, acts) && i < |run|
    ensures Inv(run[i])
  {
    hide *;
    RunParts(run, acts, 0);
    RunParts(run, acts, if i == 0 then 0 else i - 1);
    if i == 0 {
      InitInv(run[0]);
    } else {
      RunInv(run, acts, i - 1);
      StepKeeps(run[i - 1], acts[i - 1]);
    }
  }

  lemma RunParts(run: seq<State>, acts: seq<Action>, i: nat)
    requires IsRun(run, acts) && i <= |acts|
    ensures |run| == |acts| + 1 && Init(run[0])
    ensures i < |acts| ==> InRange(run[i]) && Enabled(run[i], acts[i]) && run[i + 1] == Apply(run[i], acts[i])
  {
    assert i < |acts| ==> Steps(run[i], acts[i], run[i + 1]);
    hide InRange, Enabled, Apply, Init;
  }
}
