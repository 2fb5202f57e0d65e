/**
 What the engine's protocols promise over whole runs: reference counts and purges, the order of
 manifests, the flush hand-off, Close, and the log.
 */
module EngineProtocol {
  import opened Options
  import opened Engine
  import opened EngineSafety
  import opened EngineVersions
  import opened EngineLinear

  // --------------------------------------------------------- reference counts

  /**
   Version.Refs (version.go:26-44): it is the number of readers between Acquire and Release, or -1 with
   no such reader; the current version is never marked, so an Acquire that fails has seen an old version.
   */
  lemma RefsCountHolders(run: seq<State>, acts: seq<Action>, i: nat, v: nat)
    requires IsRun(run, acts) && i < |run| && v < |run[i].refs|
    ensures run[i].refs[v] == |Holders(run[i].readers, v)|
            || (run[i].refs[v] == -1 && Holders(run[i].readers, v) == {} && v < run[i].core.disk.current)
  {
    RunInv(run, acts, i);
    var s := run[i];
    hide CoreInv;
    if s.refs[v] == -1 {
      var p :| 0 <= p < |s.purges| && s.purges[p].marked && s.purges[p].v == v;
      assert PurgeOk(s.core.disk, s.refs, s.purges[p]);
    }
  }

  lemma RefsOfStep(s: State, a: Action)
    requires InRange(s) && Enabled(s, a) && !a.StepGet?
    ensures |s.refs| <= |Apply(s, a).refs|
    ensures forall v :: 0 <= v < |s.refs| && s.refs[v] == -1 ==> Apply(s, a).refs[v] == -1
  {
    hide InRange, PutStep, RotationStep, CloseStep, WorkerCore;
  }

  lemma RefsOfGet(s: State, r: nat)
    requires Inv(s) && InRange(s) && Enabled(s, StepGet(r))
    ensures |s.refs| == |Apply(s, StepGet(r)).refs|
    ensures forall v :: 0 <= v < |s.refs| && s.refs[v] == -1 ==> Apply(s, StepGet(r)).refs[v] == -1
  {
    GetRefs(s, r);
    hide Inv, InRange, Look, RefsInv;
  }

  lemma RunStep(run: seq<State>, acts: seq<Action>, j: nat)
    requires IsRun(run, acts) && j < |acts|
    ensures Inv(run[j]) && InRange(run[j]) && Enabled(run[j], acts[j]) && run[j + 1] == Apply(run[j], acts[j])
    ensures Inv(run[j + 1])
  {
    RunInv(run, acts, j);
    RunInv(run, acts, j + 1);
    assert Steps(run[j], acts[j], run[j + 1]);
    hide Inv, InRange, Enabled, Apply, Init;
  }

  lemma MarkedStays(run: seq<State>, acts: seq<Action>, j: nat, v: nat)
    requires IsRun(run, acts) && j < |acts| && v < |run[j].refs| && run[j].refs[v] == -1
    ensures v < |run[j + 1].refs| && run[j + 1].refs[v] == -1
  {
    RunStep(run, acts, j);
    if acts[j].StepGet? {
      RefsOfGet(run[j], acts[j].r);
    } else {
      RefsOfStep(run[j], acts[j]);
    }
    hide *;
  }

  /** Once a purge has marked a version, its count stays -1 for good: no later Acquire succeeds. */
  lemma {:induction false} MarkedForever(run: seq<State>, acts: seq<Action>, i: nat, j: nat, v: nat)
    requires IsRun(run, acts) && i <= j < |run| && v < |run[i].refs| && run[i].refs[v] == -1
    ensures v < |run[j].refs| && run[j].refs[v] == -1 && Holders(run[j].readers, v) == {}
    decreases j
  {
    hide Steps, Init;
    if i < j {
      MarkedForever(run, acts, i, j - 1, v);
      MarkedStays(run, acts, j - 1, v);
    }
    MarkedHasNoHolder(run, acts, j, v);
  }

  lemma MarkedHasNoHolder(run: seq<State>, acts: seq<Action>, j: nat, v: nat)
    requires IsRun(run, acts) && j < |run| && v < |run[j].refs| && run[j].refs[v] == -1
    ensures Holders(run[j].readers, v) == {}
  {
    RefsCountHolders(run, acts, j, v);
  }

  // ------------------------------------------------------------------ purges

  lemma HolderCounts(s: State, r: nat, v: nat)
    requires Inv(s) && v < |s.refs| && r in s.readers && Holds(s.readers[r].pc, v)
    ensures s.refs[v] > 0
  {
    assert r in Holders(s.readers, v);
    hide CoreInv;
  }

  /** A pinned version that lists a purged file is older than the version the purge waited on. */
  lemma PurgedBefore(d: Disk, refs: seq<int>, j: Purge, v: nat, f: nat)
    requires PurgeOk(d, refs, j) && j.marked && f in j.files
    requires v < |refs| && refs[v] > 0 && v < |d.versions| && f in d.versions[v].Files()
    ensures v < j.v
  {
  }

  /** No file of the current manifest is ever unlinked, so a flush or a compaction reads files that exist. */
  lemma CurrentFilesExist(run: seq<State>, acts: seq<Action>, i: nat, f: nat)
    requires IsRun(run, acts) && i < |run|
    requires run[i].core.disk.current < |run[i].core.disk.versions|
    requires f in run[i].core.disk.versions[run[i].core.disk.current].Files()
    ensures f !in run[i].unlinked
  {
    RunInv(run, acts, i);
    var s := run[i];
    hide CoreInv, IsRun;
    forall p | 0 <= p < |s.purges| ensures f !in s.purges[p].files {
      assert PurgeOk(s.core.disk, s.refs, s.purges[p]);
    }
  }

  /** No manifest published after a compaction names a file the compaction handed to its purge. */
  lemma PurgedFilesStayOut(run: seq<State>, acts: seq<Action>, i: nat, p: nat, v: nat, f: nat)
    requires IsRun(run, acts) && i < |run| && p < |run[i].purges|
    requires run[i].purges[p].v < v < |run[i].core.disk.versions| && f in run[i].core.disk.versions[v].Files()
    ensures f !in run[i].purges[p].files
  {
    RunInv(run, acts, i);
    hide CoreInv, IsRun;
    assert PurgeOk(run[i].core.disk, run[i].refs, run[i].purges[p]);
  }

  // --------------------------------------------------------------- manifests

  /**
   In every published manifest the files of each level are distinct and listed oldest to newest, and
   every L1 file is older than every L0 file: all MemTables behind an earlier position precede all
   MemTables behind a later one, L1 counting before L0.
   */
  lemma ManifestsAreOrdered(run: seq<State>, acts: seq<Action>, i: nat, v: nat, a: nat, b: nat)
    requires IsRun(run, acts) && i < |run| && v < |run[i].core.disk.versions|
    requires a < b < |run[i].core.disk.versions[v].Files()|
    ensures var d, ids := run[i].core.disk, run[i].core.disk.versions[v].Files();
            && ids[a] != ids[b] && ids[a] < |d.spans| && ids[b] < |d.spans|
            && d.spans[ids[a]].lo < d.spans[ids[a]].hi <= d.spans[ids[b]].lo < d.spans[ids[b]].hi
  {
    RunInv(run, acts, i);
    var d := run[i].core.disk;
    assert Chain(d.spans, 0, d.versions[v].Files());
    ChainOrder(d.spans, 0, d.versions[v].Files(), a, b);
    hide Inv, CoreInv, IsRun;
  }

  // ---------------------------------------------------------------- hand-off

  /** The send into flushQ, done while holding mu, finds the one-place channel empty. */
  lemma SendNeverBlocks(run: seq<State>, acts: seq<Action>, i: nat)
    requires IsRun(run, acts) && i < |run|
    ensures var c := run[i].core;
            && ((c.mu.Rotating? && c.mu.rot.Send?) || c.closing.SendFinal? ==> c.queue == [])
            && |c.queue| <= 1
            && (c.queue != [] ==> c.mem.immutable == Some(c.queue[0]))
  {
    RunInv(run, acts, i);
    HandoffQueue(run[i].core, Published(run[i].core.disk));
    hide Inv, CoreInv, IsRun;
  }

  lemma HandoffQueue(c: Core, p: nat)
    requires ControlInv(c, p)
    ensures (c.mu.Rotating? && c.mu.rot.Send?) || c.closing.SendFinal? ==> c.queue == []
    ensures |c.queue| <= 1
    ensures c.queue != [] ==> c.mem.immutable == Some(c.queue[0])
  {
  }

  /**
   FlushMemTable has run on tables 0, 1, 2, ... in order and on none twice; when Close returns it has
   run on every rotated table, and on the last active one too if its Size() is positive.
   */
  lemma CloseFlushesEverything(run: seq<State>, acts: seq<Action>, i: nat)
    requires IsRun(run, acts) && i < |run|
    ensures var c := run[i].core;
            && (forall n :: 0 <= n < |c.flushed| ==> c.flushed[n] == n)
            && (c.closing == Closed ==> c.mem.active <= |c.flushed| <= c.mem.active + 1)
            && (c.closing == Closed && c.mem.active < |c.mem.sizes| && c.mem.sizes[c.mem.active] > 0
                ==> |c.flushed| == c.mem.active + 1)
  {
    RunInv(run, acts, i);
    ClosedFlushed(run[i].core, Published(run[i].core.disk));
    hide Inv, CoreInv, IsRun;
  }

  lemma ClosedFlushed(c: Core, p: nat)
    requires ControlInv(c, p)
    ensures forall n :: 0 <= n < |c.flushed| ==> c.flushed[n] == n
    ensures c.closing == Closed ==> c.mem.active <= |c.flushed| <= c.mem.active + 1
    ensures c.closing == Closed && c.mem.sizes[c.mem.active] > 0 ==> |c.flushed| == c.mem.active + 1
  {
  }

  // ------------------------------------------------------------ frozen tables

  lemma WorkerLeavesTables(s: State)
    requires InRange(s) && Enabled(s, StepWorker)
    ensures Apply(s, StepWorker).core.mem.frozen == s.core.mem.frozen
  {
    hide InRange;
  }

  lemma FrozenStays(s: State, a: Action, t: nat)
    requires InRange(s) && Enabled(s, a) && t < |s.core.mem.frozen| && s.core.mem.frozen[t]
    ensures t < |Apply(s, a).core.mem.frozen| && Apply(s, a).core.mem.frozen[t]
  {
    if a == StepWorker {
      WorkerLeavesTables(s);
    }
    hide InRange, Look, Count, WorkerCore;
  }

  /** Once a table is frozen its contents never change again. */
  lemma {:induction false} FrozenForever(run: seq<State>, acts: seq<Action>, i: nat, j: nat, t: nat)
    requires IsRun(run, acts) && i <= j < |run|
    requires t < |run[i].core.mem.frozen| && run[i].core.mem.frozen[t]
    ensures t < |run[j].core.mem.frozen| && run[j].core.mem.frozen[t]
    ensures t < |run[i].core.mem.tables| && t < |run[j].core.mem.tables|
    ensures run[j].core.mem.tables[t] == run[i].core.mem.tables[t]
    decreases j
  {
    hide Steps, Init;
    if i < j {
      FrozenForever(run, acts, i, j - 1, t);
      FrozenStep(run, acts, j - 1, t);
    } else {
      TablesAndFlags(run, acts, i);
    }
  }

  lemma TablesAndFlags(run: seq<State>, acts: seq<Action>, i: nat)
    requires IsRun(run, acts) && i < |run|
    ensures |run[i].core.mem.tables| == |run[i].core.mem.frozen|
  {
    RunInv(run, acts, i);
  }

  lemma LogKeepsFrozen(s: State, a: Action, t: nat)
    requires t < |s.core.mem.frozen| && s.core.mem.frozen[t] && |s.core.mem.tables| == |s.core.mem.frozen|
    requires Inserts(s, a) ==> s.core.writers[a.w].pc.t + 1 == |s.core.mem.tables|
    ensures t < |LogAfter(s, a)| && LogAfter(s, a)[t] == s.core.mem.tables[t]
  {
  }

  lemma FrozenStep(run: seq<State>, acts: seq<Action>, j: nat, t: nat)
    requires IsRun(run, acts) && j < |acts|
    requires t < |run[j].core.mem.frozen| && run[j].core.mem.frozen[t]
    ensures t < |run[j + 1].core.mem.frozen| && run[j + 1].core.mem.frozen[t]
    ensures t < |run[j].core.mem.tables| && t < |run[j + 1].core.mem.tables|
    ensures run[j + 1].core.mem.tables[t] == run[j].core.mem.tables[t]
  {
    RunStep(run, acts, j);
    FrozenStays(run[j], acts[j], t);
    TablesAndFlags(run, acts, j);
    if Inserts(run[j], acts[j]) {
      InsertIsActive(run[j].core, acts[j].w);
    }
    LogKeepsFrozen(run[j], acts[j], t);
    TablesChange(run[j], acts[j]);
    hide *;
  }
}
