/**
 The engine over real bytes and the step machine (internal/engine/db.go): every state the methods of DB reach is a quiet
 state of a run of the machine.
 */
module DbRuns {
  import opened Options
  import opened ByteStrings
  import opened Layers
  import opened Engine
  import opened EngineSafety
  import opened EngineVersions
  import opened EngineLimits
  import S = Shots

  // ------------------------------------------------------ what a state shows

  ghost predicate LevelIs(files: seq<Contents>, ids: seq<nat>, ls: seq<Contents>) {
    |ids| == |ls| && forall i :: 0 <= i < |ids| ==> ids[i] < |files| && files[ids[i]] == ls[i]
  }

  ghost predicate MemIs(m: Mem, queue: seq<nat>, active: Contents, size: nat, immutable: Option<Contents>) {
    && |m.tables| == |m.sizes| == |m.frozen| && m.active < |m.tables| && !m.frozen[m.active]
    && m.tables[m.active] == active && m.sizes[m.active] == size
    && match immutable
       case None => m.immutable == None && queue == []
       case Some(table) =>
         m.immutable.Some? && m.immutable.value < |m.tables| && m.tables[m.immutable.value] == table
         && queue == [m.immutable.value]
  }

  ghost predicate DiskIs(d: Disk, l0: seq<Contents>, l1: seq<Contents>) {
    && d.current < |d.versions| && |d.spans| == |d.files|
    && LevelIs(d.files, d.versions[d.current].l0, l0) && LevelIs(d.files, d.versions[d.current].l1, l1)
  }

  /**
   Between two calls, with the worker idle, the machine holds what the snapshot says; writers are numbered
   below w.
   */
  ghost predicate Shows(s: State, shot: S.Shot, flushThreshold: nat, compactionThreshold: nat, w: nat) {
    var c := s.core;
    && c.flushThreshold == flushThreshold && c.compactionThreshold == compactionThreshold
    && c.mu == Free && c.worker == Idle && c.closing == NotClosing
    && (forall x :: x in c.writers ==> x < w && c.writers[x].pc == Written)
    && MemIs(c.mem, c.queue, shot.active, shot.size, shot.immutable) && DiskIs(c.disk, shot.l0, shot.l1)
    && c.wal == shot.writes
  }

  lemma {:induction false} SearchLevel(files: seq<Contents>, ids: seq<nat>, ls: seq<Contents>, k: Bytes)
    requires LevelIs(files, ids, ls)
    ensures SearchFiles(files, ids, k) == Newest(ls, k)
  {
    if ids != [] {
      SearchLevel(files, ids[..|ids| - 1], ls[..|ls| - 1], k);
    }
  }

  /** The machine's view is the snapshot's. */
  lemma ShownView(s: State, shot: S.Shot, flushThreshold: nat, compactionThreshold: nat, w: nat, k: Bytes)
    requires Shows(s, shot, flushThreshold, compactionThreshold, w) && WellFormed(s.core)
    ensures View(s.core, k) == S.ViewOf(shot, k)
  {
    var d := s.core.disk;
    var m := d.versions[d.current];
    var files := shot.l1 + shot.l0;
    assert LevelIs(d.files, m.Files(), files);
    SearchLevel(d.files, m.Files(), files, k);
    hide SearchFiles, WellFormed, LevelIs, Newest, Manifest.Files;
    var below := files + if shot.immutable.Some? then [shot.immutable.value] else [];
    S.TopOf(below, shot.active, k);
    if shot.immutable.Some? {
      S.TopOf(files, shot.immutable.value, k);
    } else {
      assert below == files;
    }
  }

  // ------------------------------------------------------- one step each

  /** NewDB. */
  lemma StartShown(shot: S.Shot, flushThreshold: nat, compactionThreshold: nat) returns (s: State)
    requires flushThreshold > 0 && compactionThreshold > 0
    requires S.IsFirst(shot)
    ensures Reachable(s) && Shows(s, shot, flushThreshold, compactionThreshold, 0)
  {
    s := State(
      Core(flushThreshold, compactionThreshold, Mem([shot.active], [shot.size], [false], 0, None),
          Disk([], [], [Manifest([], [])], 0), [], Free, Idle, NotClosing, false, [], map[], shot.writes),
      [0], map[], [], {});
    ReachInit(s);
    hide Reachable;
  }

  /** Put and Delete without the rotation. */
  lemma InsertShown(s: State, shot: S.Shot, ft: nat, ct: nat, w: nat, k: Bytes, v: Bytes) returns (s': State)
    requires Reachable(s) && Shows(s, shot, ft, ct, w)
    ensures Reachable(s') && Shows(s', S.Inserted(shot, k, v), ft, ct, w + 1)
  {
    hide Reachable, DiskIs;
    Puts(s, w, k, v);
    s' := WithCore(s, Stored1(s.core, w, k, v));
    ActiveIsNotImmutable(s);
  }

  lemma ActiveIsNotImmutable(s: State)
    requires Reachable(s)
    ensures s.core.mem.immutable.Some? && s.core.closing == NotClosing && s.core.mu == Free ==>
              s.core.mem.immutable.value != s.core.mem.active
  {
    var run: seq<State>, acts: seq<Action> :| IsRun(run, acts) && run[|acts|] == s;
    RunInv(run, acts, |acts|);
    hide IsRun, DiskInv, FileInv, WorkerInv, RefsInv, PurgesInv, TraceInv, PendingInv, ReadersInv;
  }

  /** CheckFlush. */
  lemma RotateShown(s: State, shot: S.Shot, ft: nat, ct: nat, w: nat) returns (s': State)
    requires Reachable(s) && Shows(s, shot, ft, ct, w)
    ensures Reachable(s') && Shows(s', S.Rotated(shot, ft), ft, ct, w)
  {
    hide Reachable, DiskIs;
    s' := s;
    if shot.size >= ft && shot.immutable == None {
      Rotates(s);
      s' := WithCore(s, Rotated(s.core));
    }
  }

  /** The flush of the worker's turn. */
  lemma FlushShown(s: State, shot: S.Shot, ft: nat, ct: nat, w: nat)
    requires Reachable(s) && Shows(s, shot, ft, ct, w) && shot.immutable.Some?
    ensures s.core.mem.immutable.Some?
    ensures var s' := Flushed(s, s.core.mem.immutable.value);
            && Reachable(s') && s'.core.worker == CompactionCheck(|shot.l0| + 1)
            && Shows(s'.(core := s'.core.(worker := Idle)), S.Flushed(shot), ft, ct, w)
  {
    hide Reachable;
    Flushes(s, s.core.mem.immutable.value);
  }

  lemma {:induction false} MergedIsUnion(files: seq<Contents>, ids: seq<nat>, ls: seq<Contents>)
    requires LevelIs(files, ids, ls)
    ensures MergedFiles(files, ids) == S.Union(ls)
  {
    if ids != [] {
      MergedIsUnion(files, ids[..|ids| - 1], ls[..|ls| - 1]);
    }
  }

  /** The compaction of the worker's turn. */
  lemma CompactShown(s: State, shot: S.Shot, ft: nat, ct: nat, w: nat)
    requires Reachable(s) && s.core.worker == CompactionCheck(|shot.l0|) && |shot.l0| >= ct
    requires Shows(s.(core := s.core.(worker := Idle)), shot, ft, ct, w)
    ensures Reachable(CompactedState(s)) && Shows(CompactedState(s), S.Merged(shot), ft, ct, w)
  {
    hide Reachable, MemIs, InRange, WellFormed;
    var d := s.core.disk;
    var l0 := d.versions[d.current].l0;
    Compacts(s);
    MergedIsUnion(d.files, l0, shot.l0);
    NothingRemains(l0, l0);
    hide MergedFiles, S.Union, BatchSpan, Remaining;
  }

  /** One turn of the flush worker. */
  lemma WorkShown(s: State, shot: S.Shot, ft: nat, ct: nat, w: nat) returns (s': State)
    requires Reachable(s) && Shows(s, shot, ft, ct, w)
    ensures Reachable(s') && Shows(s', S.AfterWork(shot, ct), ft, ct, w)
  {
    hide Reachable, MemIs, DiskIs, Flushed, CompactedState, InRange;
    s' := s;
    if shot.immutable.Some? {
      FlushShown(s, shot, ft, ct, w);
      s' := Flushed(s, s.core.mem.immutable.value);
      if |shot.l0| + 1 >= ct {
        CompactShown(s', S.Flushed(shot), ft, ct, w);
        s' := CompactedState(s');
      } else {
        var s1 := s';
        s' := s1.(core := s1.core.(worker := Idle));
        WorkerGoes(s1, s');
      }
    }
  }

  // ------------------------------------------------------------------ Close

  lemma CloseGoes(s: State, c: Core)
    requires Reachable(s) && Enabled(s, StepClose) && (InRange(s) ==> c == CloseStep(s.core))
    ensures Reachable(WithCore(s, c))
  {
    hide Reachable, InRange, CloseStep, Enabled;
    Go(s, StepClose, s.(core := c));
  }

  /** The last table, if it holds anything, is handed to the worker. */
  function HandedOff(c: Core): Core {
    var t := c.mem.active;
    if t < |c.mem.sizes| && c.mem.sizes[t] > 0
    then c.(mem := c.mem.(immutable := Some(t)), queue := [t], closing := SignalStop)
    else c.(closing := SignalStop)
  }

  lemma HandOffGoes(s: State)
    requires Reachable(s) && Quiet(s.core) && s.core.closing == NotClosing && s.core.queue == []
    requires s.core.mem.immutable == None && s.core.mem.active < |s.core.mem.tables| == |s.core.mem.sizes|
    ensures Reachable(WithCore(s, HandedOff(s.core)))
  {
    hide Reachable, InRange;
    var c, t := s.core, s.core.mem.active;
    var c1 := c.(mu := Closer, closing := WaitRoom(t));
    Go(s, BeginClose, WithCore(s, c1));
    if c.mem.sizes[t] > 0 {
      var c2 := c1.(mem := c.mem.(immutable := Some(t)), closing := SendFinal(t));
      CloseGoes(WithCore(s, c1), c2);
      CloseGoes(WithCore(s, c2), HandedOff(c));
    } else {
      CloseGoes(WithCore(s, c1), HandedOff(c));
    }
  }

  /** The worker writes what is queued and exits. */
  lemma DrainGoes(s: State) returns (s': State)
    requires Reachable(s) && s.core.worker == Drain && s.core.closing == Join && |s.core.queue| <= 1
    requires forall i :: 0 <= i < |s.core.queue| ==> s.core.queue[i] < |s.core.mem.tables|
    ensures Reachable(s') && s'.core.closing == Closed && s'.core.flushed == s.core.flushed + s.core.queue
  {
    hide Reachable, InRange;
    s' := s;
    if s.core.queue != [] {
      s' := s.(core := WriteL0(s.core, s.core.queue[0]).(queue := []));
      WorkerGoes(s, s');
    }
    var s1 := s';
    s' := s1.(core := s1.core.(worker := Exited));
    WorkerGoes(s1, s');
    s1 := s';
    s' := WithCore(s1, s1.core.(closing := Closed));
    CloseGoes(s1, s'.core);
  }

  /**
   A Close that begins between two calls, with nothing being flushed, returns, having written the last table if
   it holds data.
   */
  lemma CloseShown(s: State, shot: S.Shot, ft: nat, ct: nat, w: nat) returns (s': State)
    requires Reachable(s) && Shows(s, shot, ft, ct, w) && shot.immutable == None
    ensures Reachable(s') && s'.core.closing == Closed
    ensures s'.core.flushed == s.core.flushed + if shot.size > 0 then [s.core.mem.active] else []
  {
    hide Reachable, InRange, DiskIs;
    HandOffGoes(s);
    var c := HandedOff(s.core);
    var c1 := c.(stopped := true, closing := Join);
    CloseGoes(WithCore(s, c), c1);
    var s2 := WithCore(s, c1.(worker := Drain));
    Go(WithCore(s, c1), StopWorker, s2);
    s' := DrainGoes(s2);
  }

  // ------------------------------------------------------------ whole lives

  /** A Put or Delete, or a turn of the flush worker. */
  datatype Op = Write(key: Bytes, val: Bytes) | Work

  function AfterOp(shot: S.Shot, ft: nat, ct: nat, op: Op): S.Shot {
    match op
    case Write(k, v) => S.AfterPut(shot, ft, k, v)
    case Work => S.AfterWork(shot, ct)
  }

  function AfterOps(shot: S.Shot, ft: nat, ct: nat, ops: seq<Op>): S.Shot {
    if ops == [] then shot else AfterOp(AfterOps(shot, ft, ct, ops[..|ops| - 1]), ft, ct, ops[|ops| - 1])
  }

  lemma {:induction false} OpsShown(shot: S.Shot, ft: nat, ct: nat, ops: seq<Op>) returns (s: State, w: nat)
    requires ft > 0 && ct > 0
    requires S.IsFirst(shot)
    ensures Reachable(s) && Shows(s, AfterOps(shot, ft, ct, ops), ft, ct, w)
  {
    hide Reachable, Shows, S.Inserted, S.Rotated, S.AfterWork;
    w := 0;
    if ops == [] {
      s := StartShown(shot, ft, ct);
    } else {
      var before := AfterOps(shot, ft, ct, ops[..|ops| - 1]);
      s, w := OpsShown(shot, ft, ct, ops[..|ops| - 1]);
      match ops[|ops| - 1] {
        case Write(k, v) =>
          s := InsertShown(s, before, ft, ct, w, k, v);
          w := w + 1;
          s := RotateShown(s, S.Inserted(before, k, v), ft, ct, w);
        case Work =>
          s := WorkShown(s, before, ft, ct, w);
      }
    }
  }

  /**
   Whatever calls and worker turns follow on an opening, the snapshot they leave is that of a state some run of the step
   machine reaches, and both read alike: what holds of every run holds of the engine over real bytes.
   */
  lemma EveryStateIsReached(shot: S.Shot, ft: nat, ct: nat, ops: seq<Op>) returns (s: State)
    requires ft > 0 && ct > 0
    requires S.IsFirst(shot)
    ensures Reachable(s) && Quiet(s.core) && WellFormed(s.core)
    ensures forall k: Bytes :: View(s.core, k) == S.ViewOf(AfterOps(shot, ft, ct, ops), k)
    ensures s.core.wal == AfterOps(shot, ft, ct, ops).writes
  {
    var w;
    s, w := OpsShown(shot, ft, ct, ops);
    ReachableWellFormed(s);
    hide Reachable, AfterOps, WellFormed, MemIs, DiskIs, View, S.ViewOf;
    forall k: Bytes ensures View(s.core, k) == S.ViewOf(AfterOps(shot, ft, ct, ops), k) {
      ShownView(s, AfterOps(shot, ft, ct, ops), ft, ct, w, k);
    }
  }

  lemma ReachableWellFormed(s: State)
    requires Reachable(s)
    ensures WellFormed(s.core)
  {
    var run: seq<State>, acts: seq<Action> :| IsRun(run, acts) && run[|acts|] == s;
    RunInv(run, acts, |acts|);
    hide IsRun, CoreInv, WellFormed;
    CoreWellFormed(s.core);
  }
}
