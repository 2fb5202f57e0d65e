/** Runs that show where the engine's promises end (internal/engine/db.go:306-325, 431, compactor.go:165-182). */
module EngineLimits {
  import opened Options
  import opened ByteStrings
  import opened Layers
  import opened Engine
  import opened EngineSafety
  import opened EngineVersions
  import opened EngineLinear
  import opened EngineProtocol

  ghost predicate Reachable(s: State) {
    exists run: seq<State>, acts: seq<Action> :: IsRun(run, acts) && run[|acts|] == s
  }

  lemma ReachInit(s: State)
    requires Init(s)
    ensures Reachable(s)
  {
    var acts: seq<Action> := [];
    assert IsRun([s], acts) && [s][|acts|] == s;
  }

  lemma LongerRun(run: seq<State>, acts: seq<Action>, a: Action, s': State)
    requires IsRun(run, acts) && Steps(run[|acts|], a, s')
    ensures IsRun(run + [s'], acts + [a])
  {
    hide Steps, Init;
    var run', acts' := run + [s'], acts + [a];
    forall i | 0 <= i < |acts'| ensures Steps(run'[i], acts'[i], run'[i + 1]) {
      assert i < |acts| ==> Steps(run[i], acts[i], run[i + 1]);
    }
  }

  lemma Reach(s: State, a: Action)
    requires Reachable(s) && Enabled(s, a)
    ensures InRange(s) && Reachable(Apply(s, a))
  {
    hide Enabled, Inv, InRange, Apply;
    var run: seq<State>, acts: seq<Action> :| IsRun(run, acts) && run[|acts|] == s;
    hide IsRun;
    RunInv(run, acts, |acts|);
    InvInRange(s);
    LongerRun(run, acts, a, Apply(s, a));
    assert (run + [Apply(s, a)])[|acts + [a]|] == Apply(s, a);
  }

  /** One step to a state given outright. */
  lemma Go(s: State, a: Action, s': State)
    requires Reachable(s) && Enabled(s, a) && (InRange(s) ==> s' == Apply(s, a))
    ensures Reachable(s')
  {
    hide *;
    Reach(s, a);
  }

  // ------------------------------------------------------ steps of a writer

  lemma Begins(s: State, w: nat, k: Bytes, v: Bytes)
    requires Reachable(s) && w !in s.core.writers && s.core.closing == NotClosing
    ensures Reachable(s.(core := s.core.(writers := s.core.writers[w := Writer(k, v, AppendWal)])))
  {
    hide Reachable, InRange;
    Go(s, BeginPut(w, k, v), s.(core := s.core.(writers := s.core.writers[w := Writer(k, v, AppendWal)])));
  }

  lemma Appends(s: State, w: nat, k: Bytes, v: Bytes)
    requires Reachable(s) && w in s.core.writers && s.core.writers[w] == Writer(k, v, AppendWal)
    ensures Reachable(s.(core := s.core.(wal := s.core.wal + [(k, v)],
        writers := s.core.writers[w := Writer(k, v, LoadTable)])))
  {
    hide Reachable, WellFormed;
    Go(s, StepPut(w), s.(core := s.core.(wal := s.core.wal + [(k, v)],
        writers := s.core.writers[w := Writer(k, v, LoadTable)])));
  }

  lemma Loads(s: State, w: nat, k: Bytes, v: Bytes)
    requires Reachable(s) && w in s.core.writers && s.core.writers[w] == Writer(k, v, LoadTable)
    ensures Reachable(s.(core := s.core.(writers := s.core.writers[w := Writer(k, v, Insert(s.core.mem.active))])))
  {
    hide Reachable, WellFormed;
    Go(s, StepPut(w), s.(core := s.core.(writers := s.core.writers[w := Writer(k, v, Insert(s.core.mem.active))])));
  }

  lemma Stores(s: State, w: nat, k: Bytes, v: Bytes, t: nat)
    requires Reachable(s) && w in s.core.writers && s.core.writers[w] == Writer(k, v, Insert(t))
    requires t < |s.core.mem.tables| == |s.core.mem.sizes| == |s.core.mem.frozen| && !s.core.mem.frozen[t]
    ensures Reachable(s.(core := s.core.(mem := Store(s.core.mem, t, k, v),
        writers := s.core.writers[w := Writer(k, v, Written)])))
  {
    hide Reachable, Store, InRange;
    Go(s, StepPut(w), s.(core := s.core.(mem := Store(s.core.mem, t, k, v),
        writers := s.core.writers[w := Writer(k, v, Written)])));
  }

  // ------------------------------------------------ two writers on one key

  function Fresh(flushThreshold: nat, compactionThreshold: nat): State {
    State(
      Core(flushThreshold, compactionThreshold, Mem([map[]], [0], [false], 0, None),
          Disk([], [], [Manifest([], [])], 0),
        [], Free, Idle, NotClosing, false, [], map[], []),
      [0], map[], [], {})
  }

  lemma FreshReachable(flushThreshold: nat, compactionThreshold: nat)
    requires flushThreshold > 0 && compactionThreshold > 0
    ensures Reachable(Fresh(flushThreshold, compactionThreshold))
  {
    assert Replay([]) == map[];
    ReachInit(Fresh(flushThreshold, compactionThreshold));
  }

  function Two(writers: map<nat, Writer>, wal: seq<(Bytes, Bytes)>, m: Mem): State {
    var s := Fresh(1, 1);
    s.(core := s.core.(writers := writers, wal := wal, mem := m))
  }

  lemma Overtaken(k: Bytes, v: Bytes, u: Bytes)
    ensures var m := Store(Store(Mem([map[]], [0], [false], 0, None), 0, k, u), 0, k, v);
            && |m.tables| == |m.sizes| == |m.frozen| == 1 && m.tables[0] == map[k := v] && m.active == 0
                && m.immutable == None
    ensures var m := Store(Mem([map[]], [0], [false], 0, None), 0, k, u);
            |m.tables| == |m.sizes| == |m.frozen| == 1 && !m.frozen[0] && m.active == 0
    ensures At(Replay([(k, v), (k, u)]), k) == Some(u)
  {
    assert [(k, v), (k, u)][..1] == [(k, v)];
  }

  /**
   Two writers of one key may pass the log and the table in different orders: both Puts have returned, and replaying
   the log gives another value than the table holds.
   */
  lemma WritersOvertake(k: Bytes, v: Bytes, u: Bytes) returns (s: State)
    requires v != u
    ensures Reachable(s) && WellFormed(s.core)
    ensures forall w :: w in s.core.writers ==> s.core.writers[w].pc == Written
    ensures At(Replay(s.core.wal), k) == Some(u) && Stored(s.core, k) == Some(v)
  {
    hide *;
    FreshIsTwo();
    Overtaken(k, v, u);
    var m0 := Mem([map[]], [0], [false], 0, None);
    var m := Store(m0, 0, k, u);
    var ws: map<nat, Writer> := map[];
    var ws1 := ws[0 := Writer(k, v, AppendWal)];
    var ws2 := ws1[0 := Writer(k, v, LoadTable)];
    var ws3 := ws2[1 := Writer(k, u, AppendWal)];
    var ws4 := ws3[1 := Writer(k, u, LoadTable)];
    var ws5 := ws4[1 := Writer(k, u, Insert(0))];
    var ws6 := ws5[1 := Writer(k, u, Written)];
    var ws7 := ws6[0 := Writer(k, v, Insert(0))];
    var ws8 := ws7[0 := Writer(k, v, Written)];
    TwoBegins(ws, [], m0, 0, k, v);
    TwoAppends(ws1, [], m0, 0, k, v);
    var log := [] + [(k, v)];
    TwoBegins(ws2, log, m0, 1, k, u);
    TwoAppends(ws3, log, m0, 1, k, u);
    TwoLoads(ws4, log + [(k, u)], m0, 1, k, u);
    TwoStores(ws5, log + [(k, u)], m0, 1, k, u);
    TwoLoads(ws6, log + [(k, u)], m, 0, k, v);
    TwoStores(ws7, log + [(k, u)], m, 0, k, v);
    assert log + [(k, u)] == [(k, v), (k, u)];
    s := Two(ws8, [(k, v), (k, u)], Store(m, 0, k, v));
    TwoEnds(ws8, [(k, v), (k, u)], Store(m, 0, k, v), k, v);
  }

  lemma FreshIsTwo()
    ensures Reachable(Two(map[], [], Mem([map[]], [0], [false], 0, None)))
  {
    FreshReachable(1, 1);
    assert Fresh(1, 1) == Two(map[], [], Mem([map[]], [0], [false], 0, None));
    hide Reachable;
  }

  lemma TwoEnds(ws: map<nat, Writer>, log: seq<(Bytes, Bytes)>, m: Mem, k: Bytes, v: Bytes)
    requires |m.tables| == |m.sizes| == |m.frozen| == 1 && m.tables[0] == map[k := v] && m.active == 0
        && m.immutable == None
    ensures WellFormed(Two(ws, log, m).core) && Stored(Two(ws, log, m).core, k) == Some(v)
    ensures Two(ws, log, m).core.writers == ws && Two(ws, log, m).core.wal == log
  {
  }

  lemma TwoBegins(ws: map<nat, Writer>, log: seq<(Bytes, Bytes)>, m: Mem, w: nat, k: Bytes, v: Bytes)
    requires Reachable(Two(ws, log, m)) && w !in ws
    ensures Reachable(Two(ws[w := Writer(k, v, AppendWal)], log, m))
  {
    hide Reachable;
    Begins(Two(ws, log, m), w, k, v);
  }

  lemma TwoAppends(ws: map<nat, Writer>, log: seq<(Bytes, Bytes)>, m: Mem, w: nat, k: Bytes, v: Bytes)
    requires Reachable(Two(ws, log, m)) && w in ws && ws[w] == Writer(k, v, AppendWal)
    ensures Reachable(Two(ws[w := Writer(k, v, LoadTable)], log + [(k, v)], m))
  {
    hide Reachable;
    Appends(Two(ws, log, m), w, k, v);
  }

  lemma TwoLoads(ws: map<nat, Writer>, log: seq<(Bytes, Bytes)>, m: Mem, w: nat, k: Bytes, v: Bytes)
    requires Reachable(Two(ws, log, m)) && w in ws && ws[w] == Writer(k, v, LoadTable)
    ensures Reachable(Two(ws[w := Writer(k, v, Insert(m.active))], log, m))
  {
    hide Reachable;
    Loads(Two(ws, log, m), w, k, v);
  }

  lemma TwoStores(ws: map<nat, Writer>, log: seq<(Bytes, Bytes)>, m: Mem, w: nat, k: Bytes, v: Bytes)
    requires Reachable(Two(ws, log, m)) && w in ws && ws[w] == Writer(k, v, Insert(0))
    requires |m.tables| == |m.sizes| == |m.frozen| == 1 && !m.frozen[0]
    ensures Reachable(Two(ws[w := Writer(k, v, Written)], log, Store(m, 0, k, v)))
  {
    hide Reachable, Store;
    Stores(Two(ws, log, m), w, k, v, 0);
  }

  // --------------------------------------------- files deleted under a reader

  ghost predicate Removed(j: Purge, f: nat) {
    j.marked && j.removed <= |j.files| && f in j.files[..j.removed]
  }

  /** The files that are gone are those the purges have got round to. */
  ghost predicate GoneAreRemoved(purges: seq<Purge>, unlinked: set<nat>) {
    forall f :: f in unlinked <==> exists p :: 0 <= p < |purges| && Removed(purges[p], f)
  }

  lemma PurgeListStep(purges: seq<Purge>, unlinked: set<nat>, p: nat)
    requires GoneAreRemoved(purges, unlinked) && p < |purges|
    requires purges[p].marked ==> purges[p].removed < |purges[p].files|
    requires !purges[p].marked ==> purges[p].removed == 0
    ensures var j := purges[p];
            if j.marked then GoneAreRemoved(purges[p := j.(removed := j.removed + 1)], unlinked + {j.files[j.removed]})
            else GoneAreRemoved(purges[p := j.(marked := true)], unlinked)
  {
    var j := purges[p];
    var j' := if j.marked then j.(removed := j.removed + 1) else j.(marked := true);
    var purges', gone := purges[p := j'], if j.marked then {j.files[j.removed]} else {};
    forall f ensures Removed(j', f) <==> Removed(j, f) || f in gone {
      if j.marked {
        assert j.files[..j.removed + 1] == j.files[..j.removed] + [j.files[j.removed]];
      }
    }
    hide Removed;
    forall f ensures f in unlinked + gone <==> exists q :: 0 <= q < |purges'| && Removed(purges'[q], f) {
      if q :| 0 <= q < |purges| && Removed(purges[q], f) {
        assert Removed(purges'[q], f);
      }
      if q :| 0 <= q < |purges'| && Removed(purges'[q], f) {
        assert q != p ==> Removed(purges[q], f);
      }
      if f in gone {
        assert Removed(purges'[p], f);
      }
    }
    assert unlinked + {} == unlinked;
  }

  lemma PurgeListGrows(purges: seq<Purge>, unlinked: set<nat>, j: Purge)
    requires GoneAreRemoved(purges, unlinked) && !j.marked
    ensures GoneAreRemoved(purges + [j], unlinked)
  {
    forall f ensures f in unlinked <==> exists q :: 0 <= q < |purges + [j]| && Removed((purges + [j])[q], f) {
      if q :| 0 <= q < |purges| && Removed(purges[q], f) {
        assert Removed((purges + [j])[q], f);
      }
      if q :| 0 <= q < |purges + [j]| && Removed((purges + [j])[q], f) {
        assert Removed(purges[q], f);
      }
    }
  }

  /** The steps that touch the purges. */
  lemma PurgesChange(s: State, a: Action)
    requires InRange(s) && Enabled(s, a)
    ensures var s' := Apply(s, a);
            match a
            case StepPurge(p) => s' == PurgeStep(s, p)
            case StepWorker =>
              && s'.unlinked == s.unlinked
              && (s'.purges == s.purges || exists j: Purge :: !j.marked && s'.purges == s.purges + [j])
            case _ => s'.purges == s.purges && s'.unlinked == s.unlinked
  {
    hide InRange, WellFormed, WorkerCore, Look, Count, PutStep, RotationStep, CloseStep;
    if a.StepWorker? && s.core.worker.CompactPublish? {
      var j := Purge(s.core.worker.base, s.core.worker.batch, false, 0);
      assert !j.marked && Apply(s, a).purges == s.purges + [j];
    }
  }

  lemma GoneStep(s: State, a: Action)
    requires Inv(s) && InRange(s) && Enabled(s, a) && GoneAreRemoved(s.purges, s.unlinked)
    ensures GoneAreRemoved(Apply(s, a).purges, Apply(s, a).unlinked)
  {
    hide InRange, Inv, Apply, GoneAreRemoved, Enabled;
    PurgesChange(s, a);
    if a.StepPurge? {
      PurgeReady(s, a.p);
      PurgeListStep(s.purges, s.unlinked, a.p);
    }
    if a.StepWorker? && Apply(s, a).purges != s.purges {
      var j: Purge :| !j.marked && Apply(s, a).purges == s.purges + [j];
      PurgeListGrows(s.purges, s.unlinked, j);
    }
  }

  lemma PurgeReady(s: State, p: nat)
    requires Inv(s) && Enabled(s, StepPurge(p))
    ensures p < |s.purges| && (s.purges[p].marked ==> s.purges[p].removed < |s.purges[p].files|)
    ensures !s.purges[p].marked ==> s.purges[p].removed == 0
  {
    hide CoreInv, ReadersInv, RefsInv, TraceInv, PendingInv;
    assert PurgeOk(s.core.disk, s.refs, s.purges[p]);
  }

  lemma {:induction false} GoneRun(run: seq<State>, acts: seq<Action>, i: nat)
    requires IsRun(run, acts) && i < |run|
    ensures GoneAreRemoved(run[i].purges, run[i].unlinked)
  {
    hide InRange, Inv, Apply, Enabled, Steps;
    if i == 0 {
      assert run[0].purges == [] && run[0].unlinked == {};
    } else {
      GoneRun(run, acts, i - 1);
      RunParts(run, acts, i - 1);
      RunInv(run, acts, i - 1);
      GoneStep(run[i - 1], acts[i - 1]);
    }
  }

  /**
   When a Get fails to read a file: the reader is about to search a file of the version it holds that a purge has
   deleted, and that purge waited on a strictly newer version. In no other case does a Get meet a missing file.
   */
  lemma ReadErrorExactly(run: seq<State>, acts: seq<Action>, i: nat, r: nat, v: nat, left: nat)
    requires IsRun(run, acts) && i < |run| && r in run[i].readers && run[i].readers[r].pc == SearchFile(v, left)
        && left > 0
    ensures var s := run[i];
            && InRange(s) && left <= |s.core.disk.versions[v].Files()|
            && (Look(s, s.readers[r]).pc == Release(v, ReadError) <==>
                  exists p :: 0 <= p < |s.purges| && v < s.purges[p].v
                      && Removed(s.purges[p], s.core.disk.versions[v].Files()[left - 1]))
  {
    var s := run[i];
    RunInv(run, acts, i);
    InvInRange(s);
    GoneRun(run, acts, i);
    var f := s.core.disk.versions[v].Files()[left - 1];
    assert ReaderInRange(s, s.readers[r].pc);
    hide IsRun, CoreInv, Answer;
    if p :| 0 <= p < |s.purges| && Removed(s.purges[p], f) {
      HolderCounts(s, r, v);
      assert PurgeOk(s.core.disk, s.refs, s.purges[p]);
      PurgedBefore(s.core.disk, s.refs, s.purges[p], v, f);
    }
    hide Inv, InRange, PurgeOk;
  }

  // ------------------------------------------------ which Gets return an error

  /** The reader is about to search a file that has been deleted. */
  ghost predicate MeetsMissing(s: State, r: nat) {
    && r in s.readers && s.readers[r].pc.SearchFile?
    && var v, left := s.readers[r].pc.v, s.readers[r].pc.left;
       v < |s.core.disk.versions| && 0 < left <= |s.core.disk.versions[v].Files()|
       && s.core.disk.versions[v].Files()[left - 1] in s.unlinked
  }

  predicate Failed(pc: ReaderPc) {
    (pc.Release? || pc.Returned?) && pc.res == ReadError
  }

  /** A Get fails at no other statement than a look at a deleted file. */
  lemma FailStep(s: State, r: nat)
    requires InRange(s) && r in s.readers
    ensures Failed(Look(s, s.readers[r]).pc) ==> Failed(s.readers[r].pc) || MeetsMissing(s, r)
  {
    assert ReaderInRange(s, s.readers[r].pc);
    hide InRange;
  }

  lemma {:induction false} FailTrace(run: seq<State>, acts: seq<Action>, i: nat, j: nat, r: nat)
    requires IsRun(run, acts) && i <= j < |run| && r in run[i].readers && !Failed(run[i].readers[r].pc)
    ensures |run| == |acts| + 1 && r in run[j].readers
    ensures Failed(run[j].readers[r].pc) ==> exists m :: i <= m < j && MeetsMissing(run[m], r) && acts[m] == StepGet(r)
    decreases j
  {
    hide IsRun, InRange, Enabled, Apply, Look, MeetsMissing, Failed, Init;
    RunParts(run, acts, 0);
    if i < j {
      FailTrace(run, acts, i, j - 1, r);
      RunParts(run, acts, j - 1);
      ReaderAfter(run[j - 1], acts[j - 1], r);
      FailStep(run[j - 1], r);
    }
  }

  /** A Get that returns an error has met a deleted file; ReadErrorExactly says when that can be. */
  lemma ErrorMeansMissingFile(run: seq<State>, acts: seq<Action>, i: nat, j: nat, r: nat)
    requires IsRun(run, acts) && i <= j < |run| && r in run[i].readers && run[i].readers[r].pc == LoadActiveTable
    requires r in run[j].readers && run[j].readers[r].pc == Returned(ReadError)
    ensures |run| == |acts| + 1
    ensures exists m :: i <= m < j && MeetsMissing(run[m], r) && acts[m] == StepGet(r)
  {
    FailTrace(run, acts, i, j, r);
  }

  // ------------------------------------------- a Get that meets a deleted file

  function WithCore(s: State, c: Core): State {
    s.(core := c)
  }

  lemma RotationGoes(s: State, c: Core)
    requires Reachable(s) && s.core.mu.Rotating? && (s.core.mu.rot.Send? ==> s.core.queue == [])
    requires |s.core.mem.tables| == |s.core.mem.sizes| == |s.core.mem.frozen| && s.core.mem.active < |s.core.mem.tables|
    requires (!s.core.mu.rot.LoadActive? ==> s.core.mu.rot.t < |s.core.mem.tables|) && c == RotationStep(s.core)
    ensures Reachable(WithCore(s, c))
  {
    hide Reachable, InRange, RotationStep, NewTable;
    Go(s, StepRotation, s.(core := c));
  }

  /** CheckFlush from start to end. */
  function Rotated(c: Core): Core {
    var t := c.mem.active;
    if t < |c.mem.frozen|
    then c.(mem := NewTable(c.mem.(frozen := c.mem.frozen[t := true], immutable := Some(t))), queue := [t])
    else c
  }

  lemma Rotates(s: State)
    requires Reachable(s) && s.core.mu == Free && s.core.closing == NotClosing && s.core.queue == []
    requires |s.core.mem.tables| == |s.core.mem.sizes| == |s.core.mem.frozen| && s.core.mem.active < |s.core.mem.tables|
    requires s.core.mem.sizes[s.core.mem.active] >= s.core.flushThreshold && s.core.mem.immutable == None
    ensures Reachable(WithCore(s, Rotated(s.core)))
  {
    hide Reachable, InRange, NewTable;
    var c, t := s.core, s.core.mem.active;
    var c1 := c.(mu := Rotating(LoadActive));
    Go(s, BeginRotation, WithCore(s, c1));
    var c2 := c.(mu := Rotating(CheckRoom(t)));
    RotationGoes(WithCore(s, c1), c2);
    var c3 := c.(mu := Rotating(FreezeTable(t)));
    RotationGoes(WithCore(s, c2), c3);
    RotatesOn(s);
  }

  lemma RotatesOn(s: State)
    requires Reachable(WithCore(s, s.core.(mu := Rotating(FreezeTable(s.core.mem.active)))))
    requires s.core.mu == Free && s.core.queue == []
    requires |s.core.mem.tables| == |s.core.mem.sizes| == |s.core.mem.frozen| && s.core.mem.active < |s.core.mem.tables|
    ensures Reachable(WithCore(s, Rotated(s.core)))
  {
    hide Reachable, InRange;
    var c, t := s.core, s.core.mem.active;
    var m := c.mem.(frozen := c.mem.frozen[t := true]);
    var c3 := c.(mu := Rotating(FreezeTable(t)));
    var c4 := c.(mem := m, mu := Rotating(StoreImmutable(t)));
    RotationGoes(WithCore(s, c3), c4);
    var m' := m.(immutable := Some(t));
    var c5 := c.(mem := m', mu := Rotating(StoreActive(t)));
    RotationGoes(WithCore(s, c4), c5);
    var c6 := c.(mem := NewTable(m'), mu := Rotating(Send(t)));
    RotationGoes(WithCore(s, c5), c6);
    RotationGoes(WithCore(s, c6), Rotated(c));
  }

  /** Put from start to end, without the CheckFlush it may call. */
  function Stored1(c: Core, w: nat, k: Bytes, v: Bytes): Core {
    if |c.mem.tables| == |c.mem.sizes| && c.mem.active < |c.mem.tables|
    then c.(mem := Store(c.mem, c.mem.active, k, v), wal := c.wal + [(k, v)],
        writers := c.writers[w := Writer(k, v, Written)])
    else c
  }

  lemma Puts(s: State, w: nat, k: Bytes, v: Bytes)
    requires Reachable(s) && w !in s.core.writers && s.core.closing == NotClosing
    requires |s.core.mem.tables| == |s.core.mem.sizes| == |s.core.mem.frozen| && s.core.mem.active < |s.core.mem.tables|
    requires !s.core.mem.frozen[s.core.mem.active]
    ensures Reachable(WithCore(s, Stored1(s.core, w, k, v)))
  {
    hide Reachable, Store;
    var c := s.core;
    var log := c.wal + [(k, v)];
    Begins(s, w, k, v);
    var c1 := c.(writers := c.writers[w := Writer(k, v, AppendWal)]);
    Appends(s.(core := c1), w, k, v);
    var c2 := c.(wal := log, writers := c.writers[w := Writer(k, v, LoadTable)]);
    assert c1.writers[w := Writer(k, v, LoadTable)] == c2.writers;
    Loads(s.(core := c2), w, k, v);
    var c3 := c.(wal := log, writers := c.writers[w := Writer(k, v, Insert(c.mem.active))]);
    assert c2.writers[w := Writer(k, v, Insert(c.mem.active))] == c3.writers;
    Stores(s.(core := c3), w, k, v, c.mem.active);
    assert c3.writers[w := Writer(k, v, Written)] == Stored1(c, w, k, v).writers;
  }

  lemma WorkerGoes(s: State, s': State)
    requires Reachable(s) && Enabled(s, StepWorker)
    requires InRange(s) ==> s' == WorkerStep(s)
    ensures Reachable(s')
  {
    hide Reachable, InRange, WorkerStep, Enabled;
    Go(s, StepWorker, s');
  }

  /** The worker's turn from taking table t off the queue to the check whether to compact. */
  function Flushed(s: State, t: nat): State {
    var c := s.core;
    if t < |c.mem.tables| && c.disk.current < |c.disk.versions|
    then
      var f := |c.disk.files|;
      var m := c.disk.versions[c.disk.current];
      s.(core := c.(queue := [], mem := c.mem.(immutable := None), flushed := c.flushed + [t],
                    disk := AddVersion(AddFile(c.disk, c.mem.tables[t], Span(t, t + 1)), Manifest(m.l0 + [f], m.l1)),
                    worker := CompactionCheck(|m.l0| + 1)),
         refs := s.refs + [0])
    else s
  }

  lemma Flushes(s: State, t: nat)
    requires Reachable(s) && s.core.worker == Idle && s.core.queue == [t] && t < |s.core.mem.tables|
        && s.core.mu == Free
    requires s.core.disk.current < |s.core.disk.versions| && |s.core.disk.spans| == |s.core.disk.files|
    ensures Reachable(Flushed(s, t))
  {
    hide Reachable, InRange;
    var c := s.core;
    var f := |c.disk.files|;
    var c1 := c.(queue := [], worker := Flush(t));
    WorkerGoes(s, s.(core := c1));
    var c2 := c.(queue := [], disk := AddFile(c.disk, c.mem.tables[t], Span(t, t + 1)), flushed := c.flushed + [t],
        worker := LoadOld(t, f));
    WorkerGoes(s.(core := c1), s.(core := c2));
    var c3 := c2.(worker := Publish(t, f, c.disk.current));
    WorkerGoes(s.(core := c2), s.(core := c3));
    FlushEnds(s, t, c3);
  }

  lemma FlushEnds(s: State, t: nat, c: Core)
    requires t < |s.core.mem.tables| && s.core.disk.current < |s.core.disk.versions|
        && |s.core.disk.spans| == |s.core.disk.files| && s.core.mu == Free
    requires Reachable(s.(core := c))
    requires c == s.core.(queue := [], disk := AddFile(s.core.disk, s.core.mem.tables[t], Span(t, t + 1)),
        flushed := s.core.flushed + [t],
                          worker := Publish(t, |s.core.disk.files|, s.core.disk.current))
    ensures Reachable(Flushed(s, t))
  {
    hide Reachable, InRange;
    var m := s.core.disk.versions[s.core.disk.current];
    var d := AddVersion(c.disk, m.(l0 := m.l0 + [|s.core.disk.files|]));
    var s4 := s.(core := c.(disk := d, worker := ClearImmutable(t, |m.l0| + 1)), refs := s.refs + [0]);
    WorkerGoes(s.(core := c), s4);
    WorkerGoes(s4, Flushed(s, t));
  }

  /** The worker's turn over a compaction of level 0, with nothing flushed meanwhile. */
  function CompactedState(s: State): State {
    var c := s.core;
    if c.disk.current < |c.disk.versions|
       && forall i :: 0 <= i < |c.disk.versions[c.disk.current].l0| ==>
           c.disk.versions[c.disk.current].l0[i] < |c.disk.files| == |c.disk.spans|
    then
      var m := c.disk.versions[c.disk.current];
      var f := |c.disk.files|;
      s.(core := c.(disk := AddVersion(AddFile(c.disk, CompactedFile(c.disk.files, m.l0),
          BatchSpan(c.disk.spans, m.l0)), Manifest(Remaining(m.l0, m.l0), m.l1 + [f])),
                    worker := Idle),
         refs := s.refs + [0], purges := s.purges + [Purge(c.disk.current, m.l0, false, 0)])
    else s
  }

  lemma Compacts(s: State)
    requires Reachable(s) && s.core.worker.CompactionCheck? && s.core.worker.l0Count >= s.core.compactionThreshold
    requires s.core.disk.current < |s.core.disk.versions| && |s.core.disk.files| == |s.core.disk.spans|
    requires |s.core.disk.versions[s.core.disk.current].l0| >= s.core.compactionThreshold
    requires forall i :: 0 <= i < |s.core.disk.versions[s.core.disk.current].l0| ==>
        s.core.disk.versions[s.core.disk.current].l0[i] < |s.core.disk.files|
    ensures Reachable(CompactedState(s))
  {
    hide Reachable, InRange, CompactedFile, BatchSpan, Remaining;
    var c := s.core;
    var batch, f := c.disk.versions[c.disk.current].l0, |c.disk.files|;
    var c1 := c.(worker := CompactLoad);
    WorkerGoes(s, s.(core := c1));
    var c2 := c.(worker := CompactWrite(c.disk.current));
    WorkerGoes(s.(core := c1), s.(core := c2));
    var c3 := c.(disk := AddFile(c.disk, CompactedFile(c.disk.files, batch), BatchSpan(c.disk.spans, batch)),
        worker := CompactReload(batch, f));
    WorkerGoes(s.(core := c2), s.(core := c3));
    var c4 := c3.(worker := CompactPublish(batch, f, c.disk.current));
    WorkerGoes(s.(core := c3), s.(core := c4));
    WorkerGoes(s.(core := c4), CompactedState(s));
  }

  lemma ReaderGoes(s: State, r: nat, x: Reader, refs: seq<int>)
    requires Reachable(s) && r in s.readers && !s.readers[r].pc.Returned?
    requires InRange(s) ==> x == Look(s, s.readers[r]) && refs == Count(s.refs, s.readers[r].pc)
    ensures Reachable(s.(readers := s.readers[r := x], refs := refs))
  {
    hide Reachable, InRange, Look, Count;
    Go(s, StepGet(r), s.(readers := s.readers[r := x], refs := refs));
  }

  /** The states of one Get that misses both tables and pins version v. */
  function Reading(s: State, r: nat, x: Reader): State {
    s.(readers := s.readers[r := x])
  }

  lemma ReaderMoves(s: State, r: nat, x: Reader, x': Reader)
    requires Reachable(Reading(s, r, x)) && !x.pc.Returned? && !x.pc.CasRefs? && !x.pc.Release?
    requires InRange(Reading(s, r, x)) && ReaderInRange(Reading(s, r, x), x.pc) ==> x' == Look(Reading(s, r, x), x)
    ensures Reachable(Reading(s, r, x'))
  {
    assert InRange(Reading(s, r, x)) ==> ReaderInRange(Reading(s, r, x), Reading(s, r, x).readers[r].pc);
    hide Reachable, InRange, Look, ReaderInRange;
    ReaderGoes(Reading(s, r, x), r, x', s.refs);
    assert s.readers[r := x][r := x'] == s.readers[r := x'];
  }

  lemma Pins(s: State, r: nat, k: Bytes, t: nat, v: nat)
    requires Reachable(s) && r !in s.readers
    requires s.core.mem.active == t < |s.core.mem.tables| && k !in s.core.mem.tables[t] && s.core.mem.immutable == None
    requires s.core.disk.current == v < |s.core.disk.versions| == |s.refs| && s.refs[v] == 0
    ensures Reachable(Reading(s, r, Reader(k, SearchFile(v, |s.core.disk.versions[v].Files()|),
        t)).(refs := s.refs[v := 1]))
  {
    hide Reachable, InRange, WellFormed;
    Go(s, BeginGet(r, k), Reading(s, r, Reader(k, LoadActiveTable, 0)));
    ReaderMoves(s, r, Reader(k, LoadActiveTable, 0), Reader(k, SearchActive(t), t));
    ReaderMoves(s, r, Reader(k, SearchActive(t), t), Reader(k, LoadImmutable, t));
    ReaderMoves(s, r, Reader(k, LoadImmutable, t), Reader(k, LoadVersion, t));
    ReaderMoves(s, r, Reader(k, LoadVersion, t), Reader(k, LoadRefs(v), t));
    ReaderMoves(s, r, Reader(k, LoadRefs(v), t), Reader(k, CasRefs(v, 0), t));
    var x := Reader(k, SearchFile(v, |s.core.disk.versions[v].Files()|), t);
    ReaderGoes(Reading(s, r, Reader(k, CasRefs(v, 0), t)), r, x, s.refs[v := 1]);
    assert s.readers[r := Reader(k, CasRefs(v, 0), t)][r := x] == s.readers[r := x];
  }

  // One key, flushed in two files, both compacted while a reader still holds the manifest that lists the first alone.

  const K: Bytes := [1]
  const OTHER: Bytes := [2]
  const T: Contents := map[K := [1]]
  const ENTRY: Writer := Writer(K, [1], Written)

  function OneFile(worker: Worker): State {
    State(
      Core(1, 2, Mem([T, map[]], [2, 0], [true, false], 1, None),
          Disk([T], [Span(0, 1)], [Manifest([], []), Manifest([0], [])], 1),
        [], Free, worker, NotClosing, false, [0], map[0 := ENTRY], [(K, [1])]),
      [0, 0], map[], [], {})
  }

  function InTables(tables: seq<Contents>, sizes: seq<nat>, frozen: seq<bool>, active: nat, immutable: Option<nat>,
                    d: Disk, queue: seq<nat>,
                    flushed: seq<nat>, writers: map<nat, Writer>, log: seq<(Bytes, Bytes)>): Core {
    Core(1, 2, Mem(tables, sizes, frozen, active, immutable), d, queue, Free, Idle, NotClosing, false, flushed,
        writers, log)
  }

  lemma ReachPut()
    ensures Reachable(State(InTables([T], [2], [false], 0, None, Disk([], [], [Manifest([], [])], 0), [], [],
        map[0 := ENTRY], [(K, [1])]), [0], map[], [], {}))
  {
    hide Reachable, InRange;
    FreshReachable(1, 2);
    Puts(Fresh(1, 2), 0, K, [1]);
    var m := Store(Mem([map[]], [0], [false], 0, None), 0, K, [1]);
    assert m.tables == [T] && m.sizes == [2] && [] + [(K, [1])] == [(K, [1])];
  }

  lemma ReachRotation()
    ensures Reachable(State(InTables([T, map[]], [2, 0], [true, false], 1, Some(0),
        Disk([], [], [Manifest([], [])], 0), [0], [], map[0 := ENTRY], [(K, [1])]),
                            [0], map[], [], {}))
  {
    hide Reachable, InRange;
    ReachPut();
    assert [T] + [map[]] == [T, map[]] && [2] + [0] == [2, 0] && [false][0 := true] + [false] == [true, false];
    Rotates(State(InTables([T], [2], [false], 0, None, Disk([], [], [Manifest([], [])], 0), [], [], map[0 := ENTRY],
        [(K, [1])]), [0], map[], [], {}));
  }

  lemma ReachOneFile()
    ensures Reachable(OneFile(Idle))
  {
    hide Reachable, InRange;
    ReachRotation();
    var s := State(InTables([T, map[]], [2, 0], [true, false], 1, Some(0), Disk([], [], [Manifest([], [])], 0), [0],
        [], map[0 := ENTRY], [(K, [1])]),
                   [0], map[], [], {});
    Flushes(s, 0);
    assert [Manifest([], [])] + [Manifest([0], [])] == [Manifest([], []), Manifest([0], [])] && [0] + [0] == [0, 0]
        && [] + [0] == [0];
    assert [] + [T] == [T] && [] + [Span(0, 1)] == [Span(0, 1)];
    assert Flushed(s, 0) == OneFile(CompactionCheck(1));
    WorkerGoes(OneFile(CompactionCheck(1)), OneFile(Idle));
  }

  /** The reader holds the manifest of the first file. */
  function Pinned(): State {
    Reading(OneFile(Idle), 0, Reader(OTHER, SearchFile(1, 1), 1)).(refs := [0, 1])
  }

  lemma ReachPinned()
    ensures Reachable(Pinned())
  {
    hide Reachable, InRange;
    ReachOneFile();
    Pins(OneFile(Idle), 0, OTHER, 1, 1);
    assert OneFile(Idle).refs[1 := 1] == [0, 1];
  }

  function Later(tables: seq<Contents>, sizes: seq<nat>, frozen: seq<bool>, active: nat, immutable: Option<nat>,
                 queue: seq<nat>): State {
    WithCore(Pinned(),
      InTables(tables, sizes, frozen, active, immutable, OneFile(Idle).core.disk, queue, [0],
          map[0 := ENTRY, 1 := ENTRY], [(K, [1]), (K, [1])]))
  }

  lemma ReachSecondPut()
    ensures Reachable(Later([T, T], [2, 2], [true, false], 1, None, []))
  {
    hide Reachable, InRange;
    ReachPinned();
    Puts(Pinned(), 1, K, [1]);
    assert [(K, [1])] + [(K, [1])] == [(K, [1]), (K, [1])] && [T, map[]][1 := T] == [T, T] && [2, 0][1 := 2] == [2, 2];
    assert map[0 := ENTRY][1 := ENTRY] == map[0 := ENTRY, 1 := ENTRY];
  }

  lemma ReachSecondRotation()
    ensures Reachable(Later([T, T, map[]], [2, 2, 0], [true, true, false], 2, Some(1), [1]))
  {
    hide Reachable, InRange;
    ReachSecondPut();
    assert [T, T] + [map[]] == [T, T, map[]] && [2, 2] + [0] == [2, 2, 0]
        && [true, false][1 := true] + [false] == [true, true, false];
    Rotates(Later([T, T], [2, 2], [true, false], 1, None, []));
  }

  function TwoFiles(): State {
    State(
      InTables([T, T, map[]], [2, 2, 0], [true, true, false], 2, None,
        Disk([T, T], [Span(0, 1), Span(1, 2)], [Manifest([], []), Manifest([0], []), Manifest([0, 1], [])], 2),
        [], [0, 1], map[0 := ENTRY, 1 := ENTRY], [(K, [1]), (K, [1])]).(worker := CompactionCheck(2)),
      [0, 1, 0], map[0 := Reader(OTHER, SearchFile(1, 1), 1)], [], {})
  }

  lemma ReachTwoFiles()
    ensures Reachable(TwoFiles())
  {
    hide Reachable, InRange;
    ReachSecondRotation();
    var s := Later([T, T, map[]], [2, 2, 0], [true, true, false], 2, Some(1), [1]);
    Flushes(s, 1);
    assert [T] + [T] == [T, T] && [Span(0, 1)] + [Span(1, 2)] == [Span(0, 1), Span(1, 2)] && [0] + [1] == [0, 1]
        && [0, 1] + [0] == [0, 1, 0];
    assert [Manifest([], []), Manifest([0], [])] + [Manifest([0, 1], [])]
        == [Manifest([], []), Manifest([0], []), Manifest([0, 1], [])];
    assert Flushed(s, 1) == TwoFiles();
  }

  /** After the compaction and the first two steps of the purge it started. */
  lemma ReachDeleted() returns (s: State)
    ensures Reachable(s) && s.unlinked == {0} && s.readers == TwoFiles().readers
    ensures |s.core.disk.versions| == 4 && s.core.disk.versions[1] == Manifest([0], [])
  {
    hide Reachable, InRange, CompactedFile, BatchSpan, Remaining;
    ReachTwoFiles();
    Compacts(TwoFiles());
    var s1 := CompactedState(TwoFiles());
    var j := Purge(2, [0, 1], false, 0);
    assert s1.purges == [j] && s1.refs == [0, 1, 0, 0];
    var s2 := s1.(refs := [0, 1, -1, 0], purges := [j.(marked := true)]);
    Go(s1, StepPurge(0), s2);
    s := s2.(unlinked := {0}, purges := [Purge(2, [0, 1], true, 1)]);
    Go(s2, StepPurge(0), s);
  }

  /**
   The purge waits for the readers of one version only. A reader that pinned an earlier version, which still lists the
   file, meets it deleted: its Get returns an error.
   */
  lemma GetMeetsDeletedFile() returns (s: State)
    ensures Reachable(s) && 0 in s.readers && s.readers[0].pc == Returned(ReadError)
  {
    hide Reachable, InRange, WellFormed;
    var s0 := ReachDeleted();
    var x := s0.readers[0];
    var x1 := x.(pc := Release(1, ReadError));
    assert s0.core.disk.versions[1].Files() == [0];
    ReaderGoes(s0, 0, x1, s0.refs);
    var s1 := s0.(readers := s0.readers[0 := x1]);
    var x2 := x.(pc := Returned(ReadError));
    var refs := Count(s1.refs, x1.pc);
    ReaderGoes(s1, 0, x2, refs);
    s := s1.(readers := s1.readers[0 := x2], refs := refs);
  }
}
