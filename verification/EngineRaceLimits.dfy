/**
 Where a compaction beside the flush worker does harm (internal/engine/db.go:134-137, 384-492): runs in which the
 worker's own compaction failed once, so that level 0 is full while the worker flushes.
 */
module EngineRaceLimits {
  import opened Options
  import opened ByteStrings
  import opened Layers
  import opened Engine
  import opened EngineSafety
  import opened EngineVersions
  import opened EngineLimits
  import opened EngineRace

  /** A run in which no swap was stale, and its last state. */
  ghost predicate Ends(run: seq<Race>, turns: seq<Turn>, r: Race) {
    IsRace(run, turns) && InTime(run, turns, |turns|) && run[|turns|] == r
  }

  ghost predicate OnTime(r: Race) {
    exists run: seq<Race>, turns: seq<Turn> :: Ends(run, turns, r)
  }

  lemma LongerRace(run: seq<Race>, turns: seq<Turn>, r: Race, t: Turn, r': Race)
    requires Ends(run, turns, r) && Turns(r, t, r') && !Stale(r, t)
    ensures Ends(run + [r'], turns + [t], r')
  {
    hide Turns, Init, Stale;
    var run', turns' := run + [r'], turns + [t];
    forall i | 0 <= i < |turns'| ensures Turns(run'[i], turns'[i], run'[i + 1]) && !Stale(run'[i], turns'[i]) {
      assert i < |turns| ==> Turns(run[i], turns[i], run[i + 1]);
    }
  }

  lemma EndInRange(run: seq<Race>, turns: seq<Turn>, r: Race)
    requires Ends(run, turns, r)
    ensures RaceInRange(r)
  {
    RaceRun(run, turns, |turns|);
    RaceRanges(r);
    hide *;
  }

  lemma OnTimeInRange(r: Race)
    requires OnTime(r)
    ensures RaceInRange(r)
  {
    hide Ends, RaceInRange;
    var run: seq<Race>, turns: seq<Turn> :| Ends(run, turns, r);
    EndInRange(run, turns, r);
  }

  /** One turn to a state given outright. */
  lemma RaceGoes(r: Race, t: Turn, r': Race)
    requires OnTime(r) && MayTurn(r, t) && !Stale(r, t) && (RaceInRange(r) ==> r' == Turned(r, t))
    ensures OnTime(r')
  {
    hide MayTurn, Stale, RaceInRange, Turned, Ends;
    var run: seq<Race>, turns: seq<Turn> :| Ends(run, turns, r);
    EndInRange(run, turns, r);
    LongerRace(run, turns, r, t, r');
  }

  /** A run of the engine alone is a run beside an idle TriggerCompaction. */
  lemma AloneIsRace(run: seq<State>, acts: seq<Action>, races: seq<Race>, turns: seq<Turn>)
    requires IsRun(run, acts) && |races| == |run| && |turns| == |acts|
    requires forall i :: 0 <= i < |run| ==> races[i] == Race(run[i], Idle)
    requires forall i :: 0 <= i < |acts| ==> turns[i] == Inside(acts[i])
    ensures IsRace(races, turns) && InTime(races, turns, |turns|)
  {
    hide InRange, Enabled, Apply, Init, Inv;
    forall i | 0 <= i < |turns| ensures Turns(races[i], turns[i], races[i + 1]) && !Stale(races[i], turns[i]) {
      RunInv(run, acts, i);
      RunParts(run, acts, i);
      AloneTurn(run[i], acts[i], run[i + 1]);
    }
    RunParts(run, acts, 0);
  }

  lemma AloneTurn(s: State, a: Action, s': State)
    requires Inv(s) && InRange(s) && Enabled(s, a) && s' == Apply(s, a)
    ensures Turns(Race(s, Idle), Inside(a), Race(s', Idle)) && !Stale(Race(s, Idle), Inside(a))
  {
    hide InRange, Enabled, Apply, CoreInv, ReadersInv, RefsInv, PurgesInv, TraceInv, PendingInv;
    WorkerRanges(s, Idle);
    WorkerHoldsCurrent(s.core);
  }

  lemma AloneOnTime(s: State)
    requires Reachable(s)
    ensures OnTime(Race(s, Idle))
  {
    var run: seq<State>, acts: seq<Action> :| IsRun(run, acts) && run[|acts|] == s;
    RunParts(run, acts, 0);
    hide IsRun, IsRace, InTime;
    var races := seq(|run|, i requires 0 <= i < |run| => Race(run[i], Idle));
    var turns := seq(|acts|, i requires 0 <= i < |acts| => Inside(acts[i]));
    AloneIsRace(run, acts, races, turns);
    assert Ends(races, turns, Race(s, Idle));
  }

  // ----------------------------------------- a full level 0 and a flush under way

  const LATE: Bytes := [3]
  const T3: Contents := map[LATE := [1]]
  const BOTH: seq<Manifest> := [Manifest([], []), Manifest([0], []), Manifest([0, 1], [])]

  /** Two files on level 0 and nobody compacts them, because the worker's compaction failed. */
  function Full(worker: Worker): State {
    TwoFiles().(core := TwoFiles().core.(worker := worker))
  }

  lemma ReachFull()
    ensures Reachable(Full(Idle))
  {
    hide Reachable, InRange;
    ReachTwoFiles();
    WorkerGoes(TwoFiles(), Full(CompactLoad));
    WorkerGoes(Full(CompactLoad), Full(CompactWrite(2)));
    Go(Full(CompactWrite(2)), FailCompaction, Full(Idle));
  }

  /** The engine after a Put of LATE and a rotation, with the given disk and threads. */
  function LateState(immutable: Option<nat>, d: Disk, queue: seq<nat>, worker: Worker, flushed: seq<nat>,
      refs: seq<int>,
                     purges: seq<Purge>, unlinked: set<nat>): State {
    State(
      Core(1, 2, Mem([T, T, T3, map[]], [2, 2, 2, 0], [true, true, true, false], 3, immutable), d, queue, Free, worker,
        NotClosing, false, flushed, map[0 := ENTRY, 1 := ENTRY, 2 := Writer(LATE, [1], Written)],
        [(K, [1]), (K, [1]), (LATE, [1])]),
      refs, map[0 := Reader(OTHER, SearchFile(1, 1), 1)], purges, unlinked)
  }

  lemma ReachLatePut()
    ensures Reachable(WithCore(Full(Idle), Stored1(Full(Idle).core, 2, LATE, [1])))
  {
    hide Reachable, InRange;
    ReachFull();
    Puts(Full(Idle), 2, LATE, [1]);
  }

  lemma LatePutIs()
    ensures var c := Stored1(Full(Idle).core, 2, LATE, [1]);
            && c.mem == Mem([T, T, T3], [2, 2, 2], [true, true, false], 2, None)
            && c.wal == [(K, [1]), (K, [1]), (LATE, [1])]
            && c.writers == map[0 := ENTRY, 1 := ENTRY, 2 := Writer(LATE, [1], Written)]
  {
    assert [T, T, map[]][2 := T3] == [T, T, T3] && [2, 2, 0][2 := 2] == [2, 2, 2];
    assert [(K, [1]), (K, [1])] + [(LATE, [1])] == [(K, [1]), (K, [1]), (LATE, [1])];
    assert map[0 := ENTRY, 1 := ENTRY][2 := Writer(LATE, [1], Written)]
        == map[0 := ENTRY, 1 := ENTRY, 2 := Writer(LATE, [1], Written)];
  }

  const TWO: Disk := Disk([T, T], [Span(0, 1), Span(1, 2)], BOTH, 2)
  const THREE: Disk := Disk([T, T, T3], [Span(0, 1), Span(1, 2), Span(2, 3)], BOTH, 2)

  lemma ReachLateRotation()
    ensures Reachable(LateState(Some(2), TWO, [2], Idle, [0, 1], [0, 1, 0], [], {}))
  {
    hide Reachable, InRange;
    ReachLatePut();
    LatePutIs();
    var s := WithCore(Full(Idle), Stored1(Full(Idle).core, 2, LATE, [1]));
    assert [T, T, T3] + [map[]] == [T, T, T3, map[]] && [2, 2, 2] + [0] == [2, 2, 2, 0]
        && [true, true, false][2 := true] + [false] == [true, true, true, false];
    Rotates(s);
    assert WithCore(s, Rotated(s.core)) == LateState(Some(2), TWO, [2], Idle, [0, 1], [0, 1, 0], [], {});
  }

  /** The worker has written the third file. */
  lemma ReachWritten()
    ensures OnTime(Race(LateState(Some(2), THREE, [], LoadOld(2, 2), [0, 1, 2], [0, 1, 0], [], {}), Idle))
  {
    hide Reachable, InRange;
    ReachLateRotation();
    var s1 := LateState(Some(2), TWO, [], Flush(2), [0, 1], [0, 1, 0], [], {});
    WorkerGoes(LateState(Some(2), TWO, [2], Idle, [0, 1], [0, 1, 0], [], {}), s1);
    assert [T, T] + [T3] == [T, T, T3] && [0, 1] + [2] == [0, 1, 2];
    assert [Span(0, 1), Span(1, 2)] + [Span(2, 3)] == [Span(0, 1), Span(1, 2), Span(2, 3)];
    var s2 := LateState(Some(2), THREE, [], LoadOld(2, 2), [0, 1, 2], [0, 1, 0], [], {});
    WorkerGoes(s1, s2);
    AloneOnTime(s2);
  }

  const FOUR: Disk := Disk([T, T, T3, T], [Span(0, 1), Span(1, 2), Span(2, 3), Span(0, 2)], BOTH, 2)

  lemma MergedTwo()
    ensures WriteL1(LateState(Some(2), THREE, [], LoadOld(2, 2), [0, 1, 2], [0, 1, 0], [], {}).core, [0, 1]).disk
        == FOUR
  {
    var files := THREE.files;
    assert [0, 1][..1] == [0] && [0][..0] == [];
    assert MergedFiles(files, [0]) == MergedFiles(files, []) + T == T;
    assert MergedFiles(files, [0, 1]) == T + T == T;
    assert K[0] != 0;
    assert T - {[]} == T;
    assert [T, T, T3] + [T] == [T, T, T3, T];
    assert [Span(0, 1), Span(1, 2), Span(2, 3)] + [Span(0, 2)] == [Span(0, 1), Span(1, 2), Span(2, 3), Span(0, 2)];
  }

  lemma ReachChosen()
    ensures OnTime(Race(LateState(Some(2), THREE, [], LoadOld(2, 2), [0, 1, 2], [0, 1, 0], [], {}), CompactWrite(2)))
  {
    hide InRange, OnTime, BatchSpan, CompactedFile;
    ReachWritten();
    var s := LateState(Some(2), THREE, [], LoadOld(2, 2), [0, 1, 2], [0, 1, 0], [], {});
    RaceGoes(Race(s, Idle), Lock, Race(s, CompactLoad));
    RaceGoes(Race(s, CompactLoad), Advance, Race(s, CompactWrite(2)));
  }

  /** An outside compaction has merged the first two files and loaded the version it will replace. */
  lemma ReachMerged()
    ensures OnTime(Race(LateState(Some(2), FOUR, [], LoadOld(2, 2), [0, 1, 2], [0, 1, 0], [], {}),
        CompactPublish([0, 1], 3, 2)))
  {
    hide InRange, OnTime, BatchSpan, CompactedFile;
    ReachChosen();
    MergedTwo();
    var s := LateState(Some(2), THREE, [], LoadOld(2, 2), [0, 1, 2], [0, 1, 0], [], {});
    var s' := LateState(Some(2), FOUR, [], LoadOld(2, 2), [0, 1, 2], [0, 1, 0], [], {});
    RaceGoes(Race(s, CompactWrite(2)), Advance, Race(s', CompactReload([0, 1], 3)));
    RaceGoes(Race(s', CompactReload([0, 1], 3)), Advance, Race(s', CompactPublish([0, 1], 3, 2)));
  }

  /** And the worker has loaded the same version. */
  lemma ReachBothLoaded()
    ensures OnTime(Race(LateState(Some(2), FOUR, [], Publish(2, 2, 2), [0, 1, 2], [0, 1, 0], [], {}),
        CompactPublish([0, 1], 3, 2)))
  {
    hide InRange, OnTime;
    ReachMerged();
    var out := CompactPublish([0, 1], 3, 2);
    RaceGoes(Race(LateState(Some(2), FOUR, [], LoadOld(2, 2), [0, 1, 2], [0, 1, 0], [], {}), out), Inside(StepWorker),
             Race(LateState(Some(2), FOUR, [], Publish(2, 2, 2), [0, 1, 2], [0, 1, 0], [], {}), out));
  }

  // ------------------------------------------------------- the flush swaps first

  const FLUSHED: Disk := FOUR.(versions := BOTH + [Manifest([0, 1, 2], [])], current := 3)
  const SWAPPED: Disk := FLUSHED.(versions := BOTH + [Manifest([0, 1, 2], []), Manifest([], [3])], current := 4)

  lemma ReachFlushed()
    ensures OnTime(Race(LateState(None, FLUSHED, [], CompactionCheck(3), [0, 1, 2], [0, 1, 0, 0], [], {}),
                        CompactPublish([0, 1], 3, 2)))
  {
    hide InRange, OnTime;
    ReachBothLoaded();
    var out := CompactPublish([0, 1], 3, 2);
    assert [0, 1] + [2] == [0, 1, 2] && [0, 1, 0] + [0] == [0, 1, 0, 0];
    var s := LateState(Some(2), FLUSHED, [], ClearImmutable(2, 3), [0, 1, 2], [0, 1, 0, 0], [], {});
    RaceGoes(Race(LateState(Some(2), FOUR, [], Publish(2, 2, 2), [0, 1, 2], [0, 1, 0], [], {}), out),
        Inside(StepWorker), Race(s, out));
    RaceGoes(Race(s, out), Inside(StepWorker), Race(LateState(None, FLUSHED, [], CompactionCheck(3), [0, 1, 2],
        [0, 1, 0, 0], [], {}), out));
  }

  lemma LateIsStored()
    ensures var s := LateState(None, FLUSHED, [], CompactionCheck(3), [0, 1, 2], [0, 1, 0, 0], [], {});
            WellFormed(s.core) ==> Stored(s.core, LATE) == Some([1])
  {
    assert FLUSHED.versions[3].Files() == [0, 1, 2];
  }

  lemma LateIsGone()
    ensures var s := LateState(None, SWAPPED, [], CompactionCheck(3), [0, 1, 2], [0, 1, 0, 0, 0],
        [Purge(2, [0, 1], false, 0)], {});
            WellFormed(s.core) && Stored(s.core, LATE) == None
  {
    assert SWAPPED.versions[4].Files() == [3] && [3][..0] == [];
    assert K[0] != LATE[0];
    assert LATE !in T;
    assert SearchFiles(SWAPPED.files, [3], LATE) == SearchFiles(SWAPPED.files, [], LATE);
  }

  /**
   A flush that swaps between load and store of an outside compaction is undone: the compaction's store leaves a key in
   no layer that was in a file of the current version just before.
   */
  lemma SwapLosesKey() returns (r: Race, r': Race)
    ensures OnTime(r) && Turns(r, Advance, r') && WellFormed(r.s.core) && WellFormed(r'.s.core)
    ensures Stored(r.s.core, LATE) == Some([1]) && Stored(r'.s.core, LATE) == None
  {
    hide OnTime, Stored, BatchSpan, CompactedFile;
    ReachFlushed();
    r := Race(LateState(None, FLUSHED, [], CompactionCheck(3), [0, 1, 2], [0, 1, 0, 0], [], {}),
        CompactPublish([0, 1], 3, 2));
    r' := Race(LateState(None, SWAPPED, [], CompactionCheck(3), [0, 1, 2], [0, 1, 0, 0, 0],
        [Purge(2, [0, 1], false, 0)], {}), Idle);
    OnTimeInRange(r);
    hide InRange;
    assert [0, 1, 0, 0] + [0] == [0, 1, 0, 0, 0] && [] + [3] == [3];
    NothingRemains([0, 1], [0, 1]);
    assert BOTH + [Manifest([0, 1, 2], [])] + [Manifest([], [3])]
        == BOTH + [Manifest([0, 1, 2], []), Manifest([], [3])];
    LateIsStored();
    LateIsGone();
  }

  // -------------------------------------------------- the compaction swaps first

  const MERGED: Disk := FOUR.(versions := BOTH + [Manifest([], [3])], current := 3)

  /** The compaction has swapped and its purge goes on. */
  function Purging(refs: seq<int>, j: Purge, unlinked: set<nat>): State {
    LateState(Some(2), MERGED, [], Publish(2, 2, 2), [0, 1, 2], refs, [j], unlinked)
  }

  lemma ReachSwapped()
    ensures OnTime(Race(Purging([0, 1, 0, 0], Purge(2, [0, 1], false, 0), {}), Idle))
  {
    hide InRange, OnTime;
    ReachBothLoaded();
    assert [0, 1, 0] + [0] == [0, 1, 0, 0] && [] + [3] == [3];
    NothingRemains([0, 1], [0, 1]);
    RaceGoes(Race(LateState(Some(2), FOUR, [], Publish(2, 2, 2), [0, 1, 2], [0, 1, 0], [], {}),
        CompactPublish([0, 1], 3, 2)), Advance, Race(Purging([0, 1, 0, 0], Purge(2, [0, 1], false, 0), {}), Idle));
  }

  lemma ReachMarked()
    ensures OnTime(Race(Purging([0, 1, -1, 0], Purge(2, [0, 1], true, 0), {}), Idle))
  {
    hide InRange, OnTime;
    ReachSwapped();
    assert [0, 1, 0, 0][2 := -1] == [0, 1, -1, 0];
    RaceGoes(Race(Purging([0, 1, 0, 0], Purge(2, [0, 1], false, 0), {}), Idle), Inside(StepPurge(0)),
        Race(Purging([0, 1, -1, 0], Purge(2, [0, 1], true, 0), {}), Idle));
  }

  /** The purge has deleted file 0, and the flush goes on with the version that lists it. */
  lemma ReachPurged()
    ensures OnTime(Race(LateState(Some(2), MERGED, [], Publish(2, 2, 2), [0, 1, 2], [0, 1, -1, 0],
                                  [Purge(2, [0, 1], true, 1)], {0}), Idle))
  {
    hide InRange, OnTime;
    ReachMarked();
    RaceGoes(Race(Purging([0, 1, -1, 0], Purge(2, [0, 1], true, 0), {}), Idle), Inside(StepPurge(0)),
        Race(Purging([0, 1, -1, 0], Purge(2, [0, 1], true, 1), {0}), Idle));
  }

  /** A flush that swaps after an outside compaction lists a file again that is deleted already. */
  lemma FlushRelistsDeletedFile() returns (r: Race, r': Race)
    ensures OnTime(r) && Turns(r, Inside(StepWorker), r')
    ensures r'.s.core.disk.current < |r'.s.core.disk.versions|
    ensures 0 in r'.s.core.disk.versions[r'.s.core.disk.current].Files() && 0 in r'.s.unlinked
  {
    hide OnTime;
    ReachPurged();
    r := Race(LateState(Some(2), MERGED, [], Publish(2, 2, 2), [0, 1, 2], [0, 1, -1, 0],
        [Purge(2, [0, 1], true, 1)], {0}), Idle);
    OnTimeInRange(r);
    hide InRange;
    r' := Turned(r, Inside(StepWorker));
    assert 0 in r'.s.core.disk.versions[r'.s.core.disk.current].l0 by {
      assert ([0, 1] + [2])[0] == 0;
    }
    InManifest(r'.s.core.disk.versions[r'.s.core.disk.current], 0);
  }
}
