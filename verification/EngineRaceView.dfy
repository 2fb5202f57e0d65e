/** What a compaction beside the flush worker does to the view (internal/engine/db.go:134-137, 384-492). */
module EngineRaceView {
  import opened Options
  import opened ByteStrings
  import opened Layers
  import opened Engine
  import opened EngineSafety
  import opened EngineVersions
  import opened EngineLinear
  import opened EngineLimits
  import opened EngineRace

  // --------------------------------------------------------- swaps on time

  lemma RaceView(r: Race, k: Bytes)
    requires RaceInv(r) && k != []
    ensures WellFormed(r.s.core) && Stored(r.s.core, k) == Newest(r.s.core.mem.tables, k)
  {
    hide Inv, CoreInv, DiskInv, OutInv, OutPending, FlushInv, Newest, WellFormed, Stored;
    InvCore(Refreshed(r.s));
    ViewIsNewest(Refreshed(r.s).core, k);
    StoredFrame(Refreshed(r.s).core, r.s.core, k);
  }

  /** The turn is a MemTable insert of key k. */
  ghost predicate RaceInserts(r: Race, t: Turn, k: Bytes) {
    t.Inside? && InsertsKey(r.s, t.a, k)
  }

  lemma InsideTables(r: Race, a: Action, k: Bytes)
    requires RaceInv(r) && MayTurn(r, Inside(a)) && !Stale(r, Inside(a))
    ensures RaceInRange(r)
    ensures Newest(Apply(r.s, a).core.mem.tables, k) ==
            if InsertsKey(r.s, a, k) then Some(r.s.core.writers[a.w].val) else Newest(r.s.core.mem.tables, k)
  {
    hide Apply, Enabled, Inv, DiskInv, OutInv, OutPending, FlushInv, LogAfter, Newest, CoreInv, InRange;
    RaceRanges(r);
    InsideRefreshed(r.s, a);
    TablesChange(Refreshed(r.s), a);
    NewestAfter(Refreshed(r.s), a, k);
  }

  lemma AdvanceTables(r: Race)
    requires RaceInv(r) && MayTurn(r, Advance)
    ensures RaceInRange(r)
    ensures Turned(r, Advance).s.core.mem == r.s.core.mem && Turned(r, Advance).s.readers == r.s.readers
  {
    RaceRanges(r);
    AdvanceIs(r);
    hide RaceInRange, Turned, Inv, DiskInv, OutPending, FlushInv, CompactedFile, BatchSpan, MergedFrom;
  }

  /** Every turn that is no stale swap leaves the view alone, except an insert, which sets its own key. */
  lemma TurnKeepsView(r: Race, t: Turn, k: Bytes)
    requires RaceInv(r) && MayTurn(r, t) && !Stale(r, t) && k != []
    ensures RaceInRange(r) && WellFormed(r.s.core) && WellFormed(Turned(r, t).s.core)
    ensures Stored(Turned(r, t).s.core, k) ==
            if RaceInserts(r, t, k) then Some(r.s.core.writers[t.a.w].val) else Stored(r.s.core, k)
  {
    hide RaceInv, MayTurn, WellFormed, Stored, Newest, InsertsKey, Apply, RaceInRange;
    TurnKeeps(r, t);
    RaceView(r, k);
    RaceView(Turned(r, t), k);
    match t {
      case Inside(a) => InsideTables(r, a, k);
      case Advance => AdvanceTables(r);
      case _ =>
    }
  }

  /**
   TriggerCompaction beside any interleaving of the engine's threads, as long as no compaction of the worker's own
   fails: no swap ever replaces a version it was not made from, and only inserts change the view.
   */
  lemma OutsideCompactionIsSafe(run: seq<Race>, turns: seq<Turn>, i: nat, k: Bytes)
    requires IsRace(run, turns) && i < |turns| && WorkerCompacts(turns) && k != []
    ensures |run| == |turns| + 1 && !Stale(run[i], turns[i])
    ensures WellFormed(run[i].s.core) && WellFormed(run[i + 1].s.core)
    ensures RaceInserts(run[i], turns[i], k) ==>
              Stored(run[i + 1].s.core, k) == Some(run[i].s.core.writers[turns[i].a.w].val)
    ensures !RaceInserts(run[i], turns[i], k) ==> Stored(run[i + 1].s.core, k) == Stored(run[i].s.core, k)
  {
    hide IsRace, RaceInv, RaceInRange, MayTurn, Turned, Calm, Stale, WellFormed, Stored, InTime, RaceInserts;
    RaceParts(run, turns, i);
    CalmRun(run, turns, i);
    CalmTurn(run[i], turns[i]);
    TurnKeepsView(run[i], turns[i], k);
    InsertHasWriter(run[i], turns[i], k);
  }

  lemma InsertHasWriter(r: Race, t: Turn, k: Bytes)
    ensures RaceInserts(r, t, k) ==> t.Inside? && t.a.StepPut? && t.a.w in r.s.core.writers
  {
  }

  // --------------------------------------------------------- linearizability

  /** What a Get in progress knows, whichever version a flush in progress has loaded. */
  ghost predicate RaceGood(r: Race, held: set<Option<Bytes>>, g: nat, k: Bytes) {
    RaceInv(r) && GoodAt(Refreshed(r.s), held, g, k)
  }

  lemma AdvanceGrows(r: Race)
    requires RaceInv(r) && MayTurn(r, Advance) && !Stale(r, Advance)
    ensures RaceInRange(r) && DiskInv(r.s.core.disk)
    ensures DiskGrows(r.s.core.disk, Turned(r, Advance).s.core.disk)
    ensures Published(Turned(r, Advance).s.core.disk) == Published(r.s.core.disk)
  {
    hide Inv, DiskInv, FlushInv, RaceInRange, Turned, DiskGrows, Published, CompactedFile, BatchSpan, MergedFrom, Chain;
    RaceRanges(r);
    AdvanceIs(r);
    var d := r.s.core.disk;
    CurrentIsLast(d);
    match r.out {
      case CompactWrite(v) =>
        WriteDisk(Refreshed(r.s), v, d.versions[v].l0);
      case CompactPublish(batch, f, _) => SwapDisk(r.s, batch, f);
      case _ => SameGrows(d);
    }
  }

  lemma SameGrows(d: Disk)
    requires DiskInv(d)
    ensures DiskGrows(d, d)
  {
  }

  lemma HasTables(r: Race)
    requires RaceInv(r)
    ensures r.s.core.mem.tables != []
  {
    CoreTables(Refreshed(r.s).core);
    hide CoreInv, DiskInv, OutInv, OutPending, FlushInv;
  }

  lemma GoodAdvance(r: Race, g: nat, k: Bytes, held: set<Option<Bytes>>, held': set<Option<Bytes>>)
    requires RaceGood(r, held, g, k) && MayTurn(r, Advance) && !Stale(r, Advance)
    requires held <= held' && Live(Newest(r.s.core.mem.tables, k)) in held'
    ensures RaceInRange(r) && RaceGood(Turned(r, Advance), held', g, k)
  {
    hide Inv, DiskInv, OutInv, OutPending, FlushInv, RaceInRange, Turned, Good, DiskGrows, Published, Newest;
    TurnKeeps(r, Advance);
    AdvanceTables(r);
    AdvanceGrows(r);
    HasTables(r);
    var s, s' := r.s, Turned(r, Advance).s;
    GoodFrame(s.core.mem, s.core.disk, s'.core.mem, s'.core.disk, held, held', s.readers[g]);
  }

  lemma GoodInside(r: Race, a: Action, g: nat, k: Bytes, held: set<Option<Bytes>>, held': set<Option<Bytes>>)
    requires RaceGood(r, held, g, k) && MayTurn(r, Inside(a)) && !Stale(r, Inside(a)) && k != []
    requires Live(Newest(r.s.core.mem.tables, k)) in held && held <= held'
    requires RaceInRange(r) && Live(Newest(Apply(r.s, a).core.mem.tables, k)) in held'
    ensures RaceGood(Race(Apply(r.s, a), r.out), held', g, k)
  {
    hide RaceInv, Inv, GoodAt, Newest, Apply, Enabled, InRange;
    TurnKeeps(r, Inside(a));
    InsideSteps(r, a);
    GoodAtStep(Refreshed(r.s), a, Refreshed(Apply(r.s, a)), g, k, held, held');
  }

  lemma InsideSteps(r: Race, a: Action)
    requires RaceInv(r) && MayTurn(r, Inside(a)) && !Stale(r, Inside(a))
    ensures RaceInRange(r) && Steps(Refreshed(r.s), a, Refreshed(Apply(r.s, a)))
  {
    hide Inv, InRange, DiskInv, OutInv, OutPending, FlushInv, Apply, Enabled;
    RaceRanges(r);
    InsideRefreshed(r.s, a);
  }

  ghost function States(run: seq<Race>): seq<State> {
    seq(|run|, i requires 0 <= i < |run| => run[i].s)
  }

  lemma GoodTurn(r: Race, t: Turn, g: nat, k: Bytes, held: set<Option<Bytes>>, held': set<Option<Bytes>>)
    requires RaceGood(r, held, g, k) && MayTurn(r, t) && !Stale(r, t) && k != []
    requires Live(Newest(r.s.core.mem.tables, k)) in held && held <= held'
    requires RaceInRange(r) && Live(Newest(Turned(r, t).s.core.mem.tables, k)) in held'
    ensures RaceGood(Turned(r, t), held', g, k)
  {
    match t {
      case Inside(a) => GoodInside(r, a, g, k, held, held');
      case Advance => GoodAdvance(r, g, k, held, held');
      case _ =>
        TurnKeeps(r, t);
        GoodSame(r.s, g, k, held, held');
    }
    hide *;
  }

  lemma GoodSame(s: State, g: nat, k: Bytes, held: set<Option<Bytes>>, held': set<Option<Bytes>>)
    requires GoodAt(Refreshed(s), held, g, k) && held <= held' && Live(Newest(s.core.mem.tables, k)) in held'
    ensures GoodAt(Refreshed(s), held', g, k)
  {
    var x := Refreshed(s);
    CoreTables(x.core);
    SameDisk(x.core);
    hide Inv, CoreInv, Good, Published, DiskStep;
    InvDisk(x);
    SameGrows(x.core.disk);
    GoodFrame(x.core.mem, x.core.disk, x.core.mem, x.core.disk, held, held', x.readers[g]);
  }

  lemma {:induction false} RaceGoodRun(run: seq<Race>, turns: seq<Turn>, i: nat, j: nat, g: nat, k: Bytes)
    requires IsRace(run, turns) && i <= j <= |turns| && InTime(run, turns, j) && k != []
    requires g in run[i].s.readers && run[i].s.readers[g].key == k && run[i].s.readers[g].pc == LoadActiveTable
    ensures |run| == |turns| + 1 && RaceGood(run[j], EngineLinear.Held(States(run), i, j, k), g, k)
    decreases j
  {
    hide IsRace, RaceGood, Stale, EngineLinear.Held, Live, Newest;
    RaceStates(run, turns);
    HeldGrows(States(run), i, j, k);
    var held := EngineLinear.Held(States(run), i, j, k);
    if i == j {
      RaceRun(run, turns, j);
      StartsGood(run[j], held, g, k);
    } else {
      RaceGoodRun(run, turns, i, j - 1, g, k);
      HeldGrows(States(run), i, j - 1, k);
      RaceGoodStep(run, turns, j - 1, g, k, EngineLinear.Held(States(run), i, j - 1, k), held);
    }
  }

  lemma RaceStates(run: seq<Race>, turns: seq<Turn>)
    requires IsRace(run, turns)
    ensures |run| == |turns| + 1 == |States(run)| && forall i :: 0 <= i < |run| ==> States(run)[i] == run[i].s
  {
    hide Turns;
  }

  lemma RaceGoodStep(run: seq<Race>, turns: seq<Turn>, j: nat, g: nat, k: Bytes, held: set<Option<Bytes>>,
                     held': set<Option<Bytes>>)
    requires IsRace(run, turns) && j < |turns| && !Stale(run[j], turns[j]) && k != []
    requires RaceGood(run[j], held, g, k) && held <= held'
    requires Live(Newest(run[j].s.core.mem.tables, k)) in held
    requires Live(Newest(run[j + 1].s.core.mem.tables, k)) in held'
    ensures RaceGood(run[j + 1], held', g, k)
  {
    hide IsRace, RaceGood, Stale, MayTurn, Turned, RaceInRange, Init, Live, Newest;
    RaceParts(run, turns, j);
    GoodTurn(run[j], turns[j], g, k, held, held');
  }

  lemma StartsGood(r: Race, held: set<Option<Bytes>>, g: nat, k: Bytes)
    requires RaceInv(r) && g in r.s.readers && r.s.readers[g].key == k && r.s.readers[g].pc == LoadActiveTable
    ensures RaceGood(r, held, g, k)
  {
    GoodAtStart(Refreshed(r.s), held, g, k);
    hide GoodAt, Inv;
  }

  /** Get stays linearizable beside TriggerCompaction, up to the first stale swap. */
  lemma RaceGetIsLinearizable(run: seq<Race>, turns: seq<Turn>, i: nat, j: nat, g: nat, k: Bytes)
    requires IsRace(run, turns) && i <= j <= |turns| && InTime(run, turns, j) && k != []
    requires g in run[i].s.readers && run[i].s.readers[g].key == k && run[i].s.readers[g].pc == LoadActiveTable
    requires g in run[j].s.readers && run[j].s.readers[g].pc.Returned? && run[j].s.readers[g].pc.res != ReadError
    ensures |run| == |turns| + 1
    ensures exists m ::
              i <= m <= j && WellFormed(run[m].s.core) && View(run[m].s.core, k) == Outcome(run[j].s.readers[g].pc.res)
  {
    RaceGoodRun(run, turns, i, j, g, k);
    var res := run[j].s.readers[g].pc.res;
    assert Outcome(res) in EngineLinear.Held(States(run), i, j, k) by {
      hide Inv, CoreInv, DiskInv, OutInv, OutPending, FlushInv;
    }
    var m :| i <= m <= j && Live(Newest(run[m].s.core.mem.tables, k)) == Outcome(res);
    RaceRun(run, turns, m);
    RaceView(run[m], k);
  }

  /** What a turn does to a Get in progress. */
  lemma ReaderAfterTurn(r: Race, t: Turn, g: nat)
    requires RaceInRange(r) && MayTurn(r, t) && g in r.s.readers
    ensures var r' := Turned(r, t);
            && g in r'.s.readers
            && r'.s.readers[g] == if t == Inside(StepGet(g)) then Look(r.s, r.s.readers[g]) else r.s.readers[g]
  {
    hide InRange, Look, WorkerCore, Apply, Enabled;
    if t.Inside? {
      ReaderAfter(r.s, t.a, g);
    }
  }

  lemma {:induction false} RaceFailTrace(run: seq<Race>, turns: seq<Turn>, i: nat, j: nat, g: nat)
    requires IsRace(run, turns) && i <= j < |run| && g in run[i].s.readers && !Failed(run[i].s.readers[g].pc)
    ensures |run| == |turns| + 1 && g in run[j].s.readers
    ensures Failed(run[j].s.readers[g].pc) ==>
              exists m :: i <= m < j && MeetsMissing(run[m].s, g) && turns[m] == Inside(StepGet(g))
    decreases j
  {
    hide IsRace, MeetsMissing, Failed;
    RaceParts(run, turns, 0);
    if i < j {
      RaceFailTrace(run, turns, i, j - 1, g);
      RaceFailStep(run, turns, j - 1, g);
    }
  }

  lemma RaceFailStep(run: seq<Race>, turns: seq<Turn>, m: nat, g: nat)
    requires IsRace(run, turns) && m < |turns| && g in run[m].s.readers
    ensures |run| == |turns| + 1 && g in run[m + 1].s.readers
    ensures Failed(run[m + 1].s.readers[g].pc) ==>
              Failed(run[m].s.readers[g].pc) || (MeetsMissing(run[m].s, g) && turns[m] == Inside(StepGet(g)))
  {
    hide IsRace, MayTurn, Turned, Look, MeetsMissing, Failed, Init, InRange;
    RaceParts(run, turns, m);
    ReaderAfterTurn(run[m], turns[m], g);
    FailStep(run[m].s, g);
  }

  /** Beside TriggerCompaction too, and in every run, a Get that returns an error has met a deleted file. */
  lemma RaceErrorMeansMissingFile(run: seq<Race>, turns: seq<Turn>, i: nat, j: nat, g: nat)
    requires IsRace(run, turns) && i <= j < |run|
    requires g in run[i].s.readers && run[i].s.readers[g].pc == LoadActiveTable
    requires g in run[j].s.readers && run[j].s.readers[g].pc == Returned(ReadError)
    ensures |run| == |turns| + 1
    ensures exists m :: i <= m < j && MeetsMissing(run[m].s, g) && turns[m] == Inside(StepGet(g))
  {
    RaceFailTrace(run, turns, i, j, g);
  }

  // ------------------------------------------------------------ stale swaps

  /** The active or the immutable table holds the key. */
  ghost predicate InTables(c: Core, k: Bytes)
    requires WellFormed(c)
  {
    k in c.mem.tables[c.mem.active] || (c.mem.immutable.Some? && k in c.mem.tables[c.mem.immutable.value])
  }

  lemma {:induction false} SearchBoth(files: seq<Contents>, a: seq<nat>, b: seq<nat>, k: Bytes)
    requires Exist(files, a + b)
    ensures Exist(files, a) && Exist(files, b)
    ensures SearchFiles(files, a + b, k) == if SearchFiles(files, b, k).Some? then SearchFiles(files, b, k)
        else SearchFiles(files, a, k)
  {
    assert forall i :: 0 <= i < |a| ==> (a + b)[i] == a[i];
    assert forall i :: 0 <= i < |b| ==> (a + b)[|a| + i] == b[i];
    if b == [] {
      assert a + b == a;
    } else {
      assert (a + b)[..|a + b| - 1] == a + b[..|b| - 1];
      SearchBoth(files, a, b[..|b| - 1], k);
    }
  }

  /** The files published since version b. */
  ghost function Since(d: Disk, b: nat): seq<nat>
    requires Grown(d, b)
  {
    d.versions[d.current].l0[|d.versions[b].l0|..]
  }

  lemma SinceIsNewer(d: Disk, b: nat)
    requires Grown(d, b)
    ensures d.versions[d.current].Files() == d.versions[b].Files() + Since(d, b)
  {
  }

  /** A disk with right manifests makes a well-formed core. */
  lemma DiskWellFormed(c: Core, d: Disk)
    requires WellFormed(c) && DiskInv(d)
    ensures WellFormed(c.(disk := d))
  {
    forall v, i | 0 <= v < |d.versions| && 0 <= i < |d.versions[v].Files()|
      ensures d.versions[v].Files()[i] < |d.files|
    {
      assert Chain(d.spans, 0, d.versions[v].Files());
    }
  }

  /** A manifest made from version b answers as b does, for every non-empty key. */
  lemma SwapAnswers(s: State, batch: seq<nat>, f: nat, b: nat, k: Bytes)
    requires CoreInv(s.core) && MergeOf(s.core.disk, b, batch, f) && k != []
    ensures WellFormed(s.core) && WellFormed(Swap(s, batch, f, b).core)
    ensures var d := Swap(s, batch, f, b).core.disk;
            SearchFiles(d.files, d.versions[d.current].Files(), k)
                == SearchFiles(s.core.disk.files, s.core.disk.versions[b].Files(), k)
  {
    var d, m := s.core.disk, MergedFrom(s.core.disk, b, batch, f);
    MergedManifest(d, b, batch, f);
    AddVersionKeeps(d, m);
    CoreWellFormed(s.core);
    DiskWellFormed(s.core, AddVersion(d, m));
    FilesParts(s.core);
    hide CoreInv, DiskInv, FilesOk, Newest, MergeOf, MergedFrom, WellFormed;
    SearchIsNewest(s.core.mem.tables, d, 0, m.Files(), k);
    SearchIsNewest(s.core.mem.tables, d, 0, d.versions[b].Files(), k);
  }

  lemma FilesParts(c: Core)
    requires CoreInv(c)
    ensures EngineSafety.FilesOk(c.mem.tables, c.disk.files, c.disk.spans)
    ensures forall v :: 0 <= v < |c.disk.versions| ==> Chain(c.disk.spans, 0, c.disk.versions[v].Files())
  {
    hide ControlInv, WorkerInv, FilesOk, Chain;
  }

  /** Level 0 of the version a swap was made from, and what was flushed since, have no file in common. */
  lemma SinceIsApart(d: Disk, b: nat, g: nat)
    requires DiskInv(d) && Grown(d, b) && g in Since(d, b)
    ensures g !in d.versions[b].l0 && g !in d.versions[b].l1 && g in d.versions[d.current].Files()
  {
    var m, n := d.versions[d.current], |d.versions[b].l0|;
    var j :| n <= j < |m.l0| && m.l0[j] == g;
    BatchFileLeaves(d.spans, m.l1, m.l0, |m.l0|, j);
    InManifest(m, g);
    hide Chain;
    forall i | 0 <= i < n ensures m.l0[i] != g {
      BatchFileLeaves(d.spans, m.l1, m.l0, n, i);
      assert m.l0[n..][j - n] == g;
    }
  }

  /** None of the files flushed since is in the manifest the swap publishes. */
  lemma SinceIsLost(r: Race, batch: seq<nat>, f: nat, b: nat, g: nat)
    requires RaceInv(r) && r.out == CompactPublish(batch, f, b) && g in Since(r.s.core.disk, b)
    ensures g !in MergedFrom(r.s.core.disk, b, batch, f).Files()
  {
    hide Inv, DiskInv, FlushInv, Manifest.Files;
    var d := r.s.core.disk;
    SinceIsApart(d, b, g);
    CurrentIsLast(d);
    MergedLists(d, b, batch, f, g);
    hide MergedFrom;
  }

  /** The two searches a swap of an outside compaction compares. */
  lemma SwapSearches(r: Race, batch: seq<nat>, f: nat, b: nat, k: Bytes)
    requires RaceInv(r) && r.out == CompactPublish(batch, f, b) && k != []
    ensures var s, d, d' := r.s, r.s.core.disk, Swap(r.s, batch, f, b).core.disk;
            && WellFormed(s.core) && WellFormed(Swap(s, batch, f, b).core)
            && Exist(d.files, Since(d, b)) && Exist(d.files, d.versions[b].Files())
            && SearchFiles(d'.files, d'.versions[d'.current].Files(), k)
                == SearchFiles(d.files, d.versions[b].Files(), k)
            && SearchFiles(d.files, d.versions[d.current].Files(), k) ==
                 if SearchFiles(d.files, Since(d, b), k).Some? then SearchFiles(d.files, Since(d, b), k)
                 else SearchFiles(d.files, d.versions[b].Files(), k)
  {
    var d := r.s.core.disk;
    hide DiskInv, FlushInv, OutPending, Manifest.Files, CoreInv, ReadersInv, RefsInv, PurgesInv, TraceInv,
        PendingInv, Chain;
    SwapAnswers(Refreshed(r.s), batch, f, b, k);
    SinceIsNewer(d, b);
    RaceView(r, k);
    FilesExist(r.s.core, d.current);
    hide Since, MergedFrom;
    SearchBoth(d.files, d.versions[b].Files(), Since(d, b), k);
  }

  lemma FilesExist(c: Core, v: nat)
    requires WellFormed(c) && v < |c.disk.versions|
    ensures Exist(c.disk.files, c.disk.versions[v].Files())
  {
  }

  /** The files published since version b say nothing, or nothing new, about the key. */
  ghost predicate NothingNew(d: Disk, b: nat, k: Bytes)
    requires Grown(d, b) && Exist(d.files, Since(d, b)) && Exist(d.files, d.versions[b].Files())
  {
    || SearchFiles(d.files, Since(d, b), k) == None
    || SearchFiles(d.files, Since(d, b), k) == SearchFiles(d.files, d.versions[b].Files(), k)
  }

  /** What a swap of an outside compaction does to one key. */
  lemma SwapReads(r: Race, batch: seq<nat>, f: nat, b: nat, k: Bytes)
    requires RaceInv(r) && r.out == CompactPublish(batch, f, b) && k != []
    ensures var c, c', d := r.s.core, Swap(r.s, batch, f, b).core, r.s.core.disk;
            && WellFormed(c) && WellFormed(c') && Exist(d.files, Since(d, b)) && Exist(d.files, d.versions[b].Files())
            && (Stored(c', k) == Stored(c, k) <==> InTables(c, k) || NothingNew(d, b, k))
  {
    hide Inv, DiskInv, FlushInv, OutPending, WellFormed, MergedFrom, Since, SearchFiles, MergeOf, Manifest.Files, Exist;
    SwapSearches(r, batch, f, b, k);
  }

  /**
   The swap of an outside compaction exactly, whether or not it is stale, if no swap before it was: it loses the files
   flushed since the version it was made from, and a key reads as before if and only if a table still holds it or
   those files say nothing, or nothing new, about it.
   */
  lemma OutsideSwapExactly(run: seq<Race>, turns: seq<Turn>, i: nat, batch: seq<nat>, f: nat, b: nat, k: Bytes)
    requires IsRace(run, turns) && i < |turns| && InTime(run, turns, i) && k != []
    requires turns[i] == Advance && run[i].out == CompactPublish(batch, f, b)
    ensures |run| == |turns| + 1 && RaceInv(run[i]) && Grown(run[i].s.core.disk, b)
    ensures var c, c', d := run[i].s.core, run[i + 1].s.core, run[i].s.core.disk;
            && WellFormed(c) && WellFormed(c') && Exist(d.files, Since(d, b)) && Exist(d.files, d.versions[b].Files())
            && (Stored(c', k) == Stored(c, k) <==> InTables(c, k) || NothingNew(d, b, k))
            && forall g :: g in Since(d, b) ==> g !in c'.disk.versions[c'.disk.current].Files()
  {
    hide IsRace, RaceInRange, Turned, InTime, Inv, DiskInv, FlushInv, OutPending, WellFormed, MergedFrom, Since, Stored,
        InTables, NothingNew, MergeOf, Manifest.Files, Exist;
    RaceRun(run, turns, i);
    RaceParts(run, turns, i);
    AdvanceSwaps(run[i], batch, f, b);
    SwapReads(run[i], batch, f, b, k);
    var d := run[i].s.core.disk;
    forall g | g in Since(d, b) ensures g !in MergedFrom(d, b, batch, f).Files() {
      SinceIsLost(run[i], batch, f, b, g);
    }
  }

  lemma AdvanceSwaps(r: Race, batch: seq<nat>, f: nat, b: nat)
    requires RaceInv(r) && RaceInRange(r) && r.out == CompactPublish(batch, f, b)
    ensures Turned(r, Advance) == Race(Swap(r.s, batch, f, b), Idle)
  {
    AdvanceIs(r);
    hide RaceInRange, Inv, DiskInv, FlushInv, OutPending, Turned;
  }

  /** A flush about to swap holds the immutable table, which comes next after the published ones. */
  lemma FlushHolds(c: Core)
    requires CoreInv(c) && c.worker.Publish?
    ensures var t, f := c.worker.t, c.worker.f;
            && Published(c.disk) == t && c.mem.immutable == Some(t) && t < |c.mem.tables| <= t + 2
            && c.mem.active + 1 == |c.mem.tables|
            && f < |c.disk.spans| && c.disk.spans[f] == Span(t, t + 1)
  {
    hide FileInv, DiskInv, Published, FinalInv, FlushedInv, WriterInv;
  }

  /** The manifest a flush makes from version b. */
  function FlushedOn(d: Disk, b: nat, f: nat): Manifest
    requires b < |d.versions|
  {
    d.versions[b].(l0 := d.versions[b].l0 + [f])
  }

  /** A manifest that stands for all tables up to the immutable one answers below the tables as they need. */
  lemma FlushAnswers(x: Core, b: nat, k: Bytes)
    requires CoreInv(x) && x.worker.Publish? && b < |x.disk.versions| && Covers(x.disk, b) == x.worker.t && k != []
    ensures var c' := x.(disk := AddVersion(x.disk, FlushedOn(x.disk, b, x.worker.f)));
            WellFormed(x) && WellFormed(c') && Stored(c', k) == Newest(x.mem.tables, k)
  {
    hide CoreInv, DiskInv, EngineSafety.FilesOk, Newest, Chain, WellFormed, ControlInv, FileInv, WorkerInv;
    var d, m, t := x.disk, FlushedOn(x.disk, b, x.worker.f), x.worker.t;
    CoreParts(x);
    FlushHolds(x);
    FilesParts(x);
    CurrentIsLast(d);
    CoreWellFormed(x);
    assert m.Files() == d.versions[b].Files() + [x.worker.f];
    ChainExtend(d.spans, 0, d.versions[b].Files(), x.worker.f);
    AddVersionKeeps(d, m);
    DiskWellFormed(x, AddVersion(d, m));
    assert m == AddVersion(d, m).versions[AddVersion(d, m).current];
    hide Manifest.Files, FlushedOn, SearchFiles;
    SearchIsNewest(x.mem.tables, d, 0, m.Files(), k);
    StackedLayers(x.mem.tables, x.mem.immutable, t + 1, k);
  }

  /**
   The flush's manifest lists a file some purge was handed if and only if it was not made from the current
   version.
   */
  lemma FlushLists(x: State, b: nat, purges: seq<Purge>)
    requires Inv(x) && x.core.worker.Publish? && purges == x.purges && b < |x.core.disk.versions|
    requires b != x.core.disk.current ==> HandedOver(purges, x.core.disk.versions[b].l0)
    ensures HandedOver(purges, FlushedOn(x.core.disk, b, x.core.worker.f).Files()) <==> b != x.core.disk.current
  {
    var d, m := x.core.disk, FlushedOn(x.core.disk, b, x.core.worker.f);
    if b != d.current {
      var p, g :| 0 <= p < |purges| && g in d.versions[b].l0 && g in purges[p].files;
      InManifest(m, g);
    } else {
      forall p, g | 0 <= p < |purges| && g in purges[p].files ensures g !in m.Files() {
        assert PurgeOk(d, x.refs, purges[p]);
        InManifest(m, g);
        InManifest(d.versions[b], g);
        hide Manifest.Files, CoreInv, ReadersInv, RefsInv, TraceInv;
      }
    }
  }

  /**
   The swap of a flush exactly, whether or not it is stale, if no swap before it was: every non-empty key reads as
   before, but the manifest lists files that are being deleted if and only if a compaction came between load and store.
   */
  lemma FlushSwapExactly(run: seq<Race>, turns: seq<Turn>, i: nat, k: Bytes)
    requires IsRace(run, turns) && i < |turns| && InTime(run, turns, i) && k != []
    requires turns[i] == Inside(StepWorker) && run[i].s.core.worker.Publish?
    ensures |run| == |turns| + 1
    ensures var s, s' := run[i].s, run[i + 1].s;
            && WellFormed(s.core) && WellFormed(s'.core) && Stored(s'.core, k) == Stored(s.core, k)
            && (HandedOver(s'.purges, s'.core.disk.versions[s'.core.disk.current].Files()) <==>
                s.core.worker.base != s.core.disk.current)
  {
    RaceRun(run, turns, i);
    RaceParts(run, turns, i);
    hide IsRace, InTime;
    FlushTurn(run[i], k);
  }

  lemma FlushTurn(r: Race, k: Bytes)
    requires RaceInv(r) && MayTurn(r, Inside(StepWorker)) && r.s.core.worker.Publish? && k != []
    ensures RaceInRange(r)
    ensures var s, s' := r.s, Turned(r, Inside(StepWorker)).s;
            && WellFormed(s.core) && WellFormed(s'.core) && Stored(s'.core, k) == Stored(s.core, k)
            && (HandedOver(s'.purges, s'.core.disk.versions[s'.core.disk.current].Files()) <==>
                s.core.worker.base != s.core.disk.current)
  {
    hide Inv, DiskInv, HandedOver, WellFormed, Stored, InRange, Apply, FlushedOn, Newest, Covers, OutInv, OutPending;
    RaceRanges(r);
    RaceView(r, k);
    var s, x, b := r.s, Refreshed(r.s), r.s.core.worker.base;
    FlushBase(r);
    FlushAnswers(x.core, b, k);
    FlushLists(x, b, s.purges);
    FlushStep(s);
    StoredFrame(x.core.(disk := Apply(s, StepWorker).core.disk), Apply(s, StepWorker).core, k);
  }

  /** What is known of the version a flush has loaded. */
  lemma FlushBase(r: Race)
    requires RaceInv(r) && r.s.core.worker.Publish?
    ensures var d, b := r.s.core.disk, r.s.core.worker.base;
            && CoreInv(Refreshed(r.s).core) && b < |d.versions| && Covers(d, b) == r.s.core.worker.t
            && (b != d.current ==> HandedOver(r.s.purges, d.versions[b].l0))
  {
    hide CoreInv, Chain, HandedOver, OutInv, OutPending, Cover, ReadersInv, RefsInv, PurgesInv, TraceInv, PendingInv;
    FlushHolds(Refreshed(r.s).core);
  }

  lemma StoredFrame(c: Core, c': Core, k: Bytes)
    requires WellFormed(c) && c'.mem == c.mem && c'.disk == c.disk
    ensures WellFormed(c') && Stored(c', k) == Stored(c, k)
  {
    hide SearchFiles;
  }

  lemma FlushStep(s: State)
    requires InRange(s) && s.core.worker.Publish?
    ensures Enabled(s, StepWorker)
    ensures var w, d, s' := s.core.worker, s.core.disk, Apply(s, StepWorker);
            && s'.core.disk == AddVersion(d, FlushedOn(d, w.base, w.f)) && s'.core.mem == s.core.mem
                && s'.purges == s.purges
  {
    hide InRange, WellFormed;
  }
}
