/**
 The engine behaves like one map (internal/engine/db.go:141-202, 305-382, 434-471).

 Only a successful MemTable insert changes the view, and every Get that returns without an
 error returns what the view held for its key at some instant during the call.
 */
module EngineLinear {
  import opened Options
  import opened ByteStrings
  import opened Layers
  import opened Engine
  import opened EngineSafety
  import opened EngineVersions

  // ----------------------------------------------------- who changes the view

  /** The step is the MemTable insert of a Put or Delete that did not find the table frozen. */
  ghost predicate Inserts(s: State, a: Action) {
    && a.StepPut? && a.w in s.core.writers && s.core.writers[a.w].pc.Insert?
    && s.core.writers[a.w].pc.t < |s.core.mem.frozen| && !s.core.mem.frozen[s.core.writers[a.w].pc.t]
  }

  /** The step is the store of a fresh table into activeMT. */
  ghost predicate Rotates(s: State, a: Action) {
    a == StepRotation && s.core.mu.Rotating? && s.core.mu.rot.StoreActive?
  }

  ghost function Inserted(tables: seq<Contents>, k: Bytes, v: Bytes): seq<Contents>
    requires tables != []
  {
    tables[|tables| - 1 := tables[|tables| - 1][k := v]]
  }

  /** The log of MemTables after a step. */
  ghost function LogAfter(s: State, a: Action): seq<Contents> {
    var tables := s.core.mem.tables;
    if Inserts(s, a) && tables != [] then Inserted(tables, s.core.writers[a.w].key, s.core.writers[a.w].val)
    else if Rotates(s, a) then tables + [map[]]
    else tables
  }

  lemma PutTables(c: Core, w: nat)
    requires CoreInv(c) && w in c.writers
    ensures c.mem.tables != [] && |c.mem.tables| == |c.mem.sizes| == |c.mem.frozen|
    ensures c.writers[w].pc.Insert? ==> c.writers[w].pc.t < |c.mem.tables|
    ensures PutStep(c, w).mem.tables ==
            if c.writers[w].pc.Insert? && !c.mem.frozen[c.writers[w].pc.t]
            then Inserted(c.mem.tables, c.writers[w].key, c.writers[w].val) else c.mem.tables
  {
    hide CoreInv;
    CoreTables(c);
    if c.writers[w].pc.Insert? {
      InsertIsActive(c, w);
    }
  }

  lemma CoreTables(c: Core)
    requires CoreInv(c)
    ensures c.mem.tables != [] && |c.mem.tables| == |c.mem.sizes| == |c.mem.frozen|
  {
    hide DiskInv, WorkerInv, FileInv;
  }

  lemma PutLog(s: State, w: nat)
    requires Inv(s) && InRange(s) && Enabled(s, StepPut(w))
    ensures s.core.mem.tables != [] && Apply(s, StepPut(w)).core.mem.tables == LogAfter(s, StepPut(w))
  {
    PutTables(s.core, w);
    hide Inv, InRange, CoreInv, PutStep;
  }

  lemma WorkerParts(s: State)
    requires Inv(s) && Enabled(s, StepWorker)
    ensures DiskInv(s.core.disk) && ControlInv(s.core, Published(s.core.disk)) && WorkerInv(s.core.worker, s.core.disk)
    ensures WorkerMayStep(s.core) && (s.core.worker == Idle ==> s.core.queue != [])
  {
    hide DiskInv, ControlInv, WorkerInv, FileInv;
  }

  lemma WorkerStepCore(s: State)
    requires InRange(s) && WorkerReady(s.core) && (s.core.worker == Idle ==> s.core.queue != [])
    ensures WorkerStep(s).core == WorkerCore(s.core)
  {
    hide InRange, WorkerCore;
  }

  lemma WorkerLog(s: State)
    requires Inv(s) && InRange(s) && Enabled(s, StepWorker)
    ensures Apply(s, StepWorker).core.mem.tables == LogAfter(s, StepWorker)
  {
    hide Inv, InRange, WorkerCore, ControlInv, DiskInv, FileInv, WorkerInv, WorkerReady;
    WorkerParts(s);
    WorkerIsReady(s.core, Published(s.core.disk));
    WorkerFrame(s.core);
    WorkerStepCore(s);
  }

  lemma OtherLog(s: State, a: Action)
    requires InRange(s) && Enabled(s, a) && !a.StepPut? && !a.StepWorker?
    ensures Apply(s, a).core.mem.tables == LogAfter(s, a)
  {
    hide InRange, Look, Count;
  }

  /** The log changes by an insert into its last table or by a fresh table, and in no other way. */
  lemma TablesChange(s: State, a: Action)
    requires Inv(s) && Enabled(s, a)
    ensures InRange(s) && s.core.mem.tables != [] && Apply(s, a).core.mem.tables == LogAfter(s, a)
  {
    InvInRange(s);
    assert s.core.mem.tables != [];
    match a {
      case StepPut(w) => PutLog(s, w);
      case StepWorker => WorkerLog(s);
      case _ => OtherLog(s, a);
    }
    hide *;
  }

  lemma NewestAfterInsert(tables: seq<Contents>, k: Bytes, v: Bytes, x: Bytes)
    requires tables != []
    ensures Newest(Inserted(tables, k, v), x) == if x == k then Some(v) else Newest(tables, x)
  {
    var t := |tables| - 1;
    assert Inserted(tables, k, v)[..t] == tables[..t];
  }

  lemma NewestAfter(s: State, a: Action, k: Bytes)
    requires s.core.mem.tables != []
    ensures Newest(LogAfter(s, a), k) ==
            if Inserts(s, a) && s.core.writers[a.w].key == k then Some(s.core.writers[a.w].val)
            else Newest(s.core.mem.tables, k)
  {
    if Inserts(s, a) {
      NewestAfterInsert(s.core.mem.tables, s.core.writers[a.w].key, s.core.writers[a.w].val, k);
    } else if Rotates(s, a) {
      assert (s.core.mem.tables + [map[]])[..|s.core.mem.tables|] == s.core.mem.tables;
    }
  }

  /**
   Every step of every thread, between any two pointer stores of rotation, flush, manifest swap and
   compaction, leaves the view of every non-empty key alone, except a MemTable insert, which
   sets its own key.
   */
  lemma OnlyInsertsChangeTheView(s: State, a: Action, k: Bytes)
    requires Inv(s) && Enabled(s, a) && k != []
    ensures InRange(s) && WellFormed(Apply(s, a).core)
    ensures Stored(Apply(s, a).core, k) ==
            if Inserts(s, a) && s.core.writers[a.w].key == k then Some(s.core.writers[a.w].val) else Stored(s.core, k)
  {
    StepKeeps(s, a);
    TablesChange(s, a);
    ViewIsNewest(s.core, k);
    ViewIsNewest(Apply(s, a).core, k);
    NewestAfter(s, a, k);
    hide *;
  }

  // -------------------------------------------------------- no write is lost

  /** The step is an insert of key k. */
  ghost predicate InsertsKey(s: State, a: Action, k: Bytes) {
    Inserts(s, a) && s.core.writers[a.w].key == k
  }

  /** OnlyInsertsChangeTheView along a run. */
  lemma ViewStep(run: seq<State>, acts: seq<Action>, m: nat, k: Bytes)
    requires IsRun(run, acts) && m < |acts| && k != []
    ensures WellFormed(run[m].core) && WellFormed(run[m + 1].core)
    ensures InsertsKey(run[m], acts[m], k) ==> Stored(run[m + 1].core, k) == Some(run[m].core.writers[acts[m].w].val)
    ensures !InsertsKey(run[m], acts[m], k) ==> Stored(run[m + 1].core, k) == Stored(run[m].core, k)
  {
    RunInv(run, acts, m);
    assert Steps(run[m], acts[m], run[m + 1]);
    OnlyInsertsChangeTheView(run[m], acts[m], k);
    assert InsertsKey(run[m], acts[m], k) <==> Inserts(run[m], acts[m]) && run[m].core.writers[acts[m].w].key == k;
    hide *;
  }

  /** From a Put's insert on, and until another insert of the same key, every state of the run shows its value. */
  lemma {:induction false} LastWriteWins(run: seq<State>, acts: seq<Action>, i: nat, j: nat, k: Bytes)
    requires IsRun(run, acts) && i < j < |run| && k != []
    requires InsertsKey(run[i], acts[i], k)
    requires forall m :: i < m < j ==> !InsertsKey(run[m], acts[m], k)
    ensures WellFormed(run[j].core) && Stored(run[j].core, k) == Some(run[i].core.writers[acts[i].w].val)
    decreases j
  {
    ViewStep(run, acts, j - 1, k);
    if i < j - 1 {
      LastWriteWins(run, acts, i, j - 1, k);
    }
  }

  // --------------------------------------------------------- linearizability

  /** The values the view held for k in states i .. j of the run. */
  ghost function Held(run: seq<State>, i: nat, j: nat, k: Bytes): set<Option<Bytes>>
    requires i <= j < |run|
  {
    set m | i <= m <= j :: Live(Newest(run[m].core.mem.tables, k))
  }

  /** Whatever number c >= floor of tables one stops at, the newest entry below c is a value in `held`. */
  ghost predicate LogHeld(tables: seq<Contents>, held: set<Option<Bytes>>, k: Bytes, floor: nat) {
    forall c :: floor <= c <= |tables| ==> Live(Newest(tables[..c], k)) in held
  }

  ghost predicate ResultHeld(held: set<Option<Bytes>>, res: GetResult) {
    match res
    case Found(v) => v != [] && Some(v) in held
    case NotFound => None in held
    case ReadError => true
  }

  /**
   Where a Get in progress is, compared with the layers: no layer between its floor and what it has yet to
   search is skipped.
   */
  ghost predicate Placed(m: Mem, d: Disk, x: Reader)
    requires DiskInv(d)
  {
    match x.pc
    case SearchActive(t) => t == x.floor < |m.tables|
    case LoadImmutable => x.floor < |m.tables|
    case SearchImmutable(t) => x.floor <= t + 1 <= |m.tables| && t <= Published(d)
    case LoadVersion => x.floor <= Published(d)
    case LoadRefs(v) => Covering(d, v, x.floor) && x.floor <= Published(d)
    case CasRefs(v, _) => Covering(d, v, x.floor) && x.floor <= Published(d)
    case SearchFile(v, left) => Covering(d, v, x.floor) && Searched(d, v, left, x.key)
    case _ => true
  }

  /** The least number of tables a Get still has to account for. */
  ghost function Floor(x: Reader): nat {
    if x.pc.SearchActive? then x.floor + 1 else x.floor
  }

  /** What a Get in progress knows at each statement, `held` being the values its key had since the call began. */
  ghost predicate Good(m: Mem, d: Disk, held: set<Option<Bytes>>, x: Reader)
    requires DiskInv(d)
  {
    match x.pc
    case LoadActiveTable => true
    case Release(_, res) => ResultHeld(held, res)
    case Returned(res) => ResultHeld(held, res)
    case _ => Placed(m, d, x) && LogHeld(m.tables, held, x.key, Floor(x))
  }

  ghost predicate Covering(d: Disk, v: nat, floor: nat)
    requires DiskInv(d)
  {
    v < |d.versions| && floor <= Covers(d, v)
  }

  ghost predicate Exist(files: seq<Contents>, ids: seq<nat>) {
    forall i :: 0 <= i < |ids| ==> ids[i] < |files|
  }

  /** None of version v's files from position `left` on holds the key. */
  ghost predicate Searched(d: Disk, v: nat, left: nat, k: Bytes) {
    && v < |d.versions| && left <= |d.versions[v].Files()| && Exist(d.files, d.versions[v].Files())
    && SearchFiles(d.files, d.versions[v].Files()[..left], k) == SearchFiles(d.files, d.versions[v].Files(), k)
  }

  lemma LogHeldAfter(tables: seq<Contents>, tables': seq<Contents>, held: set<Option<Bytes>>,
                     held': set<Option<Bytes>>, k: Bytes, floor: nat)
    requires LogHeld(tables, held, k, floor) && held <= held' && LogGrows(tables, tables')
    requires Live(Newest(tables', k)) in held'
    ensures LogHeld(tables', held', k, floor)
  {
    forall c | floor <= c <= |tables'| ensures Live(Newest(tables'[..c], k)) in held' {
      if c == |tables'| {
        assert tables'[..c] == tables';
      } else {
        assert tables'[..c] == tables[..c];
      }
    }
  }

  lemma {:induction false} SearchFrame(files: seq<Contents>, files': seq<Contents>, ids: seq<nat>, k: Bytes)
    requires files <= files' && forall i :: 0 <= i < |ids| ==> ids[i] < |files|
    ensures SearchFiles(files', ids, k) == SearchFiles(files, ids, k)
  {
    if ids != [] {
      SearchFrame(files, files', ids[..|ids| - 1], k);
    }
  }

  lemma SearchedFrame(d: Disk, d': Disk, v: nat, left: nat, k: Bytes)
    requires Searched(d, v, left, k) && d.files <= d'.files && d.versions <= d'.versions
    ensures Searched(d', v, left, k)
  {
    var ids := d.versions[v].Files();
    assert d'.versions[v] == d.versions[v];
    SearchFrame(d.files, d'.files, ids, k);
    SearchFrame(d.files, d'.files, ids[..left], k);
  }

  /** The log of tables stays as it is or changes as LogAfter says. */
  ghost predicate LogGrows(tables: seq<Contents>, tables': seq<Contents>) {
    && tables != []
    && (tables' == tables || tables' == tables + [map[]] || exists k, v :: tables' == Inserted(tables, k, v))
  }

  lemma PlacedFrame(m: Mem, d: Disk, m': Mem, d': Disk, x: Reader)
    requires DiskInv(d) && Placed(m, d, x)
    requires DiskGrows(d, d') && Published(d) <= Published(d') && |m.tables| <= |m'.tables|
    ensures Placed(m', d', x)
  {
    hide Searched, Covers, Published, DiskInv;
    if x.pc.SearchFile? {
      SearchedFrame(d, d', x.pc.v, x.pc.left, x.key);
    }
  }

  /** A step of any thread leaves a reader's knowledge true. */
  lemma GoodFrame(m: Mem, d: Disk, m': Mem, d': Disk, held: set<Option<Bytes>>, held': set<Option<Bytes>>, x: Reader)
    requires DiskInv(d) && Good(m, d, held, x)
    requires DiskGrows(d, d') && Published(d) <= Published(d') && LogGrows(m.tables, m'.tables)
    requires held <= held' && Live(Newest(m'.tables, x.key)) in held'
    ensures Good(m', d', held', x)
  {
    assert |m.tables| <= |m'.tables|;
    hide LogHeld, LogGrows, Placed, DiskGrows, Published, DiskInv;
    if Placed(m, d, x) && LogHeld(m.tables, held, x.key, Floor(x)) {
      PlacedFrame(m, d, m', d', x);
      LogHeldAfter(m.tables, m'.tables, held, held', x.key, Floor(x));
    }
  }

  lemma NewestPrefix(tables: seq<Contents>, c: nat, k: Bytes)
    requires c < |tables|
    ensures Newest(tables[..c + 1], k) == if k in tables[c] then Some(tables[c][k]) else Newest(tables[..c], k)
  {
    assert tables[..c + 1][..c] == tables[..c];
  }

  /** Searching table t: a hit is a value the key held; a miss lowers the floor to t. */
  lemma TableSearched(tables: seq<Contents>, held: set<Option<Bytes>>, k: Bytes, floor: nat, t: nat)
    requires LogHeld(tables, held, k, floor) && floor <= t + 1 <= |tables|
    ensures k in tables[t] ==> ResultHeld(held, Answer(tables[t][k]))
    ensures k !in tables[t] ==> LogHeld(tables, held, k, t)
  {
    NewestPrefix(tables, t, k);
    forall c | t <= c <= |tables| && k !in tables[t] ensures Live(Newest(tables[..c], k)) in held {
      if c == t {
        assert Live(Newest(tables[..t + 1], k)) in held;
      }
    }
  }

  lemma TopHeld(tables: seq<Contents>, held: set<Option<Bytes>>, k: Bytes)
    requires Live(Newest(tables, k)) in held
    ensures LogHeld(tables, held, k, |tables|)
  {
    assert tables[..|tables|] == tables;
  }

  lemma LookActive(s: State, held: set<Option<Bytes>>, x: Reader)
    requires InRange(s) && DiskInv(s.core.disk) && Good(s.core.mem, s.core.disk, held, x)
    requires Live(Newest(s.core.mem.tables, x.key)) in held
    requires s.core.mem.active + 1 == |s.core.mem.tables|
    requires x.pc.LoadActiveTable? || x.pc.SearchActive?
    ensures ReaderInRange(s, x.pc) && Good(s.core.mem, s.core.disk, held, Look(s, x))
  {
    if x.pc.SearchActive? {
      TableSearched(s.core.mem.tables, held, x.key, x.floor + 1, x.pc.t);
    } else {
      TopHeld(s.core.mem.tables, held, x.key);
    }
    hide LogHeld, DiskInv, ResultHeld;
  }

  lemma LookImmutable(s: State, held: set<Option<Bytes>>, x: Reader)
    requires InRange(s) && DiskInv(s.core.disk) && Good(s.core.mem, s.core.disk, held, x)
    requires s.core.mem.active + 1 == |s.core.mem.tables|
    requires s.core.mem.immutable == None ==> s.core.mem.active <= Published(s.core.disk)
    requires s.core.mem.immutable.Some? ==> s.core.mem.active <= s.core.mem.immutable.value + 1
    requires s.core.mem.immutable.Some? ==> s.core.mem.immutable.value <= Published(s.core.disk)
    requires x.pc.LoadImmutable? || x.pc.SearchImmutable?
    ensures ReaderInRange(s, x.pc) && Good(s.core.mem, s.core.disk, held, Look(s, x))
  {
    if x.pc.SearchImmutable? {
      TableSearched(s.core.mem.tables, held, x.key, x.floor, x.pc.t);
    }
    hide LogHeld, DiskInv, ResultHeld, Published;
  }

  lemma SearchLast(d: Disk, v: nat, left: nat, k: Bytes)
    requires Searched(d, v, left, k)
    ensures left == 0 ==> SearchFiles(d.files, d.versions[v].Files(), k) == None
    ensures left > 0 ==>
              var f := d.versions[v].Files()[left - 1];
              if k in d.files[f] then SearchFiles(d.files, d.versions[v].Files(), k) == Some(d.files[f][k])
              else Searched(d, v, left - 1, k)
  {
    if left > 0 {
      var ids := d.versions[v].Files();
      assert ids[..left][..left - 1] == ids[..left - 1];
    }
  }

  lemma LookFiles(s: State, held: set<Option<Bytes>>, x: Reader, found: Option<Bytes>)
    requires InRange(s) && DiskInv(s.core.disk) && x.pc.SearchFile? && ReaderInRange(s, x.pc)
    requires Placed(s.core.mem, s.core.disk, x) && LogHeld(s.core.mem.tables, held, x.key, x.floor)
    requires found == SearchFiles(s.core.disk.files, s.core.disk.versions[x.pc.v].Files(), x.key)
    requires Live(found) in held
    ensures Good(s.core.mem, s.core.disk, held, Look(s, x))
  {
    SearchLast(s.core.disk, x.pc.v, x.pc.left, x.key);
    hide LogHeld, DiskInv, Searched, Covers, InRange;
  }

  lemma LookVersion(s: State, held: set<Option<Bytes>>, x: Reader)
    requires InRange(s) && DiskInv(s.core.disk) && ReaderInRange(s, x.pc) && Good(s.core.mem, s.core.disk, held, x)
    requires x.pc.LoadVersion? || x.pc.LoadRefs? || x.pc.CasRefs?
    requires forall v :: 0 <= v < |s.core.disk.versions| ==> Searched(s.core.disk, v,
        |s.core.disk.versions[v].Files()|, x.key)
    ensures Good(s.core.mem, s.core.disk, held, Look(s, x))
  {
    hide LogHeld, DiskInv, Searched, Covers;
  }

  lemma AllSearched(c: Core, k: Bytes)
    requires CoreInv(c)
    ensures forall v :: 0 <= v < |c.disk.versions| ==> Searched(c.disk, v, |c.disk.versions[v].Files()|, k)
  {
    CoreWellFormed(c);
    forall v | 0 <= v < |c.disk.versions| ensures Searched(c.disk, v, |c.disk.versions[v].Files()|, k) {
      var ids := c.disk.versions[v].Files();
      assert ids[..|ids|] == ids;
    }
  }

  /** The newest entry among the tables a version covers is in the version's files. */
  lemma VersionHeld(c: Core, held: set<Option<Bytes>>, x: Reader)
    requires CoreInv(c) && x.pc.SearchFile? && x.key != []
    requires Covering(c.disk, x.pc.v, x.floor) && LogHeld(c.mem.tables, held, x.key, x.floor)
    ensures WellFormed(c) && Live(SearchFiles(c.disk.files, c.disk.versions[x.pc.v].Files(), x.key)) in held
  {
    VersionIsPrefix(c, x.pc.v, x.key);
    hide CoreInv, DiskInv;
  }

  /** One statement of a Get leaves its knowledge true. */
  lemma GoodLook(s: State, held: set<Option<Bytes>>, x: Reader)
    requires Inv(s) && ReaderInRange(s, x.pc) && Good(s.core.mem, s.core.disk, held, x) && x.key != []
    requires Live(Newest(s.core.mem.tables, x.key)) in held
    ensures InRange(s) && Good(s.core.mem, s.core.disk, held, Look(s, x))
  {
    InvInRange(s);
    NoGap(s.core, Published(s.core.disk));
    AllSearched(s.core, x.key);
    if x.pc.SearchFile? {
      VersionHeld(s.core, held, x);
      LookFiles(s, held, x, SearchFiles(s.core.disk.files, s.core.disk.versions[x.pc.v].Files(), x.key));
    } else if x.pc.LoadActiveTable? || x.pc.SearchActive? {
      LookActive(s, held, x);
    } else if x.pc.LoadImmutable? || x.pc.SearchImmutable? {
      LookImmutable(s, held, x);
    } else if x.pc.LoadVersion? || x.pc.LoadRefs? || x.pc.CasRefs? {
      LookVersion(s, held, x);
    } else {
      hide Inv, CoreInv, InRange, Placed, LogHeld;
    }
    hide Inv, CoreInv, InRange, Good, Look;
  }

  // ------------------------------------------------------------- along a run

  lemma ReaderAfter(s: State, a: Action, r: nat)
    requires InRange(s) && Enabled(s, a) && r in s.readers
    ensures r in Apply(s, a).readers
    ensures Apply(s, a).readers[r] == if a == StepGet(r) then Look(s, s.readers[r]) else s.readers[r]
    ensures a == StepGet(r) ==> Apply(s, a).core == s.core
  {
    hide Look, WorkerCore, PutStep, RotationStep, CloseStep, InRange;
  }

  lemma LookKeepsKey(s: State, x: Reader)
    requires WellFormed(s.core) && |s.refs| == |s.core.disk.versions| && ReaderInRange(s, x.pc)
    ensures Look(s, x).key == x.key
  {
  }

  /** After any step, a Get that was Good is Good with the values held so far. */
  lemma GoodStep(s: State, a: Action, r: nat, held: set<Option<Bytes>>, held': set<Option<Bytes>>)
    requires Inv(s) && Enabled(s, a) && r in s.readers && s.readers[r].key != []
    requires Good(s.core.mem, s.core.disk, held, s.readers[r])
    requires Live(Newest(s.core.mem.tables, s.readers[r].key)) in held && held <= held'
    requires InRange(s) && Live(Newest(Apply(s, a).core.mem.tables, s.readers[r].key)) in held'
    ensures Inv(Apply(s, a)) && r in Apply(s, a).readers && Apply(s, a).readers[r].key == s.readers[r].key
    ensures Good(Apply(s, a).core.mem, Apply(s, a).core.disk, held', Apply(s, a).readers[r])
  {
    var s' := Apply(s, a);
    var x := s.readers[r];
    StepKeeps(s, a);
    ReaderAfter(s, a, r);
    TablesChange(s, a);
    assert LogGrows(s.core.mem.tables, s'.core.mem.tables);
    LookKeepsKey(s, x);
    if a == StepGet(r) {
      GoodLook(s, held, x);
    }
    GoodFrame(s.core.mem, s.core.disk, s'.core.mem, s'.core.disk, held, held', s'.readers[r]);
    hide *;
  }

  lemma HeldGrows(run: seq<State>, i: nat, j: nat, k: Bytes)
    requires i <= j < |run|
    ensures Live(Newest(run[j].core.mem.tables, k)) in Held(run, i, j, k)
    ensures i < j ==> Held(run, i, j - 1, k) <= Held(run, i, j, k)
  {
  }

  ghost predicate GoodAt(s: State, held: set<Option<Bytes>>, r: nat, k: Bytes) {
    && Inv(s) && r in s.readers && s.readers[r].key == k
    && Good(s.core.mem, s.core.disk, held, s.readers[r])
  }

  lemma GoodAtStart(s: State, held: set<Option<Bytes>>, r: nat, k: Bytes)
    requires Inv(s) && r in s.readers && s.readers[r].key == k && s.readers[r].pc == LoadActiveTable
    ensures GoodAt(s, held, r, k)
  {
    hide Inv;
  }

  lemma GoodAtStep(s: State, a: Action, s': State, r: nat, k: Bytes, held: set<Option<Bytes>>,
                   held': set<Option<Bytes>>)
    requires GoodAt(s, held, r, k) && k != [] && Steps(s, a, s')
    requires Live(Newest(s.core.mem.tables, k)) in held && held <= held' && Live(Newest(s'.core.mem.tables, k)) in held'
    ensures GoodAt(s', held', r, k)
  {
    GoodStep(s, a, r, held, held');
    hide Inv, Good, Apply, Enabled, InRange;
  }

  /** A Get begun at state i is Good, at every later state j, with the values its key had in states i .. j. */
  lemma {:induction false} GoodRun(run: seq<State>, acts: seq<Action>, i: nat, j: nat, r: nat, k: Bytes)
    requires IsRun(run, acts) && i <= j < |run| && k != []
    requires r in run[i].readers && run[i].readers[r].key == k && run[i].readers[r].pc == LoadActiveTable
    ensures GoodAt(run[j], Held(run, i, j, k), r, k)
    decreases j
  {
    hide Steps, Init, GoodAt, Inv;
    HeldGrows(run, i, j, k);
    if i == j {
      RunInv(run, acts, j);
      GoodAtStart(run[j], Held(run, i, j, k), r, k);
    } else {
      GoodRun(run, acts, i, j - 1, r, k);
      HeldGrows(run, i, j - 1, k);
      assert Steps(run[j - 1], acts[j - 1], run[j]);
      GoodAtStep(run[j - 1], acts[j - 1], run[j], r, k, Held(run, i, j - 1, k), Held(run, i, j, k));
    }
  }

  /** The value a Get's answer stands for. */
  function Outcome(res: GetResult): Option<Bytes> {
    if res.Found? then Some(res.val) else None
  }

  /**
   Linearizability of Get: for any number of concurrent readers, writers, rotations, flushes,
   compactions, purges and a Close, a Get that returns without an error returns the value the
   view held for its (non-empty) key in some state between its first statement and its return.
   */
  lemma GetIsLinearizable(run: seq<State>, acts: seq<Action>, i: nat, j: nat, r: nat, k: Bytes)
    requires IsRun(run, acts) && i <= j < |run| && k != []
    requires r in run[i].readers && run[i].readers[r].key == k && run[i].readers[r].pc == LoadActiveTable
    requires r in run[j].readers && run[j].readers[r].pc.Returned? && run[j].readers[r].pc.res != ReadError
    ensures exists m ::
              i <= m <= j && WellFormed(run[m].core) && View(run[m].core, k) == Outcome(run[j].readers[r].pc.res)
  {
    GoodRun(run, acts, i, j, r, k);
    var res := run[j].readers[r].pc.res;
    assert Outcome(res) in Held(run, i, j, k) by {
      hide Inv, CoreInv;
    }
    var m :| i <= m <= j && Live(Newest(run[m].core.mem.tables, k)) == Outcome(res);
    RunInv(run, acts, m);
    ViewIsNewest(run[m].core, k);
  }
}
