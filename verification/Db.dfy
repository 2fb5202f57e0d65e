/**
 The engine with one client and no background thread running at the same time (internal/engine/db.go), over real
 MemTables, log bytes and file bytes. The background worker's turns are methods of their own, so that they may come
 at any point between two calls.
 */
module Db {
  import opened Options
  import opened ByteStrings
  import opened Layers
  import opened Entries
  import opened Bloom
  import opened TableFormat
  import opened TableReader
  import opened MemTables
  import opened DbReads
  import SkipList
  import SkipListSearch
  import Compactor
  import CompactionUnion
  import Engine
  import EngineSafety
  import opened Limits
  import opened Shots
  import Wal

  lemma MapsSnoc(tables: map<nat, seq<Entry>>, ids: seq<nat>, f: nat)
    ensures MapsOf(tables, ids + [f]) == MapsOf(tables, ids) + [ToMap(EntriesOf(tables, f))]
  {
    hide EntriesOf, ToMap;
  }

  lemma MapsFrame(shape: Shape, disk: FileSystem, tables: map<nat, seq<Entry>>, disk': FileSystem,
                  tables': map<nat, seq<Entry>>, ids: seq<nat>)
    requires FilesAre(shape, disk, tables, ids)
    requires forall i :: 0 <= i < |ids| ==> ids[i] in disk' && ids[i] in tables'
    requires forall i :: 0 <= i < |ids| && ids[i] in disk && ids[i] in tables ==>
        disk'[ids[i]] == disk[ids[i]] && tables'[ids[i]] == tables[ids[i]]
    ensures FilesAre(shape, disk', tables', ids) && MapsOf(tables', ids) == MapsOf(tables, ids)
  {
    hide IsTable, AllPuts, ToMap;
    forall i | 0 <= i < |ids| ensures FileIs(shape, disk', tables', ids[i])
        && EntriesOf(tables', ids[i]) == EntriesOf(tables, ids[i]) {
      assert FileIs(shape, disk, tables, ids[i]);
    }
  }

  /** A MemTable's listing, written to a file, is a table that says of every key what the MemTable says. */
  lemma FlushedFile(m: MemTable, shape: Shape)
    requires m.Valid() && shape.Valid()
    requires AllFit(SkipListSearch.Listing(m.List())) && |Data(SkipListSearch.Listing(m.List()))| < MAX_DATA
    ensures SkipList.Ordered(m.List())
    ensures var es := SkipListSearch.Listing(m.List());
            IsTable(shape.fnv, File(shape, es), shape, es) && AllPuts(es) && ToMap(es) == m.Table()
  {
    hide Writable, File, Data, AllFit;
    SmallIsWritable(shape, SkipListSearch.Listing(m.List()));
    SkipListSearch.ListingIsTable(m.List());
  }

  lemma RecoveredTable(crc: Wal.Checksum, file: Option<Bytes>, table: Contents)
    requires if file == None then table == map[]
             else table == map[] + Replay(Wal.Effects(Wal.Readable(crc, file.value)))
    ensures table == Replay(Wal.Effects(Wal.Readable(crc, if file.Some? then file.value else [])))
  {
    if file == None {
      Wal.TakeNothing(crc);
      Wal.NothingReadable(crc, []);
    }
  }

  lemma OneLayer(db: DB, k: Bytes)
    requires db.active.Valid() && db.immutable == null && db.Layers() == [db.active.Table()]
    ensures db.View(k) == Live(At(db.active.Table(), k))
  {
    assert db.Layers() == [] + [db.active.Table()];
    TopOf([], db.active.Table(), k);
  }

  // -------------------------------------------------------- limits of a file

  /** What a MemTable's file will hold. */
  ghost function ListOf(m: MemTable): seq<Entry>
    reads m
    requires m.Valid()
  {
    SkipListSearch.Listing(m.List())
  }

  lemma ListingIs(m: MemTable)
    requires m.Valid()
    ensures IsListing(ListOf(m)) && ToMap(ListOf(m)) == m.Table()
  {
    SkipListSearch.ListingIsTable(m.List());
    hide SkipList.Ordered, SkipListSearch.Listing, ToMap, Less;
  }

  /** What a replayed log puts on its way to a file. */
  lemma FirstStock(db: DB, ws: seq<(Bytes, Bytes)>)
    requires db.active.Valid() && db.immutable == null && db.Stock() == [ListOf(db.active)]
    requires db.active.Table() == Replay(ws)
    ensures WritesStorable(ws) ==> db.Fitting()
    ensures db.Weight() <= WritesSize(ws)
  {
    hide IsListing, AllStorable, WritesStorable, Data, StockFits, Compactor.DataSize;
    ListingIs(db.active);
    ListingOfLog(ListOf(db.active), ws);
    assert [] + [ListOf(db.active)] == db.Stock();
    StockTop([], ListOf(db.active));
    NoStock();
  }

  lemma StockSplit(db: DB)
    requires db.active.Valid() && (db.immutable != null ==> db.immutable.Valid())
    ensures db.Stock() == db.OlderLists() + [ListOf(db.active)]
  {
    hide MemTable.Valid, ListOf, TableList;
  }

  /** Freezing a table leaves its listing alone. */
  lemma SameListing(es: seq<Entry>, m: MemTable)
    requires m.Valid() && IsListing(es) && ToMap(es) == m.Table()
    ensures ListOf(m) == es
  {
    hide IsListing, MemTable.Valid, ListOf;
    ListingIs(m);
    ListingUnique(es, ListOf(m));
  }

  lemma EmptyListing(m: MemTable)
    requires m.Valid() && m.Table() == map[]
    ensures ListOf(m) == []
  {
    hide MemTable.Valid, ListOf;
    SameListing([], m);
  }

  // --------------------------------------------------------------------- DB

  class DB {
    const shape: Shape
    const flushThreshold: nat
    const compactionThreshold: nat
    const wal: Wal.Log
    var active: MemTable
    var immutable: MemTable?
    var flushQ: seq<MemTable>
    var disk: FileSystem
    var l0: seq<nat>
    var l1: seq<nat>
    var nextFile: nat
    ghost var tables: map<nat, seq<Entry>>
    ghost var records: seq<Entry>

    ghost function Repr(): set<object>
      reads this
    {
      if immutable == null then {this, wal, active} else {this, wal, active, immutable as object}
    }

    ghost predicate FilesOk()
      reads this
    {
      && shape.Valid()
      && FilesAre(shape, disk, tables, l0) && FilesAre(shape, disk, tables, l1)
      && (forall f :: f in disk ==> f < nextFile)
      && forall i, j :: 0 <= i < |l0| && 0 <= j < |l1| ==> l0[i] != l1[j]
    }

    ghost predicate Valid()
      reads this, wal, active, immutable
    {
      && FilesOk()
      && active.Valid() && !active.frozen && |wal.buffer| <= Wal.BUFFER_SIZE
      && (immutable != null ==> immutable.Valid() && immutable != active)
      && flushQ == if immutable == null then [] else [immutable]
    }

    /** The files' contents, the oldest first. */
    ghost function FileMaps(): seq<Contents>
      reads this
    {
      MapsOf(tables, l1) + MapsOf(tables, l0)
    }

    ghost function Below(): seq<Contents>
      reads this, active, immutable
      requires immutable != null ==> immutable.Valid()
    {
      FileMaps() + if immutable == null then [] else [immutable.Table()]
    }

    /** All layers a read searches, the oldest first. */
    ghost function Layers(): seq<Contents>
      reads this, active, immutable
      requires active.Valid() && (immutable != null ==> immutable.Valid())
    {
      Below() + [active.Table()]
    }

    /** The abstract map. */
    ghost function View(k: Bytes): Option<Bytes>
      reads this, active, immutable
      requires active.Valid() && (immutable != null ==> immutable.Valid())
    {
      Live(Newest(Layers(), k))
    }

    /**
     The log holds the encoding of all writes so far, and replaying them gives the view of every key but the
     empty one.
     */
    ghost predicate Faithful()
      reads this, wal, active, immutable
      requires active.Valid() && (immutable != null ==> immutable.Valid())
    {
      && wal.Contents() == Wal.EncodeAll(wal.crc, records) && AllFit(records)
      && forall k: Bytes :: k != [] ==> View(k) == Live(At(Replay(Wal.Effects(records)), k))
    }

    /** Point lookups answer for every key in every file. */
    ghost predicate KeysOk()
      reads this
    {
      FirstKeysOk(tables, l0) && FirstKeysOk(tables, l1)
    }

    /** The whole state as a value. */
    ghost function Snapshot(): Shot
      reads this, active, immutable
      requires active.Valid() && (immutable != null ==> immutable.Valid())
    {
      Shot(active.Table(), active.size, if immutable == null then None else Some(immutable.Table()),
           MapsOf(tables, l0), MapsOf(tables, l1), Wal.Effects(records))
    }

    /** What the MemTables' files will hold, the older table first. */
    ghost function MemLists(): seq<seq<Entry>>
      reads this, active, immutable
      requires active.Valid() && (immutable != null ==> immutable.Valid())
    {
      (if immutable == null then [] else [ListOf(immutable)]) + [ListOf(active)]
    }

    /** The lists on their way to a file of level 1, the oldest first. */
    ghost function Stock(): seq<seq<Entry>>
      reads this, active, immutable
      requires active.Valid() && (immutable != null ==> immutable.Valid())
    {
      TableList(tables, l0) + MemLists()
    }

    /** All of them but the active table's. */
    ghost function OlderLists(): seq<seq<Entry>>
      reads this, immutable
      requires immutable != null ==> immutable.Valid()
    {
      TableList(tables, l0) + if immutable == null then [] else [ListOf(immutable)]
    }

    /** None of them breaks a file's limits. */
    ghost predicate Fitting()
      reads this, active, immutable
      requires active.Valid() && (immutable != null ==> immutable.Valid())
    {
      StockFits(Stock())
    }

    /** The bytes of records in them. */
    ghost function Weight(): nat
      reads this, active, immutable
      requires active.Valid() && (immutable != null ==> immutable.Valid())
    {
      Compactor.DataSize(Stock())
    }

    constructor Make(shape: Shape, flushThreshold: nat, compactionThreshold: nat, wal: Wal.Log, table: MemTable,
                     ghost records: seq<Entry>)
      requires shape.Valid() && table.Valid() && !table.frozen && |wal.buffer| <= Wal.BUFFER_SIZE
      ensures Valid() && this.shape == shape && this.wal == wal && active == table && immutable == null
      ensures this.flushThreshold == flushThreshold && this.compactionThreshold == compactionThreshold
      ensures Repr() == {this, wal, table}
      ensures this.records == records && l0 == [] && l1 == [] && KeysOk() && Layers() == [table.Table()]
      ensures Stock() == [ListOf(table)]
      ensures Snapshot() == Shot(table.Table(), table.size, None, [], [], Wal.Effects(records))
    {
      this.shape, this.flushThreshold, this.compactionThreshold := shape, flushThreshold, compactionThreshold;
      this.wal, active, immutable, flushQ := wal, table, null, [];
      disk, l0, l1, nextFile := map[], [], [], 0;
      tables := map[];
      this.records := records;
      new;
      assert TableList(tables, l0) == [];
    }

    /** NewDB: the first MemTable holds what Recover reads off the log; a log with a wrong magic byte is refused. */
    static method Open(crc: Wal.Checksum, file: Option<Bytes>, shape: Shape, flushThreshold: nat,
                       compactionThreshold: nat)
      returns (r: Result<DB, Wal.RecoverError>)
      requires shape.Valid()
      ensures r.Err? <==> file.Some? && Wal.Take(crc, Wal.Leftover(crc, file.value)) == Wal.BadMagic
      ensures r.Ok? ==>
                var b := if file.Some? then file.value else [];
                && fresh(r.value) && fresh(r.value.Repr()) && r.value.Valid()
                && r.value.wal.crc == crc && r.value.wal.Contents() == b
                && r.value.records == Wal.Readable(crc, b)
                && r.value.l0 == [] && r.value.l1 == [] && r.value.KeysOk()
                && (forall k: Bytes :: r.value.View(k) == Live(At(Replay(Wal.Effects(Wal.Readable(crc, b))), k)))
                && (WritesStorable(Wal.Effects(Wal.Readable(crc, b))) ==> r.value.Fitting())
                && IsFirst(r.value.Snapshot()) && r.value.Snapshot().writes == Wal.Effects(Wal.Readable(crc, b))
                && r.value.Weight() <= WritesSize(Wal.Effects(Wal.Readable(crc, b)))
    {
      hide *;
      var b := if file.Some? then file.value else [];
      var log := new Wal.Log(crc, b);
      var table := new MemTable();
      var res := Wal.Recover(crc, file, table);
      if res.Err? {
        return Err(res.error);
      }
      ghost var records := Wal.Readable(crc, b);
      RecoveredTable(crc, file, table.Table());
      var db := new DB.Make(shape, flushThreshold, compactionThreshold, log, table, records);
      forall k: Bytes ensures db.View(k) == Live(At(Replay(Wal.Effects(records)), k)) {
        OneLayer(db, k);
      }
      FirstStock(db, Wal.Effects(records));
      FirstShot(db.Snapshot(), Wal.Effects(records));
      r := Ok(db);
    }

    /** Append to the log and insert into the active table. */
    method LogAndInsert(op: byte, key: Bytes, val: Bytes)
      requires Valid() && (op == OP_DELETE ==> val == [])
      modifies this, wal, active
      ensures Valid() && Repr() == old(Repr()) && active == old(active) && immutable == old(immutable)
      ensures records == old(records) + [Entry(op, key, val)]
      ensures l0 == old(l0) && l1 == old(l1) && tables == old(tables)
      ensures wal.Contents() == old(wal.Contents()) + Wal.Encode(wal.crc, Entry(op, key, val))
      ensures old(Fitting()) && Storable(key, val) ==> Fitting()
      ensures Weight() <= old(Weight()) + 7 + |key| + |val|
      ensures Snapshot() == Inserted(old(Snapshot()), key, val)
    {
      hide FilesAre, MapsOf, MemTable.Valid, MemTable.Table, Wal.Encode, Wal.Log.Contents, Wal.Effects, ListOf,
          StockFits, Storable, TableList, Compactor.DataSize, Stock;
      ghost var lists, es := OlderLists(), ListOf(active);
      ListingIs(active);
      StockSplit(this);
      wal.Append(op, key, val);
      var ok := active.Put(key, val);
      EffectsGrow(records, Entry(op, key, val));
      records := records + [Entry(op, key, val)];
      ListingIs(active);
      StockAfterPut(lists, es, ListOf(active), key, val);
      StockSplit(this);
    }

    /** The shared body of Put and Delete: log and insert, and rotate when the table has grown to the threshold. */
    method Mutate(op: byte, key: Bytes, val: Bytes)
      requires Valid() && (op == OP_DELETE ==> val == [])
      modifies this, wal, active
      ensures Valid() && fresh(Repr() - old(Repr()))
      ensures forall k: Bytes :: View(k) == if k == key then Live(Some(val)) else old(View(k))
      ensures records == old(records) + [Entry(op, key, val)]
      ensures l0 == old(l0) && l1 == old(l1) && tables == old(tables) && KeysOk() == old(KeysOk())
      ensures active == old(active) || fresh(active)
      ensures wal.Contents() == old(wal.Contents()) + Wal.Encode(wal.crc, Entry(op, key, val))
      ensures old(Fitting()) && Storable(key, val) ==> Fitting()
      ensures Weight() <= old(Weight()) + 7 + |key| + |val|
      ensures flushThreshold > 0 && active.size >= flushThreshold ==> old(immutable) != null
      ensures (active == old(active) && immutable == old(immutable))
              || (old(immutable) == null && immutable == old(active) && immutable.frozen
                  && immutable.size >= flushThreshold)
      ensures Snapshot() == AfterPut(old(Snapshot()), flushThreshold, key, val)
    {
      hide FilesOk, MemTable.Valid, Wal.Encode, Wal.Log.Contents, View, ViewOf, Fitting, Weight, Live, Storable,
          Inserted, Wal.Effects, MapsOf, MemTable.Table, FirstKeysOk;
      ghost var shot := Snapshot();
      ViewsAre(this);
      LogAndInsert(op, key, val);
      var size := active.Size();
      if size >= flushThreshold {
        CheckFlush();
      }
      ViewsAre(this);
      InsertedViews(shot, key, val);
      RotatedViews(Inserted(shot, key, val), flushThreshold);
    }

    /** CheckFlush: freeze the full table, make it the immutable one and queue it, unless one is still being flushed. */
    method CheckFlush()
      requires Valid()
      modifies this, active
      ensures Valid() && fresh(Repr() - old(Repr()))
      ensures forall k: Bytes :: View(k) == old(View(k))
      ensures records == old(records) && disk == old(disk)
      ensures l0 == old(l0) && l1 == old(l1) && tables == old(tables) && KeysOk() == old(KeysOk())
      ensures active == old(active) || fresh(active)
      ensures old(Fitting()) ==> Fitting()
      ensures Weight() == old(Weight())
      ensures Snapshot() == Rotated(old(Snapshot()), flushThreshold)
      ensures if old(active.size) >= flushThreshold && old(immutable) == null
              then immutable == old(active) && immutable.frozen && immutable.size == old(active.size)
                  && fresh(active) && active.Table() == map[] && active.size == 0
              else active == old(active) && immutable == old(immutable)
    {
      hide FilesAre, MapsOf, View, ViewOf, MemTable.Valid, MemTable.Table, ListOf, StockFits, TableList,
          Compactor.DataSize, Wal.Effects;
      RotatedViews(Snapshot(), flushThreshold);
      ViewsAre(this);
      var size := active.Size();
      if size < flushThreshold {
        return;
      }
      if immutable != null {
        return;
      }
      ghost var lists, es := TableList(tables, l0), ListOf(active);
      assert Stock() == lists + [es];
      ListingIs(active);
      active.Freeze();
      SameListing(es, active);
      immutable := active;
      active := new MemTable();
      EmptyListing(active);
      EmptyStock(lists + [es]);
      assert lists + [es] + [[]] == Stock();
      flushQ := flushQ + [immutable];
      ViewsAre(this);
    }

    /** Put. */
    method Put(key: Bytes, val: Bytes)
      requires Valid()
      modifies this, wal, active
      ensures Valid() && fresh(Repr() - old(Repr()))
      ensures forall k: Bytes :: View(k) == if k == key then Live(Some(val)) else old(View(k))
      ensures wal.Contents() == old(wal.Contents()) + Wal.Encode(wal.crc, Entry(OP_PUT, key, val))
      ensures l0 == old(l0) && l1 == old(l1) && tables == old(tables) && KeysOk() == old(KeysOk())
      ensures active == old(active) || fresh(active)
      ensures old(Faithful()) && |key| < 0x1_0000 && |val| < 0x1_0000_0000 ==> Faithful()
      ensures old(Fitting()) && Storable(key, val) ==> Fitting()
      ensures Weight() <= old(Weight()) + 7 + |key| + |val|
      ensures flushThreshold > 0 && active.size >= flushThreshold ==> old(immutable) != null
      ensures Snapshot() == AfterPut(old(Snapshot()), flushThreshold, key, val)
    {
      hide FilesOk, MemTable.Valid, Wal.Encode, Wal.Log.Contents, View, Fitting, Weight, Storable, Replay, AllFit,
          Snapshot, AfterPut;
      ghost var rec := Entry(OP_PUT, key, val);
      ghost var faithful, before, bytes := Faithful(), records, wal.Contents();
      Mutate(OP_PUT, key, val);
      if faithful && Fits(rec) {
        StaysFaithful(this, before, bytes, rec);
      }
    }

    /** Delete: a Put of an empty value under another op code. */
    method Delete(key: Bytes)
      requires Valid()
      modifies this, wal, active
      ensures Valid() && fresh(Repr() - old(Repr()))
      ensures forall k: Bytes :: View(k) == if k == key then None else old(View(k))
      ensures wal.Contents() == old(wal.Contents()) + Wal.Encode(wal.crc, Entry(OP_DELETE, key, []))
      ensures l0 == old(l0) && l1 == old(l1) && tables == old(tables) && KeysOk() == old(KeysOk())
      ensures active == old(active) || fresh(active)
      ensures old(Faithful()) && |key| < 0x1_0000 ==> Faithful()
      ensures old(Fitting()) && Storable(key, []) ==> Fitting()
      ensures Weight() <= old(Weight()) + 7 + |key|
      ensures flushThreshold > 0 && active.size >= flushThreshold ==> old(immutable) != null
      ensures Snapshot() == AfterPut(old(Snapshot()), flushThreshold, key, [])
    {
      hide FilesOk, MemTable.Valid, Wal.Encode, Wal.Log.Contents, View, Fitting, Weight, Storable, Replay, AllFit,
          Snapshot, AfterPut;
      ghost var rec := Entry(OP_DELETE, key, []);
      ghost var faithful, before, bytes := Faithful(), records, wal.Contents();
      Mutate(OP_DELETE, key, []);
      if faithful && Fits(rec) {
        StaysFaithful(this, before, bytes, rec);
      }
    }

    /** Get: active table, immutable table, level 0, level 1, each level from its newest file back. */
    method Get(key: Bytes) returns (r: Result<Option<Bytes>, ReadError>)
      requires Valid()
      ensures KeysOk() ==> r == Ok(View(key))
    {
      LookupLayers(this, key);
      assert KeysOk() ==> FirstKeysOk(tables, l0) && FirstKeysOk(tables, l1);
      hide *;
      var x := active.Get(key);
      if x.Some? {
        return Ok(Live(x));
      }
      if immutable != null {
        x := immutable.Get(key);
        if x.Some? {
          return Ok(Live(x));
        }
      }
      var y := SearchLevel(shape, disk, l0, key, tables);
      if y.Err? || y.value.Some? {
        return AnswerOf(y);
      }
      y := SearchLevel(shape, disk, l1, key, tables);
      r := AnswerOf(y);
    }

    /** Scan: merge the layers from the newest down, then sort. */
    method Scan(lo: Bytes, hi: Bytes) returns (r: Result<seq<KeyValue>, ReadError>)
      requires Valid()
      ensures r.Ok? && IsLiveRange(Layers(), lo, hi, r.value)
    {
      ghost var top := [active.Table()];
      ScanLayers(this);
      GatheredNothing(lo, hi);
      hide *;
      var seen: set<Bytes>, found: seq<KeyValue> := {}, [];
      var items := active.Scan(lo, hi);
      seen, found := GatherPairs(items, seen, found, active.Table(), [], lo, hi);
      if immutable != null {
        items := immutable.Scan(lo, hi);
        seen, found := GatherPairs(items, seen, found, immutable.Table(), top, lo, hi);
      }
      ghost var mem := if immutable == null then top else [immutable.Table()] + top;
      var err;
      err, seen, found := ScanLevel(shape, disk, l0, lo, hi, seen, found, tables, mem);
      if err == None {
        err, seen, found := ScanLevel(shape, disk, l1, lo, hi, seen, found, tables, MapsOf(tables, l0) + mem);
      }
      GatheredIsLive(Layers(), lo, hi, seen, found);
      r := ScanResult(err, found);
    }

    /**
     The flush worker's turn: write the queued table to a new file, publish it as the newest of level 0, drop the
     immutable table. `due` asks for a compaction.
     */
    method FlushNext() returns (due: bool)
      requires Valid() && flushQ != []
      requires AllFit(SkipListSearch.Listing(flushQ[0].List()))
          && |Data(SkipListSearch.Listing(flushQ[0].List()))| < MAX_DATA
      modifies this
      ensures Valid() && Repr() <= old(Repr()) && active == old(active)
      ensures forall k: Bytes :: View(k) == old(View(k))
      ensures old(Faithful()) ==> Faithful()
      ensures immutable == null && l0 == old(l0 + [nextFile]) && l1 == old(l1) && due == (|l0| >= compactionThreshold)
      ensures nextFile == old(nextFile) + 1 && old(nextFile) in tables
          && ToMap(tables[old(nextFile)]) == old(immutable.Table())
      ensures tables == old(tables)[old(nextFile) := old(SkipListSearch.Listing(flushQ[0].List()))]
      ensures KeysOk() <==> old(KeysOk()) && FirstKeyOk(old(SkipListSearch.Listing(flushQ[0].List())))
      ensures Stock() == old(Stock()) && Snapshot() == Flushed(old(Snapshot()))
    {
      hide FilesAre, MapsOf, View, ViewOf, MemTable.Valid, MemTable.Table, MemTable.List, IsTable, AllPuts, Writable,
          File, ToMap, SkipListSearch.Listing, FileIs, Shape.Valid, Replay, Wal.Effects, Wal.EncodeAll,
              Wal.Log.Contents, Data, AllFit,
        FirstKeysOk, FirstKeyOk, EntriesOf, SkipListSearch.TableOf, TableList;
      FlushedViews(Snapshot());
      ViewsAre(this);
      var m := flushQ[0];
      FlushedFile(m, shape);
      ghost var es, table := SkipListSearch.Listing(m.List()), m.Table();
      NextIsNew(shape, disk, tables, l0, nextFile);
      AddedList(tables, l0, nextFile, es);
      ghost var lists := TableList(tables, l0);
      assert Stock() == lists + [es] + [ListOf(active)];
      AddedFile(shape, disk, tables, l0, l1, nextFile, File(shape, es), es);
      AddedKeys(tables, l0, l1, nextFile, es);
      var path := nextFile;
      var file := FlushMemTable(m, shape);
      flushQ := flushQ[1..];
      disk := disk[path := file];
      tables := tables[path := es];
      nextFile := nextFile + 1;
      l0 := l0 + [path];
      immutable := null;
      assert Stock() == lists + [es] + [ListOf(active)];
      ViewsAre(this);
      due := |l0| >= compactionThreshold;
    }

    /**
     maybeCompact: once level 0 has grown to the threshold, its files become one file of level 1, and are deleted. Every
     key but the empty one keeps what it reads as; so does the empty one when no input file has it.
     */
    method MaybeCompact() returns (err: Option<ReadError>)
      requires Valid() && Compactor.DataSize(TableList(tables, l0)) < MAX_DATA
      modifies this
      ensures Valid() && Repr() == old(Repr()) && active == old(active) && immutable == old(immutable)
      ensures forall k: Bytes :: SurvivesCompaction(old(tables), old(l0), k) ==> View(k) == old(View(k))
      ensures old(Faithful()) ==> Faithful()
      ensures err.Some? ==> exists f :: f in old(l0) && f in old(disk) && Compactor.Refused(old(disk)[f])
      ensures if old(|l0| < compactionThreshold) || err.Some? then disk == old(disk) && l0 == old(l0)
          && l1 == old(l1) && tables == old(tables)
              else
                && l0 == [] && l1 == old(l1 + [nextFile]) && old(nextFile) in tables
                && Compactor.Compacted(old(TableList(tables, l0)), tables[old(nextFile)])
                && tables == old(tables)[old(nextFile) := tables[old(nextFile)]]
                && (KeysOk() <==> FirstKeysOk(old(tables), old(l1)) && FirstKeyOk(tables[old(nextFile)]))
                && forall f :: f in old(l0) ==> f !in disk
      ensures old(KeysOk()) && NoEmptyKey(old(tables), old(l0)) ==> KeysOk()
      ensures Stock() == old(Stock()) || Stock() == old(MemLists())
      ensures Snapshot() == if old(|l0| < compactionThreshold) || err.Some? then old(Snapshot())
          else Merged(old(Snapshot()))
    {
      hide FilesAre, MapsOf, View, ViewOf, MemTable.Valid, MemTable.Table, MemTable.List, IsTable, AllPuts, Writable,
          File, ToMap,
        FileIs, Shape.Valid, Replay, Wal.Effects, Wal.EncodeAll, Wal.Log.Contents, Compactor.Compacted, TableList,
            SurvivesCompaction, FirstKeysOk, FirstKeyOk, NoEmptyKey, FilesOk, Layers, Stock, MemLists, Snapshot,
            Merged;
      err := None;
      MergedViews(Snapshot());
      ViewsAre(this);
      SurvivesMeans(this);
      if |l0| < compactionThreshold {
        return;
      }
      var batch := l0;
      NonEmptySurvives(tables, batch);
      LevelFiles(this);
      var file;
      ghost var out;
      err, file, out := MergeFiles(shape, disk, batch, tables);
      if err.Some? {
        return;
      }
      MergedKeys(shape, disk, tables, batch, out);
      Install(batch, file, out);
      Purge(batch);
      ViewsAre(this);
    }

    /**
     One turn of the flush worker's loop: flush the queued table, if there is one, and compact when level 0 has grown to
     the threshold. With writes that fit the files' limits it changes nothing a client sees.
     */
    method WorkerTurn()
      requires Valid() && Fitting() && Weight() < MAX_DATA
      modifies this
      ensures Valid() && Repr() <= old(Repr()) && active == old(active)
      ensures forall k: Bytes :: View(k) == old(View(k))
      ensures old(KeysOk()) ==> KeysOk()
      ensures old(Faithful()) ==> Faithful()
      ensures Fitting() && Weight() <= old(Weight())
      ensures Snapshot() == AfterWork(old(Snapshot()), compactionThreshold)
      ensures flushQ == [] && (old(flushQ) != [] && compactionThreshold > 0 ==> |l0| < compactionThreshold)
    {
      hide FilesOk, MemTable.Valid, View, KeysOk, Faithful, Stock, StockFits, Compactor.DataSize, FirstKeyOk, Data,
          AllFit,
          Merged, Flushed;
      if |flushQ| == 0 {
        return;
      }
      FlushFits(this);
      var due := FlushNext();
      if due {
        BatchFits(this);
        var err := MaybeCompact();
      }
    }

    /** The manifest swap after a compaction. */
    method Install(batch: seq<nat>, file: Bytes, ghost out: seq<Entry>)
      requires Valid() && batch == l0 && Writable(shape, out) && file == File(shape, out)
      requires Compactor.Compacted(TableList(tables, batch), out)
      modifies this`disk, this`tables, this`nextFile, this`l0, this`l1
      ensures Valid() && l0 == [] && l1 == old(l1 + [nextFile])
      ensures disk == old(disk[nextFile := file]) && tables == old(tables)[old(nextFile) := out]
          && nextFile == old(nextFile) + 1
      ensures forall i :: 0 <= i < |batch| ==> batch[i] !in l1
      ensures KeysOk() <==> FirstKeysOk(old(tables), old(l1)) && FirstKeyOk(out)
      ensures Stock() == old(MemLists()) && Snapshot() == Merged(old(Snapshot()))
    {
      hide FilesAre, MapsOf, View, ViewOf, MemTable.Valid, MemTable.Table, MemTable.List, IsTable, AllPuts, Writable,
          File, ToMap,
        FileIs, Shape.Valid, Compactor.Compacted, TableList, SurvivesCompaction, FirstKeysOk, FirstKeyOk,
            EntriesOf, Find, Wal.Effects, ListOf, Union, LayersOf;
      BatchOutput(shape, disk, tables, batch, out);
      BatchUnion(tables, batch, out);
      AddedFile(shape, disk, tables, l0, l1, nextFile, file, out);
      AddedKeys(tables, l0, l1, nextFile, out);
      var path := nextFile;
      disk, nextFile := disk[path := file], nextFile + 1;
      tables := tables[path := out];
      EngineSafety.NothingRemains(l0, batch);
      l0, l1 := Engine.Remaining(l0, batch), l1 + [path];
      NoFiles(shape, disk, tables);
    }

    /** PurgeObsoleteFiles, with no reader left: the files are deleted one after the other. */
    method Purge(files: seq<nat>)
      requires Valid() && forall i :: 0 <= i < |files| ==> files[i] !in l0 && files[i] !in l1
      modifies this`disk
      ensures Valid() && Layers() == old(Layers()) && KeysOk() == old(KeysOk())
      ensures Stock() == old(Stock()) && Snapshot() == old(Snapshot())
      ensures forall f :: f in disk <==> f in old(disk) && f !in files
      ensures forall f :: f in disk ==> disk[f] == old(disk)[f]
    {
      var i := 0;
      hide FilesAre, MapsOf, MemTable.Valid, MemTable.Table, MemTable.List, IsTable, AllPuts, ToMap, FileIs,
          Shape.Valid;
      ghost var before := disk;
      while i < |files|
        invariant i <= |files|
        invariant forall f :: f in disk <==> f in before && f !in files[..i]
        invariant forall f :: f in disk ==> disk[f] == before[f]
      {
        disk := disk - {files[i]};
        i := i + 1;
      }
      assert files[..i] == files;
      LevelSurvives(shape, before, disk, tables, l0);
      LevelSurvives(shape, before, disk, tables, l1);
    }
  }

  /** The view is the snapshot's. */
  lemma ViewsAre(db: DB)
    requires db.active.Valid() && (db.immutable != null ==> db.immutable.Valid())
    ensures forall k: Bytes :: db.View(k) == ViewOf(db.Snapshot(), k)
  {
    hide MapsOf, Newest, Live, MemTable.Valid, MemTable.Table, Wal.Effects;
    assert db.Layers() == LayersOf(db.Snapshot());
  }

  lemma EffectsGrow(rs: seq<Entry>, r: Entry)
    ensures Wal.Effects(rs + [r]) == Wal.Effects(rs) + [Wal.Effect(r)]
  {
    hide Wal.Effect;
  }

  /** A key that survives a compaction is not the empty one, or in no map of level 0. */
  lemma SurvivesMeans(db: DB)
    requires db.active.Valid() && (db.immutable != null ==> db.immutable.Valid())
    ensures forall k: Bytes :: SurvivesCompaction(db.tables, db.l0, k) ==>
              k != [] || forall i :: 0 <= i < |db.Snapshot().l0| ==> k !in db.Snapshot().l0[i]
  {
    forall i | 0 <= i < |db.l0| && Find(EntriesOf(db.tables, db.l0[i]), []) == None
      ensures [] !in MapsOf(db.tables, db.l0)[i]
    {
      ToMapAt(EntriesOf(db.tables, db.l0[i]), []);
    }
    hide Find, ToMap, MemTable.Valid, Wal.Effects;
  }

  ghost function TableList(tables: map<nat, seq<Entry>>, ids: seq<nat>): (ts: seq<seq<Entry>>)
    ensures |ts| == |ids| && forall i :: 0 <= i < |ts| ==> ts[i] == EntriesOf(tables, ids[i])
  {
    seq(|ids|, i requires 0 <= i < |ids| => EntriesOf(tables, ids[i]))
  }

  /** Every key but the empty one, and that one too when no file of the batch has it. */
  ghost predicate SurvivesCompaction(tables: map<nat, seq<Entry>>, batch: seq<nat>, k: Bytes) {
    k != [] || forall i :: 0 <= i < |batch| ==> Find(EntriesOf(tables, batch[i]), []) == None
  }

  lemma NonEmptySurvives(tables: map<nat, seq<Entry>>, batch: seq<nat>)
    ensures forall k: Bytes :: k != [] ==> SurvivesCompaction(tables, batch, k)
  {
  }

  lemma BatchFiles(shape: Shape, disk: FileSystem, tables: map<nat, seq<Entry>>, ids: seq<nat>)
    requires FilesAre(shape, disk, tables, ids)
    ensures forall i :: 0 <= i < |ids| ==> ids[i] in disk
  {
    hide IsTable, AllPuts;
    forall i | 0 <= i < |ids| ensures ids[i] in disk {
      assert FileIs(shape, disk, tables, ids[i]);
    }
  }

  lemma BatchTables(shape: Shape, disk: FileSystem, tables: map<nat, seq<Entry>>, ids: seq<nat>, files: seq<Bytes>)
    requires FilesAre(shape, disk, tables, ids) && |files| == |ids|
    requires forall i :: 0 <= i < |ids| ==> ids[i] in disk && files[i] == disk[ids[i]]
    ensures forall i :: 0 <= i < |files| ==> IsTable(shape.fnv, files[i], shape, TableList(tables, ids)[i])
    ensures |TableList(tables, ids)| == |ids|
  {
    hide IsTable, AllPuts;
    forall i | 0 <= i < |ids| ensures IsTable(shape.fnv, files[i], shape, TableList(tables, ids)[i]) {
      assert FileIs(shape, disk, tables, ids[i]);
    }
  }

  lemma BatchOutput(shape: Shape, disk: FileSystem, tables: map<nat, seq<Entry>>, ids: seq<nat>, out: seq<Entry>)
    requires FilesAre(shape, disk, tables, ids) && Compactor.Compacted(TableList(tables, ids), out)
        && Writable(shape, out)
    ensures IsTable(shape.fnv, File(shape, out), shape, out) && AllPuts(out)
  {
    hide Writable, File, Find;
    CompactionUnion.OutputFromInputs(TableList(tables, ids), out);
    forall j | 0 <= j < |out| ensures out[j].op == OP_PUT {
      assert out[j] in out;
      var i :| 0 <= i < |ids| && out[j] in TableList(tables, ids)[i];
      assert FileIs(shape, disk, tables, ids[i]);
      var a :| 0 <= a < |TableList(tables, ids)[i]| && TableList(tables, ids)[i][a] == out[j];
    }
  }

  lemma OutputWritable(shape: Shape, disk: FileSystem, tables: map<nat, seq<Entry>>, ids: seq<nat>, out: seq<Entry>)
    requires FilesAre(shape, disk, tables, ids) && Compactor.Compacted(TableList(tables, ids), out) && shape.Valid()
    requires |Data(out)| <= Compactor.DataSize(TableList(tables, ids)) < MAX_DATA
    ensures Writable(shape, out)
  {
    hide Data, Compactor.Compacted, Compactor.DataSize, AllPuts, AllFit, File;
    forall i | 0 <= i < |ids| ensures AllFit(TableList(tables, ids)[i]) {
      assert FileIs(shape, disk, tables, ids[i]);
    }
    CompactionUnion.OutputFromInputs(TableList(tables, ids), out);
    SmallIsWritable(shape, out);
  }

  /** Open, merge and write: the compactor on the files of a batch. */
  method MergeFiles(shape: Shape, disk: FileSystem, batch: seq<nat>, ghost tables: map<nat, seq<Entry>>)
    returns (err: Option<ReadError>, file: Bytes, ghost out: seq<Entry>)
    requires FilesAre(shape, disk, tables, batch) && shape.Valid()
        && Compactor.DataSize(TableList(tables, batch)) < MAX_DATA
    ensures err.Some? ==> exists f :: f in batch && f in disk && Compactor.Refused(disk[f])
    ensures err == None ==>
              Compactor.Compacted(TableList(tables, batch), out) && Writable(shape, out) && file == File(shape, out)
  {
    hide *;
    BatchFiles(shape, disk, tables, batch);
    var files := seq(|batch|, i requires 0 <= i < |batch| => disk[batch[i]]);
    BatchTables(shape, disk, tables, batch, files);
    var res;
    res, out := Compactor.CompactL0toL1(files, shape, TableList(tables, batch));
    if res.Err? {
      ghost var i :| 0 <= i < |files| && Compactor.Refused(files[i]);
      assert batch[i] in batch;
      return Some(res.error), [], [];
    }
    OutputWritable(shape, disk, tables, batch, out);
    err, file := None, res.value;
  }

  /** What a compaction makes of the batch's maps. */
  lemma BatchUnion(tables: map<nat, seq<Entry>>, batch: seq<nat>, out: seq<Entry>)
    requires Compactor.Compacted(TableList(tables, batch), out)
    ensures ToMap(out) == Union(MapsOf(tables, batch)) - {[]}
  {
    hide Compactor.Compacted, ToMap, Find, Union;
    CompactionUnion.CompactedIsUnion(TableList(tables, batch), out);
    assert CompactionUnion.Maps(TableList(tables, batch)) == MapsOf(tables, batch);
  }

  lemma LevelFiles(db: DB)
    requires db.Valid()
    ensures FilesAre(db.shape, db.disk, db.tables, db.l0) && db.shape.Valid()
  {
  }

  lemma AddedList(tables: map<nat, seq<Entry>>, ids: seq<nat>, f: nat, es: seq<Entry>)
    requires forall i :: 0 <= i < |ids| ==> ids[i] < f
    ensures TableList(tables[f := es], ids + [f]) == TableList(tables, ids) + [es]
  {
  }

  lemma NextIsNew(shape: Shape, disk: FileSystem, tables: map<nat, seq<Entry>>, ids: seq<nat>, f: nat)
    requires FilesAre(shape, disk, tables, ids) && forall g :: g in disk ==> g < f
    ensures forall i :: 0 <= i < |ids| ==> ids[i] < f
  {
    BatchFiles(shape, disk, tables, ids);
  }

  /** A table that fits can be flushed, and point lookups will find its keys. */
  lemma FlushFits(db: DB)
    requires db.Valid() && db.Fitting() && db.Weight() < MAX_DATA && db.flushQ != []
    ensures var es := SkipListSearch.Listing(db.flushQ[0].List());
            AllFit(es) && |Data(es)| < MAX_DATA && FirstKeyOk(es)
  {
    hide DB.FilesOk, MemTable.Valid, TableList, Data, Compactor.DataSize, Less;
    ListingIs(db.immutable);
    var files, es := TableList(db.tables, db.l0), ListOf(db.immutable);
    assert db.Stock() == files + [es] + [ListOf(db.active)] by {
      assert [es] + [ListOf(db.active)] == db.MemLists();
    }
    StockTop(files + [es], ListOf(db.active));
    StockTop(files, es);
  }

  /** Level 0 can be compacted without an error, and no key is dropped. */
  lemma BatchFits(db: DB)
    requires db.Valid() && db.Fitting() && db.Weight() < MAX_DATA
    ensures Compactor.DataSize(TableList(db.tables, db.l0)) < MAX_DATA && NoEmptyKey(db.tables, db.l0)
    ensures forall k: Bytes :: SurvivesCompaction(db.tables, db.l0, k)
    ensures forall f :: f in db.l0 && f in db.disk ==> !Compactor.Refused(db.disk[f])
    ensures StockFits(db.MemLists()) && Compactor.DataSize(db.MemLists()) <= db.Weight()
  {
    forall f | f in db.l0 && f in db.disk ensures !Compactor.Refused(db.disk[f]) {
      NoFileRefused(db, f);
    }
    hide DB.FilesOk, MemTable.Valid, Data, Compactor.DataSize, Less, ListOf, Compactor.Refused;
    var files := TableList(db.tables, db.l0);
    StockEnd(files, db.MemLists());
    forall i | 0 <= i < |db.l0| ensures Find(EntriesOf(db.tables, db.l0[i]), []) == None {
      FindNone(files[i], []);
      assert AllStorable(files[i]);
    }
  }

  ghost predicate NoEmptyKey(tables: map<nat, seq<Entry>>, batch: seq<nat>) {
    forall i :: 0 <= i < |batch| ==> Find(EntriesOf(tables, batch[i]), []) == None
  }

  /** A new table's first key is the only one that can spoil lookups. */
  lemma AddedKeys(tables: map<nat, seq<Entry>>, l0: seq<nat>, l1: seq<nat>, f: nat, es: seq<Entry>)
    requires (forall i :: 0 <= i < |l0| ==> l0[i] < f) && forall i :: 0 <= i < |l1| ==> l1[i] < f
    ensures var tables' := tables[f := es];
            && (FirstKeysOk(tables', l0 + [f]) <==> FirstKeysOk(tables, l0) && FirstKeyOk(es))
            && (FirstKeysOk(tables', l1 + [f]) <==> FirstKeysOk(tables, l1) && FirstKeyOk(es))
            && (FirstKeysOk(tables', l0) <==> FirstKeysOk(tables, l0))
            && (FirstKeysOk(tables', l1) <==> FirstKeysOk(tables, l1))
            && FirstKeysOk(tables', [])
  {
    AddedKeysTo(tables, l0, f, es);
    AddedKeysTo(tables, l1, f, es);
  }

  lemma AddedKeysTo(tables: map<nat, seq<Entry>>, ids: seq<nat>, f: nat, es: seq<Entry>)
    requires forall i :: 0 <= i < |ids| ==> ids[i] < f
    ensures var tables' := tables[f := es];
            && (FirstKeysOk(tables', ids + [f]) <==> FirstKeysOk(tables, ids) && FirstKeyOk(es))
            && (FirstKeysOk(tables', ids) <==> FirstKeysOk(tables, ids))
  {
    var tables', all := tables[f := es], ids + [f];
    hide FirstKeyOk;
    assert EntriesOf(tables', f) == es && all[|ids|] == f;
    forall i | 0 <= i < |ids| ensures EntriesOf(tables', ids[i]) == EntriesOf(tables, ids[i]) && all[i] == ids[i] {
    }
    if FirstKeysOk(tables', all) {
      assert FirstKeyOk(EntriesOf(tables', all[|ids|]));
      forall i | 0 <= i < |ids| ensures FirstKeyOk(EntriesOf(tables, ids[i])) {
        assert FirstKeyOk(EntriesOf(tables', all[i]));
      }
    }
  }

  /** The output's first key is an input's first key, unless the empty key was dropped from before it. */
  lemma MergedKeys(shape: Shape, disk: FileSystem, tables: map<nat, seq<Entry>>, batch: seq<nat>, out: seq<Entry>)
    requires FilesAre(shape, disk, tables, batch) && Compactor.Compacted(TableList(tables, batch), out)
    ensures FirstKeysOk(tables, batch) && NoEmptyKey(tables, batch) ==> FirstKeyOk(out)
  {
    if FirstKeysOk(tables, batch) && NoEmptyKey(tables, batch) && out != [] {
      hide IsTable, AllPuts, Compactor.Compacted, FirstKeyOk;
      var ts, k := TableList(tables, batch), out[0].key;
      CompactionUnion.OutputFromInputs(ts, out);
      assert out[0] in out;
      var i :| 0 <= i < |ts| && out[0] in ts[i];
      assert FileIs(shape, disk, tables, batch[i]) && FirstKeyOk(EntriesOf(tables, batch[i]));
      TableEntries(shape, disk[batch[i]], tables[batch[i]]);
      assert Find(ts[i], []) == None;
      LeastStays(ts, out, i);
    }
  }

  lemma LeastStays(ts: seq<seq<Entry>>, out: seq<Entry>, i: nat)
    requires Compactor.Compacted(ts, out) && out != [] && i < |ts| && Sorted(ts[i]) && out[0] in ts[i]
        && Find(ts[i], []) == None
    requires FirstKeyOk(ts[i])
    ensures FirstKeyOk(out)
  {
    var h, k := ts[i][0].key, out[0].key;
    FindNone(ts[i], []);
    assert h != [];
    assert Find(ts[i], h).Some?;
    CompactionUnion.SomeNewest(ts, i, h);
    assert Find(out, h) == Compactor.NewestEntry(ts, h);
    FindSome(out, h);
    var a :| 0 <= a < |out| && out[a] == Find(out, h).value;
    var b :| 0 <= b < |ts[i]| && ts[i][b] == out[0];
    if a > 0 && b > 0 {
      LessAsymmetric(h, k);
    }
  }

  lemma NoFiles(shape: Shape, disk: FileSystem, tables: map<nat, seq<Entry>>)
    ensures FilesAre(shape, disk, tables, []) && MapsOf(tables, []) == [] && TableList(tables, []) == []
  {
  }

  lemma LevelSurvives(shape: Shape, disk: FileSystem, disk': FileSystem, tables: map<nat, seq<Entry>>, ids: seq<nat>)
    requires FilesAre(shape, disk, tables, ids)
    requires forall i :: 0 <= i < |ids| && ids[i] in disk ==> ids[i] in disk' && disk'[ids[i]] == disk[ids[i]]
    ensures FilesAre(shape, disk', tables, ids)
  {
    hide IsTable, AllPuts;
    forall i | 0 <= i < |ids| ensures FileIs(shape, disk', tables, ids[i]) {
      assert FileIs(shape, disk, tables, ids[i]);
    }
  }

  /** A new file beside the others. */
  lemma AddedFile(shape: Shape, disk: FileSystem, tables: map<nat, seq<Entry>>, l0: seq<nat>, l1: seq<nat>, f: nat,
                  file: Bytes, es: seq<Entry>)
    requires FilesAre(shape, disk, tables, l0) && FilesAre(shape, disk, tables, l1)
    requires (forall g :: g in disk ==> g < f) && IsTable(shape.fnv, file, shape, es) && AllPuts(es)
    ensures var disk', tables' := disk[f := file], tables[f := es];
            && FilesAre(shape, disk', tables', l0) && FilesAre(shape, disk', tables', l1)
                && FileIs(shape, disk', tables', f)
            && FilesAre(shape, disk', tables', l0 + [f]) && FilesAre(shape, disk', tables', l1 + [f])
            && MapsOf(tables', l0) == MapsOf(tables, l0) && MapsOf(tables', l1) == MapsOf(tables, l1)
            && MapsOf(tables', l0 + [f]) == MapsOf(tables, l0) + [ToMap(es)]
                && MapsOf(tables', l1 + [f]) == MapsOf(tables, l1) + [ToMap(es)]
    ensures forall i :: 0 <= i < |l0| ==> l0[i] < f
    ensures forall i :: 0 <= i < |l1| ==> l1[i] < f
  {
    hide IsTable, AllPuts, ToMap;
    var disk', tables' := disk[f := file], tables[f := es];
    forall i | 0 <= i < |l0| ensures l0[i] < f {
      assert FileIs(shape, disk, tables, l0[i]);
    }
    forall i | 0 <= i < |l1| ensures l1[i] < f {
      assert FileIs(shape, disk, tables, l1[i]);
    }
    forall i | 0 <= i < |l0| ensures l0[i] in tables {
      assert FileIs(shape, disk, tables, l0[i]);
    }
    forall i | 0 <= i < |l1| ensures l1[i] in tables {
      assert FileIs(shape, disk, tables, l1[i]);
    }
    MapsFrame(shape, disk, tables, disk', tables', l0);
    MapsFrame(shape, disk, tables, disk', tables', l1);
    MapsSnoc(tables', l0, f);
    MapsSnoc(tables', l1, f);
    hide MapsOf;
  }

  lemma StaysFaithful(db: DB, before: seq<Entry>, bytes: Bytes, rec: Entry)
    requires db.active.Valid() && (db.immutable != null ==> db.immutable.Valid())
    requires bytes == Wal.EncodeAll(db.wal.crc, before) && AllFit(before) && Fits(rec)
    requires db.records == before + [rec] && db.wal.Contents() == bytes + Wal.Encode(db.wal.crc, rec)
    requires forall k: Bytes :: k != [] ==>
               db.View(k) == if k == rec.key then Live(Some(Wal.Effect(rec).1))
                   else Live(At(Replay(Wal.Effects(before)), k))
    ensures db.Faithful()
  {
    hide DB.View, Wal.Encode, Wal.Log.Contents;
    Wal.EncodeConcat(db.wal.crc, before, [rec]);
    Wal.EncodeOne(db.wal.crc, rec);
    Wal.EffectsSnoc(before, rec);
  }

  /** A tombstone, that is a value of length zero, reads as missing. */
  function AnswerOf(x: Result<Option<Bytes>, ReadError>): Result<Option<Bytes>, ReadError> {
    match x
    case Ok(y) => Ok(Live(y))
    case Err(e) => Err(e)
  }

  function ScanResult(err: Option<ReadError>, found: seq<KeyValue>): Result<seq<KeyValue>, ReadError> {
    match err
    case None => Ok(SortPairs(found))
    case Some(e) => Err(e)
  }

  lemma LookupLayers(db: DB, k: Bytes)
    requires db.Valid()
    ensures db.active.Valid() && (db.immutable != null ==> db.immutable.Valid())
    ensures FilesAre(db.shape, db.disk, db.tables, db.l0) && FilesAre(db.shape, db.disk, db.tables, db.l1)
    ensures forall x: Option<Bytes> :: AnswerOf(Ok(x)) == Ok(Live(x))
    ensures db.View(k) ==
            if At(db.active.Table(), k).Some? then Live(At(db.active.Table(), k))
            else if db.immutable != null && At(db.immutable.Table(), k).Some? then Live(At(db.immutable.Table(), k))
            else if Newest(MapsOf(db.tables, db.l0), k).Some? then Live(Newest(MapsOf(db.tables, db.l0), k))
            else Live(Newest(MapsOf(db.tables, db.l1), k))
  {
    hide FilesAre, MapsOf, Newest, MemTable.Valid, MemTable.Table;
    TopOf(db.Below(), db.active.Table(), k);
    if db.immutable != null {
      TopOf(db.FileMaps(), db.immutable.Table(), k);
    } else {
      assert db.Below() == db.FileMaps();
    }
    NewestConcat(MapsOf(db.tables, db.l1), MapsOf(db.tables, db.l0), k);
  }

  lemma ScanLayers(db: DB)
    requires db.Valid()
    ensures db.active.Valid() && (db.immutable != null ==> db.immutable.Valid())
    ensures FilesAre(db.shape, db.disk, db.tables, db.l0) && FilesAre(db.shape, db.disk, db.tables, db.l1)
    ensures forall i :: 0 <= i < |db.l0| ==> db.l0[i] in db.disk
    ensures forall i :: 0 <= i < |db.l1| ==> db.l1[i] in db.disk
    ensures [db.active.Table()] + [] == [db.active.Table()]
    ensures var top := [db.active.Table()];
            var mem := if db.immutable == null then top else [db.immutable.Table()] + top;
            MapsOf(db.tables, db.l1) + (MapsOf(db.tables, db.l0) + mem) == db.Layers()
    ensures forall found :: ScanResult(None, found) == Ok(SortPairs(found))
  {
    hide MapsOf, IsTable, AllPuts, MemTable.Valid, MemTable.Table;
    forall i | 0 <= i < |db.l0| ensures db.l0[i] in db.disk {
      assert FileIs(db.shape, db.disk, db.tables, db.l0[i]);
    }
    forall i | 0 <= i < |db.l1| ensures db.l1[i] in db.disk {
      assert FileIs(db.shape, db.disk, db.tables, db.l1[i]);
    }
    var a, b, t := MapsOf(db.tables, db.l1), MapsOf(db.tables, db.l0), [db.active.Table()];
    if db.immutable == null {
      assert a + (b + t) == (a + b + []) + t;
    } else {
      assert a + (b + ([db.immutable.Table()] + t)) == (a + b + [db.immutable.Table()]) + t;
    }
  }

  // ------------------------------------------------------- failures, restarts

  /** MaybeCompact's error case does not arise: no file of a valid engine is refused. */
  lemma NoFileRefused(db: DB, f: nat)
    requires db.Valid() && f in db.l0 && f in db.disk
    ensures !Compactor.Refused(db.disk[f])
  {
    hide IsTable, AllPuts, Compactor.Refused;
    var i :| 0 <= i < |db.l0| && db.l0[i] == f;
    assert FileIs(db.shape, db.disk, db.tables, f);
    TableEntries(db.shape, db.disk[f], db.tables[f]);
  }

  /**
   Reopening from the whole log gives back the view of every key but the empty one, however many rotations, flushes
   and compactions lay in between.
   */
  lemma ReopenKeepsView(db: DB, k: Bytes)
    requires db.Valid() && db.Faithful() && k != []
    ensures var b := db.wal.Contents();
            && Wal.Take(db.wal.crc, Wal.Leftover(db.wal.crc, b)) != Wal.BadMagic
            && Live(At(Replay(Wal.Effects(Wal.Readable(db.wal.crc, b))), k)) == db.View(k)
  {
    Wal.LogRoundTrip(db.wal.crc, db.records);
    Wal.TakeNothing(db.wal.crc);
  }

  /**
   After a crash that leaves the first n bytes of the log, reopening succeeds and gives the writes in a prefix of the
   write order; a write survives exactly when its whole record lies within the n bytes.
   */
  lemma CrashKeepsPrefix(db: DB, n: nat, i: nat)
    requires db.Valid() && db.Faithful() && n <= |db.wal.Contents()| && i <= |db.records|
    ensures var crc, b := db.wal.crc, db.wal.Contents()[..n];
            && Wal.Take(crc, Wal.Leftover(crc, b)) != Wal.BadMagic
            && Wal.Readable(crc, b) <= db.records
            && (i <= |Wal.Readable(crc, b)| <==> |Wal.EncodeAll(crc, db.records[..i])| <= n)
  {
    var crc, j := db.wal.crc, Wal.WholeRecords(db.wal.crc, db.records, n);
    Wal.TornTail(crc, db.records, n);
    if i <= j {
      Wal.LongerLog(crc, db.records, i, j);
    } else {
      Wal.LongerLog(crc, db.records, j + 1, i);
    }
  }
}
