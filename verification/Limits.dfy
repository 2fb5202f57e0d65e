/** How much a MemTable's file can hold, by the writes that made the MemTable (internal/engine/sstable.go:28-148). */
module Limits {
  import opened Options
  import opened ByteStrings
  import opened Layers
  import opened Entries
  import opened TableFormat
  import Compactor

  /** A write that survives every file: its lengths fit, point lookups find its key, and compaction keeps it. */
  predicate Storable(k: Bytes, v: Bytes) {
    k != [] && |k| <= 65529 && |v| < 0x1_0000_0000
  }

  ghost predicate AllStorable(es: seq<Entry>) {
    forall i :: 0 <= i < |es| ==> Storable(es[i].key, es[i].val)
  }

  /** A MemTable's listing: sorted, and every entry a Put. */
  ghost predicate IsListing(es: seq<Entry>) {
    Sorted(es) && forall i :: 0 <= i < |es| ==> es[i].op == OP_PUT
  }

  /** The sorted list with one key's entry replaced or added. */
  function Upsert(es: seq<Entry>, e: Entry): seq<Entry> {
    if es == [] then [e]
    else if es[0].key == e.key then [e] + es[1..]
    else if Less(e.key, es[0].key) then [e] + es
    else [es[0]] + Upsert(es[1..], e)
  }

  lemma {:induction false} UpsertHas(es: seq<Entry>, e: Entry)
    ensures forall i :: 0 <= i < |Upsert(es, e)| ==> Upsert(es, e)[i] == e || Upsert(es, e)[i] in es
    ensures Upsert(es, e) != []
  {
    if es != [] && es[0].key != e.key && !Less(e.key, es[0].key) {
      UpsertHas(es[1..], e);
    }
  }

  lemma {:induction false} UpsertSorted(es: seq<Entry>, e: Entry)
    requires Sorted(es)
    ensures Sorted(Upsert(es, e))
  {
    if es != [] && es[0].key != e.key {
      var rest := if Less(e.key, es[0].key) then es else Upsert(es[1..], e);
      var head := if Less(e.key, es[0].key) then e else es[0];
      if !Less(e.key, es[0].key) {
        UpsertSorted(es[1..], e);
        UpsertHas(es[1..], e);
        LessTotal(e.key, es[0].key);
      }
      forall i | 0 <= i < |rest| ensures Less(head.key, rest[i].key) {
        if Less(e.key, es[0].key) && i > 0 {
          LessTransitive(e.key, es[0].key, es[i].key);
        } else if !Less(e.key, es[0].key) && rest[i] != e {
          var j :| 0 <= j < |es[1..]| && es[1..][j] == rest[i];
          assert es[j + 1] == rest[i];
        }
      }
    }
  }

  lemma {:induction false} UpsertFind(es: seq<Entry>, e: Entry, k: Bytes)
    requires Sorted(es)
    ensures Find(Upsert(es, e), k) == if k == e.key then Some(e) else Find(es, k)
  {
    if es != [] && es[0].key != e.key && !Less(e.key, es[0].key) {
      UpsertFind(es[1..], e, k);
    }
  }

  lemma {:induction false} UpsertData(es: seq<Entry>, e: Entry)
    ensures |Data(Upsert(es, e))| <= |Data(es)| + |Record(e)|
  {
    hide Data, Record;
    var up := Upsert(es, e);
    UpsertHas(es, e);
    Compactor.DataHead(up);
    if es == [] {
      assert up[1..] == [] && |Data([])| == 0 by {
        NoData();
      }
    } else {
      Compactor.DataHead(es);
      if es[0].key == e.key {
        assert up[1..] == es[1..];
      } else if Less(e.key, es[0].key) {
        assert up[1..] == es;
      } else {
        assert up[1..] == Upsert(es[1..], e);
        UpsertData(es[1..], e);
      }
    }
  }

  lemma NoData()
    ensures Data([]) == []
  {
  }

  /** A listing is decided by what it says of the keys. */
  lemma ListingUnique(a: seq<Entry>, b: seq<Entry>)
    requires IsListing(a) && IsListing(b) && ToMap(a) == ToMap(b)
    ensures a == b
  {
    forall k: Bytes ensures Find(a, k) == Find(b, k) {
      ToMapAt(a, k);
      ToMapAt(b, k);
      FoundPut(a, k);
      FoundPut(b, k);
    }
    hide Sorted, Find;
    SortedUnique(a, b);
  }

  lemma FoundPut(es: seq<Entry>, k: Bytes)
    requires IsListing(es)
    ensures Find(es, k) == if ValueAt(es, k).Some? then Some(Entry(OP_PUT, k, ValueAt(es, k).value)) else None
  {
    if Find(es, k).Some? {
      FindSome(es, k);
    }
  }

  lemma UpsertListing(es: seq<Entry>, k: Bytes, v: Bytes)
    requires IsListing(es)
    ensures IsListing(Upsert(es, Entry(OP_PUT, k, v)))
    ensures ToMap(Upsert(es, Entry(OP_PUT, k, v))) == ToMap(es)[k := v]
    ensures AllStorable(es) && Storable(k, v) ==> AllStorable(Upsert(es, Entry(OP_PUT, k, v)))
    ensures |Data(Upsert(es, Entry(OP_PUT, k, v)))| <= |Data(es)| + 7 + |k| + |v|
  {
    var e := Entry(OP_PUT, k, v);
    UpsertSorted(es, e);
    UpsertHas(es, e);
    UpsertData(es, e);
    hide Sorted, Upsert, Data;
    forall x: Bytes ensures At(ToMap(Upsert(es, e)), x) == At(ToMap(es)[k := v], x) {
      UpsertFind(es, e, x);
      ToMapAt(Upsert(es, e), x);
      ToMapAt(es, x);
    }
    MapsEqual(ToMap(Upsert(es, e)), ToMap(es)[k := v]);
  }

  /** A MemTable after one more write: what its file will hold, and how long it will be. */
  lemma ListingAfterPut(a: seq<Entry>, b: seq<Entry>, k: Bytes, v: Bytes)
    requires IsListing(a) && IsListing(b) && ToMap(b) == ToMap(a)[k := v]
    ensures AllStorable(a) && Storable(k, v) ==> AllStorable(b)
    ensures |Data(b)| <= |Data(a)| + 7 + |k| + |v|
  {
    hide IsListing, AllStorable, Upsert, Storable;
    UpsertListing(a, k, v);
    ListingUnique(b, Upsert(a, Entry(OP_PUT, k, v)));
  }

  // ---------------------------------------------------------- several lists

  ghost predicate StockFits(lists: seq<seq<Entry>>) {
    forall i :: 0 <= i < |lists| ==> AllStorable(lists[i])
  }

  lemma StockTop(lists: seq<seq<Entry>>, es: seq<Entry>)
    ensures StockFits(lists + [es]) <==> StockFits(lists) && AllStorable(es)
    ensures Compactor.DataSize(lists + [es]) == Compactor.DataSize(lists) + |Data(es)|
  {
    hide AllStorable, Data;
    var all := lists + [es];
    assert all[..|lists|] == lists && all[|lists|] == es;
    assert forall i :: 0 <= i < |lists| ==> lists[i] == all[i];
  }

  lemma NoStock()
    ensures StockFits([]) && Compactor.DataSize([]) == 0
  {
  }

  /** One more write to the newest list. */
  lemma StockAfterPut(lists: seq<seq<Entry>>, a: seq<Entry>, b: seq<Entry>, k: Bytes, v: Bytes)
    requires IsListing(a) && IsListing(b) && ToMap(b) == ToMap(a)[k := v]
    ensures StockFits(lists + [a]) && Storable(k, v) ==> StockFits(lists + [b])
    ensures Compactor.DataSize(lists + [b]) <= Compactor.DataSize(lists + [a]) + 7 + |k| + |v|
  {
    hide IsListing, AllStorable, Storable, StockFits, Data, Compactor.DataSize;
    StockTop(lists, a);
    StockTop(lists, b);
    ListingAfterPut(a, b, k, v);
  }

  lemma EmptyStock(lists: seq<seq<Entry>>)
    ensures StockFits(lists + [[]]) <==> StockFits(lists)
    ensures Compactor.DataSize(lists + [[]]) == Compactor.DataSize(lists)
  {
    hide StockFits, Compactor.DataSize;
    StockTop(lists, []);
  }

  lemma {:induction false} StockEnd(a: seq<seq<Entry>>, b: seq<seq<Entry>>)
    ensures StockFits(a + b) ==> StockFits(a) && StockFits(b)
    ensures Compactor.DataSize(a + b) == Compactor.DataSize(a) + Compactor.DataSize(b)
  {
    if b == [] {
      assert a + b == a;
    } else {
      var init, last := b[..|b| - 1], b[|b| - 1];
      assert a + b == (a + init) + [last] && b == init + [last];
      hide StockFits, Compactor.DataSize;
      StockTop(a + init, last);
      StockTop(init, last);
      StockEnd(a, init);
    }
  }

  // ------------------------------------------------------------- whole logs

  /** The bytes of records that a sequence of writes can come to in one file. */
  function WritesSize(ws: seq<(Bytes, Bytes)>): nat {
    if ws == [] then 0 else WritesSize(ws[..|ws| - 1]) + 7 + |ws[|ws| - 1].0| + |ws[|ws| - 1].1|
  }

  /** The listing of a replayed log. */
  function Replayed(ws: seq<(Bytes, Bytes)>): seq<Entry> {
    if ws == [] then []
    else Upsert(Replayed(ws[..|ws| - 1]), Entry(OP_PUT, ws[|ws| - 1].0, ws[|ws| - 1].1))
  }

  ghost predicate WritesStorable(ws: seq<(Bytes, Bytes)>) {
    forall i :: 0 <= i < |ws| ==> Storable(ws[i].0, ws[i].1)
  }

  lemma {:induction false} ReplayedIs(ws: seq<(Bytes, Bytes)>)
    ensures IsListing(Replayed(ws)) && ToMap(Replayed(ws)) == Replay(ws)
    ensures WritesStorable(ws) ==> AllStorable(Replayed(ws))
    ensures |Data(Replayed(ws))| <= WritesSize(ws)
  {
    if ws != [] {
      var init, w := ws[..|ws| - 1], ws[|ws| - 1];
      hide Data, Upsert, IsListing, Storable;
      ReplayedIs(init);
      UpsertListing(Replayed(init), w.0, w.1);
    }
  }

  /** A listing that says what a log says is within the log's size. */
  lemma ListingOfLog(es: seq<Entry>, ws: seq<(Bytes, Bytes)>)
    requires IsListing(es) && ToMap(es) == Replay(ws)
    ensures WritesStorable(ws) ==> AllStorable(es)
    ensures |Data(es)| <= WritesSize(ws)
  {
    hide IsListing, AllStorable, WritesStorable, Data;
    ReplayedIs(ws);
    ListingUnique(es, Replayed(ws));
  }
}
