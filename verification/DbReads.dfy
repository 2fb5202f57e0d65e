/** The read path over files and the merging range scan, on values (internal/engine/db.go:171-303). */
module DbReads {
  import opened Options
  import opened ByteStrings
  import opened Layers
  import opened Entries
  import opened Bloom
  import opened TableFormat
  import opened TableReader
  import opened MemTables
  import Compactor

  type FileSystem = map<nat, Bytes>

  // ------------------------------------------------------------- the files

  ghost predicate AllPuts(es: seq<Entry>) {
    forall i :: 0 <= i < |es| ==> es[i].op == OP_PUT
  }

  /** File f is an SSTable of the entries tables[f]. */
  ghost predicate FileIs(shape: Shape, disk: FileSystem, tables: map<nat, seq<Entry>>, f: nat) {
    f in disk && f in tables && IsTable(shape.fnv, disk[f], shape, tables[f]) && AllPuts(tables[f])
  }

  ghost predicate FilesAre(shape: Shape, disk: FileSystem, tables: map<nat, seq<Entry>>, ids: seq<nat>) {
    forall i :: 0 <= i < |ids| ==> FileIs(shape, disk, tables, ids[i])
  }

  ghost function EntriesOf(tables: map<nat, seq<Entry>>, f: nat): seq<Entry> {
    if f in tables then tables[f] else []
  }

  /** The contents of the files, in the order of `ids`. */
  ghost function MapsOf(tables: map<nat, seq<Entry>>, ids: seq<nat>): (ms: seq<Contents>)
    ensures |ms| == |ids| && forall i :: 0 <= i < |ids| ==> ms[i] == ToMap(EntriesOf(tables, ids[i]))
  {
    seq(|ids|, i requires 0 <= i < |ids| => ToMap(EntriesOf(tables, ids[i])))
  }

  /** ReadSSTable answers for every key: the table's first key is at most 65529 bytes long. */
  predicate FirstKeyOk(es: seq<Entry>) {
    es != [] ==> |es[0].key| <= 65529
  }

  ghost predicate FirstKeysOk(tables: map<nat, seq<Entry>>, ids: seq<nat>) {
    forall i :: 0 <= i < |ids| ==> FirstKeyOk(EntriesOf(tables, ids[i]))
  }

  lemma MapsInit(tables: map<nat, seq<Entry>>, ids: seq<nat>, n: nat)
    requires n < |ids|
    ensures MapsOf(tables, ids[..n + 1])[..n] == MapsOf(tables, ids[..n])
    ensures MapsOf(tables, ids[..n + 1]) == MapsOf(tables, ids[..n]) + [ToMap(EntriesOf(tables, ids[n]))]
  {
  }

  lemma FileLookup(shape: Shape, disk: FileSystem, tables: map<nat, seq<Entry>>, f: nat, k: Bytes)
    requires FileIs(shape, disk, tables, f) && FirstKeyOk(tables[f])
    ensures LookupResult(shape, tables[f], k) == Ok(At(ToMap(tables[f]), k))
  {
    LookupIsFind(shape, tables[f], k);
    ToMapAt(tables[f], k);
  }

  /** One turn of the search over a level. */
  lemma LevelTurn(shape: Shape, disk: FileSystem, tables: map<nat, seq<Entry>>, ids: seq<nat>, i: nat, k: Bytes)
    requires FilesAre(shape, disk, tables, ids) && i < |ids|
    ensures ids[i] in disk && ids[i] in tables && IsTable(shape.fnv, disk[ids[i]], shape, tables[ids[i]])
    ensures FirstKeysOk(tables, ids) ==>
              var res := LookupResult(shape, tables[ids[i]], k);
              && res.Ok?
              && Newest(MapsOf(tables, ids[..i + 1]), k) == if res.value.Some? then res.value
                  else Newest(MapsOf(tables, ids[..i]), k)
  {
    assert FileIs(shape, disk, tables, ids[i]);
    MapsInit(tables, ids, i);
    hide IsTable, LookupResult, ToMap;
    if FirstKeysOk(tables, ids) {
      assert FirstKeyOk(EntriesOf(tables, ids[i]));
      FileLookup(shape, disk, tables, ids[i], k);
    }
  }

  lemma WholeLevel(tables: map<nat, seq<Entry>>, ids: seq<nat>, k: Bytes)
    ensures Newest(MapsOf(tables, ids[..|ids|]), k) == Newest(MapsOf(tables, ids), k)
    ensures Newest(MapsOf(tables, ids[..0]), k) == None
  {
    assert ids[..|ids|] == ids;
  }

  /** Search a level's files from the newest to the oldest; the first hit, tombstone or not, ends the search. */
  method SearchLevel(shape: Shape, disk: FileSystem, ids: seq<nat>, k: Bytes, ghost tables: map<nat, seq<Entry>>)
    returns (r: Result<Option<Bytes>, ReadError>)
    requires FilesAre(shape, disk, tables, ids)
    ensures FirstKeysOk(tables, ids) ==> r == Ok(Newest(MapsOf(tables, ids), k))
  {
    hide *;
    var i := |ids|;
    WholeLevel(tables, ids, k);
    while i > 0
      invariant 0 <= i <= |ids|
      invariant FirstKeysOk(tables, ids) ==> Newest(MapsOf(tables, ids), k) == Newest(MapsOf(tables, ids[..i]), k)
    {
      i := i - 1;
      LevelTurn(shape, disk, tables, ids, i, k);
      var found := ReadSSTable(shape.fnv, disk[ids[i]], k, shape, tables[ids[i]]);
      if found.Err? || found.value.Some? {
        return found;
      }
    }
    r := Ok(None);
  }

  // ------------------------------------------------------------ range scans

  /**
   The scan after the layers `ls`, the newest ones: `seen` holds the keys within the bounds that they name, and
   `found` the pairs that the newest of them gives a non-empty value, each key once.
   */
  ghost predicate Gathered(ls: seq<Contents>, lo: Bytes, hi: Bytes, seen: set<Bytes>, found: seq<KeyValue>) {
    && (forall k: Bytes :: k in seen <==> InBounds(k, lo, hi) && Newest(ls, k).Some?)
    && (forall k: Bytes, v: Bytes :: KeyValue(k, v) in found <==>
        InBounds(k, lo, hi) && v != [] && Newest(ls, k) == Some(v))
    && DistinctKeys(found)
  }

  ghost predicate DistinctKeys(r: seq<KeyValue>) {
    forall i, j :: 0 <= i < j < |r| ==> r[i].key != r[j].key
  }

  lemma GatheredNothing(lo: Bytes, hi: Bytes)
    ensures Gathered([], lo, hi, {}, [])
  {
  }

  lemma {:induction false} NewestUnder(m: Contents, ls: seq<Contents>, k: Bytes)
    ensures Newest([m] + ls, k) == if Newest(ls, k).Some? then Newest(ls, k) else At(m, k)
  {
    NewestConcat([m], ls, k);
    assert [m][..0] == [];
    assert Newest([m], k) == At(m, k);
  }

  /** An empty layer underneath changes nothing. */
  lemma GatheredUnder(ls: seq<Contents>, lo: Bytes, hi: Bytes, seen: set<Bytes>, found: seq<KeyValue>)
    requires Gathered(ls, lo, hi, seen, found)
    ensures Gathered([map[]] + ls, lo, hi, seen, found)
  {
    hide InBounds, Newest;
    forall k: Bytes ensures Newest([map[]] + ls, k) == Newest(ls, k) {
      NewestUnder(map[], ls, k);
    }
  }

  /** Two layers that agree within the bounds gather the same. */
  lemma GatheredSame(m: Contents, m': Contents, ls: seq<Contents>, lo: Bytes, hi: Bytes, seen: set<Bytes>,
                     found: seq<KeyValue>)
    requires Gathered([m] + ls, lo, hi, seen, found)
    requires forall k: Bytes :: InBounds(k, lo, hi) ==> At(m, k) == At(m', k)
    ensures Gathered([m'] + ls, lo, hi, seen, found)
  {
    hide InBounds, Newest, At;
    forall k: Bytes | InBounds(k, lo, hi) ensures Newest([m'] + ls, k) == Newest([m] + ls, k) {
      NewestUnder(m, ls, k);
      NewestUnder(m', ls, k);
    }
  }

  /** One more pair of the layer in hand, within the bounds. */
  lemma GatheredMore(m: Contents, k: Bytes, v: Bytes, ls: seq<Contents>, lo: Bytes, hi: Bytes, seen: set<Bytes>,
                     found: seq<KeyValue>)
    requires Gathered([m] + ls, lo, hi, seen, found) && k !in m && InBounds(k, lo, hi)
    ensures if k in seen then Gathered([m[k := v]] + ls, lo, hi, seen, found)
            else Gathered([m[k := v]] + ls, lo, hi, seen + {k}, if v != [] then found + [KeyValue(k, v)] else found)
  {
    var m' := m[k := v];
    assert k in seen <==> Newest([m] + ls, k).Some?;
    forall x: Bytes ensures Newest([m'] + ls, x) == if x == k && k !in seen then Some(v) else Newest([m] + ls, x) {
      NewestUnder(m, ls, x);
      NewestUnder(m', ls, x);
    }
    hide InBounds, Newest;
    if k !in seen && v != [] {
      MorePairs(m, k, v, ls, lo, hi, seen, found);
    }
  }

  lemma MorePairs(m: Contents, k: Bytes, v: Bytes, ls: seq<Contents>, lo: Bytes, hi: Bytes, seen: set<Bytes>,
                  found: seq<KeyValue>)
    requires Gathered([m] + ls, lo, hi, seen, found) && k !in seen
    ensures forall x: Bytes, y: Bytes :: KeyValue(x, y) in found + [KeyValue(k, v)] <==>
        KeyValue(x, y) in found || (x == k && y == v)
    ensures DistinctKeys(found + [KeyValue(k, v)])
  {
    hide InBounds, Newest;
    forall i | 0 <= i < |found| ensures found[i].key != k {
      assert KeyValue(found[i].key, found[i].val) in found;
    }
  }

  // ----------------------------------------------------- a MemTable's pairs

  function PairsMap(items: seq<KeyValue>): Contents {
    if items == [] then map[]
    else
      var last := items[|items| - 1];
      PairsMap(items[..|items| - 1])[last.key := last.val]
  }

  lemma {:induction false} PairsAt(items: seq<KeyValue>, k: Bytes)
    requires AscendingKeys(items)
    ensures At(PairsMap(items), k).Some? ==> KeyValue(k, At(PairsMap(items), k).value) in items
    ensures forall i :: 0 <= i < |items| && items[i].key == k ==> At(PairsMap(items), k) == Some(items[i].val)
  {
    if items != [] {
      var n := |items| - 1;
      PairsAt(items[..n], k);
      LessIrreflexive(k);
      forall i | 0 <= i < n ensures items[..n][i] == items[i] && items[i].key != items[n].key {
        LessIrreflexive(items[n].key);
      }
    }
  }

  lemma PairsNew(items: seq<KeyValue>, n: nat)
    requires AscendingKeys(items) && n < |items|
    ensures items[n].key !in PairsMap(items[..n])
    ensures PairsMap(items[..n + 1]) == PairsMap(items[..n])[items[n].key := items[n].val]
  {
    var k := items[n].key;
    assert items[..n + 1][..n] == items[..n];
    PairsAt(items[..n], k);
    LessIrreflexive(k);
    forall i | 0 <= i < n ensures items[i].key != k {
      assert Less(items[i].key, items[n].key);
    }
  }

  lemma RangeIsMap(m: Contents, lo: Bytes, hi: Bytes, items: seq<KeyValue>, k: Bytes)
    requires IsRange(m, lo, hi, items) && InBounds(k, lo, hi)
    ensures At(PairsMap(items), k) == At(m, k)
  {
    PairsAt(items, k);
    if k in m {
      assert KeyValue(k, m[k]) in items;
    }
    if k in PairsMap(items) {
      assert KeyValue(k, PairsMap(items)[k]) in items;
    }
  }

  lemma RangePair(m: Contents, lo: Bytes, hi: Bytes, items: seq<KeyValue>, n: nat)
    requires IsRange(m, lo, hi, items) && n < |items|
    ensures InBounds(items[n].key, lo, hi)
  {
    assert KeyValue(items[n].key, items[n].val) in items;
  }

  /** One item of a MemTable's scan. */
  lemma PairTurn(items: seq<KeyValue>, i: nat, m: Contents, ls: seq<Contents>, lo: Bytes, hi: Bytes, seen: set<Bytes>,
                 found: seq<KeyValue>)
    requires IsRange(m, lo, hi, items) && i < |items| && Gathered([PairsMap(items[..i])] + ls, lo, hi, seen, found)
    ensures var KeyValue(k, v) := items[i];
            if k in seen then Gathered([PairsMap(items[..i + 1])] + ls, lo, hi, seen, found)
            else
              Gathered([PairsMap(items[..i + 1])] + ls, lo, hi, seen + {k},
                       if v != [] then found + [items[i]] else found)
  {
    PairsNew(items, i);
    RangePair(m, lo, hi, items, i);
    hide Gathered, IsRange, InBounds, PairsMap;
    GatheredMore(PairsMap(items[..i]), items[i].key, items[i].val, ls, lo, hi, seen, found);
  }

  lemma PairsStart(items: seq<KeyValue>, ls: seq<Contents>, lo: Bytes, hi: Bytes, seen: set<Bytes>,
                   found: seq<KeyValue>)
    requires Gathered(ls, lo, hi, seen, found)
    ensures Gathered([PairsMap(items[..0])] + ls, lo, hi, seen, found)
  {
    hide Gathered;
    GatheredUnder(ls, lo, hi, seen, found);
  }

  lemma PairsEnd(items: seq<KeyValue>, m: Contents, ls: seq<Contents>, lo: Bytes, hi: Bytes, seen: set<Bytes>,
                 found: seq<KeyValue>)
    requires IsRange(m, lo, hi, items) && Gathered([PairsMap(items[..|items|])] + ls, lo, hi, seen, found)
    ensures Gathered([m] + ls, lo, hi, seen, found)
  {
    hide Gathered, IsRange, InBounds;
    assert items[..|items|] == items;
    forall k: Bytes | InBounds(k, lo, hi) ensures At(PairsMap(items), k) == At(m, k) {
      RangeIsMap(m, lo, hi, items, k);
    }
    GatheredSame(PairsMap(items), m, ls, lo, hi, seen, found);
  }

  /** Merge what a MemTable's scan returned under the layers already gathered. */
  method GatherPairs(items: seq<KeyValue>, seen: set<Bytes>, found: seq<KeyValue>,
                     ghost m: Contents, ghost ls: seq<Contents>, ghost lo: Bytes, ghost hi: Bytes)
    returns (seen': set<Bytes>, found': seq<KeyValue>)
    requires Gathered(ls, lo, hi, seen, found) && IsRange(m, lo, hi, items)
    ensures Gathered([m] + ls, lo, hi, seen', found')
  {
    seen', found' := seen, found;
    hide *;
    PairsStart(items, ls, lo, hi, seen, found);
    var i := 0;
    while i < |items|
      invariant i <= |items|
      invariant Gathered([PairsMap(items[..i])] + ls, lo, hi, seen', found')
    {
      var item := items[i];
      PairTurn(items, i, m, ls, lo, hi, seen', found');
      if item.key !in seen' {
        seen' := seen' + {item.key};
        if |item.val| > 0 {
          found' := found' + [item];
        }
      }
      i := i + 1;
    }
    PairsEnd(items, m, ls, lo, hi, seen', found');
  }

  // ------------------------------------------------------------ a file's pairs

  lemma {:induction false} MapSnoc(es: seq<Entry>, n: nat)
    requires Sorted(es) && n < |es|
    ensures es[n].key !in ToMap(es[..n])
    ensures ToMap(es[..n + 1]) == ToMap(es[..n])[es[n].key := es[n].val]
  {
    var a, b := ToMap(es[..n + 1]), ToMap(es[..n])[es[n].key := es[n].val];
    var k := es[n].key;
    FindNone(es[..n], k);
    ToMapAt(es[..n], k);
    LessIrreflexive(k);
    forall i | 0 <= i < n ensures es[..n][i].key != k {
      assert Less(es[i].key, es[n].key);
    }
    assert es[..n + 1] == es[..n] + [es[n]];
    forall x: Bytes ensures At(a, x) == At(b, x) {
      FindConcat(es[..n], [es[n]], x);
      ToMapAt(es[..n + 1], x);
      ToMapAt(es[..n], x);
    }
    MapsEqual(a, b);
  }

  /** The entries from n on lie above the upper bound, or there are none. */
  ghost predicate RestAbove(es: seq<Entry>, n: nat, hi: Bytes) {
    n == |es| || (n < |es| && hi != [] && Less(hi, es[n].key))
  }

  lemma RestOutside(es: seq<Entry>, n: nat, lo: Bytes, hi: Bytes, k: Bytes)
    requires Sorted(es) && n <= |es| && RestAbove(es, n, hi) && InBounds(k, lo, hi)
    ensures At(ToMap(es[..n]), k) == At(ToMap(es), k)
  {
    ToMapAt(es[..n], k);
    ToMapAt(es, k);
    assert es == es[..n] + es[n..];
    FindConcat(es[..n], es[n..], k);
    FindNone(es[n..], k);
    forall i | 0 <= i < |es[n..]| ensures es[n..][i].key != k {
      if i > 0 {
        LessTransitive(hi, es[n].key, es[n + i].key);
      }
    }
  }

  lemma Skipped(m: Contents, k: Bytes, v: Bytes, ls: seq<Contents>, lo: Bytes, hi: Bytes, seen: set<Bytes>,
                found: seq<KeyValue>)
    requires Gathered([m] + ls, lo, hi, seen, found) && !InBounds(k, lo, hi)
    ensures Gathered([m[k := v]] + ls, lo, hi, seen, found)
  {
    hide InBounds, Gathered;
    GatheredSame(m, m[k := v], ls, lo, hi, seen, found);
  }

  lemma TableEntries(shape: Shape, file: Bytes, es: seq<Entry>)
    requires IsTable(shape.fnv, file, shape, es)
    ensures Sorted(es) && !Compactor.Refused(file)
  {
    Compactor.IteratorParts(shape.fnv, file, shape, es);
  }

  lemma RestOf(es: seq<Entry>, n: nat)
    requires n <= |es|
    ensures n < |es| ==> es[n..] != [] && es[n..][0] == es[n] && Compactor.Behind(es[n..]) == es[n + 1..]
    ensures n == |es| ==> es[n..] == [] && Compactor.Behind(es[n..]) == []
  {
  }

  /** One entry of a file. */
  lemma EntryTurn(es: seq<Entry>, n: nat, ls: seq<Contents>, lo: Bytes, hi: Bytes, seen: set<Bytes>,
                  found: seq<KeyValue>)
    requires Sorted(es) && AllPuts(es) && n < |es| && Gathered([ToMap(es[..n])] + ls, lo, hi, seen, found)
    ensures var Entry(op, k, v) := es[n];
            && op != OP_DELETE
            && (!(hi != [] && Less(hi, k)) ==>
                  if (lo != [] && Less(k, lo)) || k in seen
                  then Gathered([ToMap(es[..n + 1])] + ls, lo, hi, seen, found)
                  else Gathered([ToMap(es[..n + 1])] + ls, lo, hi, seen + {k},
                      if v != [] then found + [KeyValue(k, v)] else found))
  {
    var Entry(op, k, v) := es[n];
    assert op == OP_PUT;
    MapSnoc(es, n);
    assert InBounds(k, lo, hi) <==> !(hi != [] && Less(hi, k)) && !(lo != [] && Less(k, lo));
    hide Gathered, InBounds, ToMap, Sorted, Less;
    if InBounds(k, lo, hi) {
      GatheredMore(ToMap(es[..n]), k, v, ls, lo, hi, seen, found);
    } else {
      Skipped(ToMap(es[..n]), k, v, ls, lo, hi, seen, found);
    }
  }

  lemma EntriesStart(es: seq<Entry>, ls: seq<Contents>, lo: Bytes, hi: Bytes, seen: set<Bytes>, found: seq<KeyValue>)
    requires Gathered(ls, lo, hi, seen, found)
    ensures Gathered([ToMap(es[..0])] + ls, lo, hi, seen, found) && es[0..] == es
  {
    hide Gathered;
    GatheredUnder(ls, lo, hi, seen, found);
  }

  lemma EntriesEnd(es: seq<Entry>, n: nat, ls: seq<Contents>, lo: Bytes, hi: Bytes, seen: set<Bytes>,
                   found: seq<KeyValue>)
    requires Sorted(es) && n <= |es| && RestAbove(es, n, hi) && Gathered([ToMap(es[..n])] + ls, lo, hi, seen, found)
    ensures Gathered([ToMap(es)] + ls, lo, hi, seen, found)
  {
    hide Gathered, Sorted, RestAbove, InBounds, ToMap;
    forall k: Bytes | InBounds(k, lo, hi) ensures At(ToMap(es[..n]), k) == At(ToMap(es), k) {
      RestOutside(es, n, lo, hi, k);
    }
    GatheredSame(ToMap(es[..n]), ToMap(es), ls, lo, hi, seen, found);
  }

  lemma RestAboveNow(es: seq<Entry>, n: nat, hi: Bytes)
    ensures n == |es| || (n < |es| && hi != [] && Less(hi, es[n].key)) ==> RestAbove(es, n, hi)
  {
  }

  /** Next on an iterator whose remaining entries may be known. */
  method StepAhead(it: Compactor.SSTIterator, ghost known: bool, ghost tail: seq<Entry>) returns (ok: bool)
    requires known ==> it.Ahead(tail)
    modifies it
    ensures known ==>
              !it.failed && ok == (tail != []) && it.Ahead(Compactor.Behind(tail)) && (ok ==> it.entry == tail[0])
    ensures ok ==> old(it.current) < it.current <= |it.file|
    ensures !ok ==> it.current == old(it.current)
  {
    hide Data, Off, AllFit;
    ok := it.Next();
  }

  lemma NotFailed(it: Compactor.SSTIterator, tail: seq<Entry>)
    requires it.Ahead(tail)
    ensures !it.failed
  {
  }

  /** scanSST: read a file from the start up to the first key above the upper bound. */
  method ScanTable(shape: Shape, file: Bytes, lo: Bytes, hi: Bytes, seen: set<Bytes>, found: seq<KeyValue>,
                   ghost es: seq<Entry>, ghost ls: seq<Contents>)
    returns (err: Option<ReadError>, seen': set<Bytes>, found': seq<KeyValue>)
    ensures Gathered(ls, lo, hi, seen, found) && IsTable(shape.fnv, file, shape, es) && AllPuts(es) ==>
              err == None && Gathered([ToMap(es)] + ls, lo, hi, seen', found')
  {
    ghost var ok := Gathered(ls, lo, hi, seen, found) && IsTable(shape.fnv, file, shape, es) && AllPuts(es);
    err, seen', found' := None, seen, found;
    ghost var n := 0;
    hide *;
    if ok {
      EntriesStart(es, ls, lo, hi, seen, found);
      TableEntries(shape, file, es);
    }
    var res := Compactor.SSTIterator.Open(file, 0, shape.fnv, shape, es);
    if res.Err? {
      return Some(res.error), seen, found;
    }
    var it := res.value;
    var more := true;
    if ok {
      NotFailed(it, es);
    }
    while more
      invariant fresh(it) && n <= |es| && it.current <= |it.file|
      invariant ok ==> !it.failed && it.Ahead(es[n..]) && Gathered([ToMap(es[..n])] + ls, lo, hi, seen', found')
      invariant ok && !more ==> RestAbove(es, n, hi)
      decreases more, |it.file| - it.current
    {
      if ok {
        RestOf(es, n);
        RestAboveNow(es, n, hi);
        if n < |es| {
          EntryTurn(es, n, ls, lo, hi, seen', found');
        }
      }
      more := StepAhead(it, ok, es[n..]);
      if more {
        var k, v := it.entry.key, it.entry.val;
        if hi != [] && Less(hi, k) {
          break;
        }
        if lo == [] || !Less(k, lo) {
          if k !in seen' {
            seen' := seen' + {k};
            if it.entry.op != OP_DELETE && |v| > 0 {
              found' := found' + [KeyValue(k, v)];
            }
          }
        }
        if ok {
          n := n + 1;
        }
      }
    }
    if ok {
      EntriesEnd(es, n, ls, lo, hi, seen', found');
    }
    if it.failed {
      err := Some(OutOfBounds);
    }
  }

  lemma LevelGathered(shape: Shape, disk: FileSystem, tables: map<nat, seq<Entry>>, ids: seq<nat>, i: nat,
                      ls: seq<Contents>)
    requires FilesAre(shape, disk, tables, ids) && i < |ids|
    ensures IsTable(shape.fnv, disk[ids[i]], shape, EntriesOf(tables, ids[i])) && AllPuts(EntriesOf(tables, ids[i]))
    ensures [ToMap(EntriesOf(tables, ids[i]))] + (MapsOf(tables, ids[i + 1..]) + ls) == MapsOf(tables, ids[i..]) + ls
  {
    hide IsTable, ToMap, MapsOf, AllPuts;
    assert FileIs(shape, disk, tables, ids[i]);
    MapsTail(tables, ids, i);
    var a, b := [ToMap(EntriesOf(tables, ids[i]))], MapsOf(tables, ids[i + 1..]);
    assert a + (b + ls) == a + b + ls;
  }

  lemma MapsTail(tables: map<nat, seq<Entry>>, ids: seq<nat>, i: nat)
    requires i < |ids|
    ensures MapsOf(tables, ids[i..]) == [ToMap(EntriesOf(tables, ids[i]))] + MapsOf(tables, ids[i + 1..])
  {
    hide ToMap, EntriesOf;
    assert ids[i..][0] == ids[i];
    assert ids[i..][1..] == ids[i + 1..];
  }

  lemma LevelEnds(tables: map<nat, seq<Entry>>, ids: seq<nat>, ls: seq<Contents>)
    ensures MapsOf(tables, ids[|ids|..]) + ls == ls && MapsOf(tables, ids[0..]) + ls == MapsOf(tables, ids) + ls
  {
    assert ids[0..] == ids;
    assert MapsOf(tables, ids[|ids|..]) == [];
  }

  /** Scan a level's files from the newest to the oldest. */
  method ScanLevel(shape: Shape, disk: FileSystem, ids: seq<nat>, lo: Bytes, hi: Bytes, seen: set<Bytes>,
                   found: seq<KeyValue>,
                   ghost tables: map<nat, seq<Entry>>, ghost ls: seq<Contents>)
    returns (err: Option<ReadError>, seen': set<Bytes>, found': seq<KeyValue>)
    requires forall i :: 0 <= i < |ids| ==> ids[i] in disk
    ensures Gathered(ls, lo, hi, seen, found) && FilesAre(shape, disk, tables, ids) ==>
              err == None && Gathered(MapsOf(tables, ids) + ls, lo, hi, seen', found')
  {
    ghost var ok := Gathered(ls, lo, hi, seen, found) && FilesAre(shape, disk, tables, ids);
    err, seen', found' := None, seen, found;
    hide *;
    LevelEnds(tables, ids, ls);
    var i := |ids|;
    while i > 0
      invariant 0 <= i <= |ids|
      invariant ok ==> err == None && Gathered(MapsOf(tables, ids[i..]) + ls, lo, hi, seen', found')
    {
      i := i - 1;
      if ok {
        LevelGathered(shape, disk, tables, ids, i, ls);
      }
      err, seen', found' := ScanTable(shape, disk[ids[i]], lo, hi, seen', found', EntriesOf(tables, ids[i]),
          MapsOf(tables, ids[i + 1..]) + ls);
      if err.Some? {
        return;
      }
    }
  }

  // ---------------------------------------------------------------- sorting

  function InsertPair(r: seq<KeyValue>, x: KeyValue): seq<KeyValue> {
    if r == [] || Less(x.key, r[0].key) then [x] + r else [r[0]] + InsertPair(r[1..], x)
  }

  /** sort.Slice by key. */
  function SortPairs(r: seq<KeyValue>): seq<KeyValue> {
    if r == [] then [] else InsertPair(SortPairs(r[1..]), r[0])
  }

  lemma {:induction false} InsertKeeps(r: seq<KeyValue>, x: KeyValue, y: KeyValue)
    ensures y in InsertPair(r, x) <==> y == x || y in r
  {
    if r != [] && !Less(x.key, r[0].key) {
      InsertKeeps(r[1..], x, y);
      assert r == [r[0]] + r[1..];
    }
  }

  lemma {:induction false} InsertAscends(r: seq<KeyValue>, x: KeyValue)
    requires AscendingKeys(r) && forall y :: y in r ==> y.key != x.key
    ensures AscendingKeys(InsertPair(r, x))
  {
    if r != [] {
      LessTotal(x.key, r[0].key);
      if Less(x.key, r[0].key) {
        forall i | 0 < i < |r| ensures Less(x.key, r[i].key) {
          LessTransitive(x.key, r[0].key, r[i].key);
        }
      } else {
        InsertAscends(r[1..], x);
        var tail := InsertPair(r[1..], x);
        forall i | 0 <= i < |tail| ensures Less(r[0].key, tail[i].key) {
          InsertKeeps(r[1..], x, tail[i]);
        }
      }
    }
  }

  lemma {:induction false} SortKeeps(r: seq<KeyValue>, y: KeyValue)
    ensures y in SortPairs(r) <==> y in r
  {
    if r != [] {
      SortKeeps(r[1..], y);
      InsertKeeps(SortPairs(r[1..]), r[0], y);
      assert r == [r[0]] + r[1..];
    }
  }

  lemma {:induction false} SortAscends(r: seq<KeyValue>)
    requires DistinctKeys(r)
    ensures AscendingKeys(SortPairs(r))
  {
    if r != [] {
      SortAscends(r[1..]);
      forall y | y in SortPairs(r[1..]) ensures y.key != r[0].key {
        SortKeeps(r[1..], y);
      }
      InsertAscends(SortPairs(r[1..]), r[0]);
    }
  }

  /**
   r lists, in strictly ascending order and each once, exactly the keys within the bounds that read as present,
   with their values.
   */
  ghost predicate IsLiveRange(ls: seq<Contents>, lo: Bytes, hi: Bytes, r: seq<KeyValue>) {
    && AscendingKeys(r)
    && forall k: Bytes, v: Bytes :: KeyValue(k, v) in r <==> InBounds(k, lo, hi) && Live(Newest(ls, k)) == Some(v)
  }

  lemma GatheredIsLive(ls: seq<Contents>, lo: Bytes, hi: Bytes, seen: set<Bytes>, found: seq<KeyValue>)
    requires Gathered(ls, lo, hi, seen, found)
    ensures IsLiveRange(ls, lo, hi, SortPairs(found))
  {
    SortAscends(found);
    hide AscendingKeys, InBounds, Newest, SortPairs;
    forall k: Bytes, v: Bytes ensures KeyValue(k, v) in SortPairs(found) <==>
        InBounds(k, lo, hi) && Live(Newest(ls, k)) == Some(v) {
      SortKeeps(found, KeyValue(k, v));
    }
  }
}
