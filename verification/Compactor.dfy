/**
 K-way merge compaction (internal/engine/iterator.go, compactor.go:18-160).
 */
module Compactor {
  import opened Options
  import opened ByteStrings
  import opened Entries
  import opened Bloom
  import opened TableFormat
  import opened TableReader
  import opened TableWriter

  // ---------------------------------------------------------------- iterator

  /** int64(x). */
  function Signed64(x: nat): int {
    if x < 0x8000_0000_0000_0000 then x else x - TWO64
  }

  /** A file NewSSTIterator turns down. */
  ghost predicate Refused(file: Bytes) {
    |file| < FOOTER_SIZE || GetBE(file[|file| - 4..]) != MAGIC
  }

  /** A file is refused unless it ends with the bytes F0 E5 7D BB of a whole footer. */
  lemma RefusedExactly(file: Bytes)
    ensures Refused(file) <==> |file| < 20 || file[|file| - 4..] != [0xF0, 0xE5, 0x7D, 0xBB]
  {
    if |file| >= 20 {
      var x := file[|file| - 4..];
      PutGet(x);
      GetPut32(MAGIC);
      MagicBytes();
      hide PutBE, GetBE;
    }
  }

  /** SSTIterator; `es` and `pos` are history: the table's entries and how many have been read. */
  class SSTIterator {
    const file: Bytes
    const dataEnd: int
    const fileSeq: nat
    var current: nat
    var entry: Entry
    var failed: bool
    ghost const es: seq<Entry>
    ghost var pos: nat

    ghost predicate Valid()
      reads this
    {
      && pos <= |es| && AllFit(es) && !failed
      && dataEnd == |Data(es)| && current == Off(es, pos)
      && |Data(es)| <= |file| && file[..|Data(es)|] == Data(es)
    }

    /** The entries still to be read are `tail`. */
    ghost predicate Ahead(tail: seq<Entry>)
      reads this
    {
      Valid() && es[pos..] == tail
    }

    constructor Make(file: Bytes, dataEnd: int, fileSeq: nat, ghost es: seq<Entry>)
      ensures this.file == file && this.dataEnd == dataEnd && this.fileSeq == fileSeq && this.es == es
      ensures current == 0 && pos == 0 && !failed
    {
      this.file, this.dataEnd, this.fileSeq, this.es := file, dataEnd, fileSeq, es;
      current, entry, failed := 0, Entry(0, [], []), false;
      pos := 0;
    }

    /** NewSSTIterator: the footer's first field marks the end of the data. */
    static method Open(file: Bytes, fileSeq: nat, ghost fnv: Hash, ghost shape: Shape, ghost es: seq<Entry>)
      returns (r: Result<SSTIterator, ReadError>)
      ensures r.Err? <==> Refused(file)
      ensures r.Err? ==> r.error == if |file| < FOOTER_SIZE then TooSmall else BadMagic
      ensures r.Ok? ==> fresh(r.value) && r.value.fileSeq == fileSeq && r.value.file == file && r.value.current == 0
      ensures r.Ok? && IsTable(fnv, file, shape, es) ==> r.value.Ahead(es)
    {
      ghost var ok := IsTable(fnv, file, shape, es);
      hide PutBE, GetBE, Data, IsTable, AllFit, Off;
      if ok {
        IteratorParts(fnv, file, shape, es);
      }
      var n := |file|;
      if n < FOOTER_SIZE {
        return Err(TooSmall);
      }
      if GetBE(file[n - 4..]) != MAGIC {
        return Err(BadMagic);
      }
      var it := new SSTIterator.Make(file, Signed64(GetBE(file[n - 20..n - 12])), fileSeq, es);
      assert es[0..] == es;
      r := Ok(it);
    }

    /** Next: decodes the record at `current`, or stops at the end of the data or at a read error. */
    method Next() returns (ok: bool)
      modifies this
      ensures old(Valid()) ==> Valid() && ok == (old(pos) < |es|)
      ensures old(Valid()) && ok ==> pos == old(pos) + 1 && entry == es[old(pos)]
      ensures ok ==> old(current) < current <= |file|
      ensures !ok ==> pos == old(pos) && entry == old(entry) && current == old(current)
    {
      hide PutBE, GetBE, Data, AllFit, Off, Fits;
      ghost var valid := Valid();
      if valid {
        AtRecord(es, pos);
        if pos < |es| {
          RecordInFile(file, es, pos);
        }
      }
      if current >= dataEnd {
        return false;
      }
      if current + 7 > |file| {
        failed := true;
        return false;
      }
      var keyLen, valLen := GetBE(file[current + 1..current + 3]), GetBE(file[current + 3..current + 7]);
      if current + 7 + keyLen + valLen > |file| {
        failed := true;
        return false;
      }
      entry := Entry(file[current], file[current + 7..current + 7 + keyLen],
                     file[current + 7 + keyLen..current + 7 + keyLen + valLen]);
      current := current + 7 + keyLen + valLen;
      pos := pos + 1;
      return true;
    }
  }

  lemma IteratorParts(fnv: Hash, file: Bytes, shape: Shape, es: seq<Entry>)
    requires IsTable(fnv, file, shape, es)
    ensures |file| >= FOOTER_SIZE && GetBE(file[|file| - 4..]) == MAGIC
    ensures Signed64(GetBE(file[|file| - 20..|file| - 12])) == |Data(es)| <= |file| && file[..|Data(es)|] == Data(es)
    ensures AllFit(es) && Off(es, 0) == 0
  {
    TableParts(fnv, file, shape, es);
    EmptyPrefix(es);
    hide Data, Encoded, IndexBlock, Footer, Filter, Marks, PutBE, GetBE;
  }

  lemma AtRecord(es: seq<Entry>, pos: nat)
    requires pos <= |es|
    ensures pos < |es| ==> Off(es, pos) + 7 <= Off(es, pos + 1) <= |Data(es)|
    ensures pos == |es| ==> Off(es, pos) == |Data(es)|
  {
    if pos < |es| {
      OffStep(es, pos);
    } else {
      assert es[..pos] == es;
    }
  }

  lemma RecordInFile(file: Bytes, es: seq<Entry>, pos: nat)
    requires pos < |es| && AllFit(es) && |Data(es)| <= |file| && file[..|Data(es)|] == Data(es)
    ensures var off, e := Off(es, pos), es[pos];
            && off + 7 + |e.key| + |e.val| == Off(es, pos + 1) <= |Data(es)|
            && file[off] == e.op
            && GetBE(file[off + 1..off + 3]) == |e.key| && GetBE(file[off + 3..off + 7]) == |e.val|
            && file[off + 7..off + 7 + |e.key|] == e.key
            && file[off + 7 + |e.key|..off + 7 + |e.key| + |e.val|] == e.val
  {
    hide PutBE, GetBE, Data, Record;
    OffStep(es, pos);
    FitsAt(es, pos);
    SubSlice(file, 0, |Data(es)|, Off(es, pos), Off(es, pos + 1));
    assert file[0..|Data(es)|] == file[..|Data(es)|];
    RecordFields(file, Off(es, pos), es[pos]);
  }

  // ------------------------------------------------------- newest entry wins

  /** The entry for k in the newest (last) list that has one. */
  function NewestEntry(tables: seq<seq<Entry>>, k: Bytes): Option<Entry> {
    if tables == [] then None
    else
      var last := tables[|tables| - 1];
      if Find(last, k).Some? then Find(last, k) else NewestEntry(tables[..|tables| - 1], k)
  }

  /** What a compaction of `tables`, oldest first, has to write: the newest entry of every key but the empty one. */
  ghost predicate Compacted(tables: seq<seq<Entry>>, out: seq<Entry>) {
    && Sorted(out)
    && forall k: Bytes :: Find(out, k) == if k == [] then None else NewestEntry(tables, k)
  }

  lemma {:induction false} NewestIs(tables: seq<seq<Entry>>, k: Bytes, c: nat)
    requires c < |tables| && Find(tables[c], k).Some?
    requires forall i :: c < i < |tables| ==> Find(tables[i], k) == None
    ensures NewestEntry(tables, k) == Find(tables[c], k)
  {
    if c < |tables| - 1 {
      NewestIs(tables[..|tables| - 1], k, c);
    }
  }

  lemma {:induction false} NewestNone(tables: seq<seq<Entry>>, k: Bytes)
    requires forall i :: 0 <= i < |tables| ==> Find(tables[i], k) == None
    ensures NewestEntry(tables, k) == None
  {
    if tables != [] {
      NewestNone(tables[..|tables| - 1], k);
    }
  }

  lemma {:induction false} NewestSame(a: seq<seq<Entry>>, b: seq<seq<Entry>>, k: Bytes)
    requires |a| == |b| && forall i :: 0 <= i < |a| ==> Find(a[i], k) == Find(b[i], k)
    ensures NewestEntry(a, k) == NewestEntry(b, k)
  {
    if a != [] {
      NewestSame(a[..|a| - 1], b[..|b| - 1], k);
    }
  }

  // ------------------------------------------------------------ merge progress

  ghost predicate AllSorted(rest: seq<seq<Entry>>) {
    forall i :: 0 <= i < |rest| ==> Sorted(rest[i])
  }

  /**
   Written so far: `out` is sorted, has no empty key, lies below all that is left, and together with it answers
   like the inputs.
   */
  ghost predicate Merging(tables: seq<seq<Entry>>, rest: seq<seq<Entry>>, out: seq<Entry>, lastKey: Bytes) {
    && |rest| == |tables| && AllSorted(rest) && Sorted(out)
    && (forall i :: 0 <= i < |out| ==> AtMost(out[i].key, lastKey) && out[i].key != [])
    && (lastKey != [] ==> forall i :: 0 <= i < |rest| && rest[i] != [] ==> Less(lastKey, rest[i][0].key))
    && (forall k: Bytes :: k != [] ==>
          NewestEntry(tables, k) == if Find(out, k).Some? then Find(out, k) else NewestEntry(rest, k))
  }

  /** k is the least key left, and list c the newest that has it at its head. */
  ghost predicate Picks(rest: seq<seq<Entry>>, c: nat, k: Bytes) {
    && c < |rest| && rest[c] != [] && rest[c][0].key == k
    && forall i :: 0 <= i < |rest| && rest[i] != [] ==>
         Less(k, rest[i][0].key) || (k == rest[i][0].key && i <= c)
  }

  /** The lists after every head with key k has been dropped. */
  ghost predicate Drops(rest: seq<seq<Entry>>, rest': seq<seq<Entry>>, k: Bytes) {
    && |rest'| == |rest|
    && forall i :: 0 <= i < |rest| ==>
         rest'[i] == if rest[i] != [] && rest[i][0].key == k then rest[i][1..] else rest[i]
  }

  /** In a sorted list whose head is not below k, k is at the head or nowhere. */
  lemma HeadOrNowhere(es: seq<Entry>, k: Bytes)
    requires Sorted(es) && (es != [] ==> AtMost(k, es[0].key))
    ensures es != [] && es[0].key == k ==> Find(es, k) == Some(es[0]) && Find(es[1..], k) == None
    ensures es == [] || es[0].key != k ==> Find(es, k) == None
  {
    if es != [] && es[0].key == k {
      HeadOnce(es, k);
    } else if es != [] {
      BeforeFirst(es, k);
    }
  }

  lemma DropFinds(rest: seq<seq<Entry>>, rest': seq<seq<Entry>>, c: nat, k: Bytes, x: Bytes)
    requires AllSorted(rest) && Picks(rest, c, k) && Drops(rest, rest', k)
    ensures x != k ==> NewestEntry(rest', x) == NewestEntry(rest, x)
    ensures NewestEntry(rest, k) == Some(rest[c][0]) && NewestEntry(rest', k) == None
  {
    forall i | 0 <= i < |rest|
      ensures x != k ==> Find(rest'[i], x) == Find(rest[i], x)
      ensures Find(rest'[i], k) == None
      ensures i > c ==> Find(rest[i], k) == None
      ensures i == c ==> Find(rest[i], k) == Some(rest[c][0])
    {
      HeadOrNowhere(rest[i], k);
      LessIrreflexive(k);
    }
    if x != k {
      NewestSame(rest', rest, x);
    }
    NewestIs(rest, k, c);
    NewestNone(rest', k);
  }

  lemma DropBounds(rest: seq<seq<Entry>>, rest': seq<seq<Entry>>, c: nat, k: Bytes)
    requires AllSorted(rest) && Picks(rest, c, k) && Drops(rest, rest', k)
    ensures AllSorted(rest')
    ensures forall i :: 0 <= i < |rest'| && rest'[i] != [] ==> Less(k, rest'[i][0].key)
  {
    forall i | 0 <= i < |rest'| ensures Sorted(rest'[i]) && (rest'[i] != [] ==> Less(k, rest'[i][0].key)) {
      assert Sorted(rest[i]);
    }
  }

  /** One turn of the merge loop: the picked entry is written unless its key is the empty one. */
  lemma MergeStep(tables: seq<seq<Entry>>, rest: seq<seq<Entry>>, rest': seq<seq<Entry>>, out: seq<Entry>,
                  lastKey: Bytes, c: nat, k: Bytes)
    requires Merging(tables, rest, out, lastKey) && Picks(rest, c, k) && Drops(rest, rest', k)
    ensures lastKey != k <==> k != []
    ensures Merging(tables, rest', if k == [] then out else out + [rest[c][0]], k)
  {
    DropBounds(rest, rest', c, k);
    LessIrreflexive(k);
    var out' := if k == [] then out else out + [rest[c][0]];
    assert k != [] ==> Less(lastKey, k);
    forall i | 0 <= i < |out| ensures Less(out[i].key, k) || k == [] {
      if out[i].key != lastKey && k != [] {
        LessTransitive(out[i].key, lastKey, k);
      }
    }
    assert k == [] ==> lastKey == [];
    forall x: Bytes | x != []
      ensures NewestEntry(tables, x) == if Find(out', x).Some? then Find(out', x) else NewestEntry(rest', x)
    {
      DropFinds(rest, rest', c, k, x);
      FindConcat(out, [rest[c][0]], x);
      OutBelow(out, k);
    }
  }

  lemma OutBelow(out: seq<Entry>, k: Bytes)
    requires forall i :: 0 <= i < |out| ==> Less(out[i].key, k) || k == []
    ensures k != [] ==> Find(out, k) == None
  {
    LessIrreflexive(k);
    FindNone(out, k);
  }

  // -------------------------------------------------------------------- heap

  /** The head of an iterator in the heap. */
  datatype HeapItem = HeapItem(entry: Entry, fileSeq: nat, it: SSTIterator)

  /** MinHeap.Less: by key, and among equal keys the newer file first. */
  predicate ItemLess(a: HeapItem, b: HeapItem) {
    if a.entry.key == b.entry.key then a.fileSeq > b.fileSeq else Less(a.entry.key, b.entry.key)
  }

  lemma ItemLessTransitive(a: HeapItem, b: HeapItem, c: HeapItem)
    requires !ItemLess(b, a) && !ItemLess(c, b)
    ensures !ItemLess(c, a)
  {
    var x, y, z := a.entry.key, b.entry.key, c.entry.key;
    LessTotal(x, y);
    LessTotal(y, z);
    LessTotal(x, z);
    if Less(x, y) && Less(y, z) {
      LessTransitive(x, y, z);
    }
    if Less(x, z) {
      LessAsymmetric(x, z);
    }
  }

  /** The position of a least item: the one heap.Pop removes and the top of the heap shows. */
  method Least(h: seq<HeapItem>) returns (m: nat)
    requires h != []
    ensures m < |h| && forall i :: 0 <= i < |h| ==> !ItemLess(h[i], h[m])
  {
    m := 0;
    LessIrreflexive(h[0].entry.key);
    var j := 1;
    while j < |h|
      invariant 1 <= j <= |h| && m < j
      invariant forall i :: 0 <= i < j ==> !ItemLess(h[i], h[m])
    {
      if ItemLess(h[j], h[m]) {
        ghost var was := m;
        m := j;
        LessIrreflexive(h[j].entry.key);
        forall i | 0 <= i < j ensures !ItemLess(h[i], h[j]) {
          if h[j].entry.key != h[was].entry.key {
            LessAsymmetric(h[j].entry.key, h[was].entry.key);
          }
          ItemLessTransitive(h[j], h[was], h[i]);
        }
      }
      j := j + 1;
    }
  }

  predicate InHeap(h: seq<HeapItem>, i: nat) {
    exists a :: 0 <= a < |h| && h[a].fileSeq == i
  }

  /** An item of the heap is the first entry of a list outside `out`. */
  ghost predicate IsHead(its: seq<SSTIterator>, x: HeapItem, rest: seq<seq<Entry>>, out: set<nat>)
    requires |rest| == |its|
  {
    && x.fileSeq < |its| && x.fileSeq !in out && x.it == its[x.fileSeq]
    && rest[x.fileSeq] != [] && rest[x.fileSeq][0] == x.entry
  }

  ghost predicate OneEach(h: seq<HeapItem>) {
    forall a, b :: 0 <= a < b < |h| ==> h[a].fileSeq != h[b].fileSeq
  }

  /** The items of the heap are the first entries of the non-empty lists outside `out`, one item a list. */
  ghost predicate Heads(its: seq<SSTIterator>, h: seq<HeapItem>, rest: seq<seq<Entry>>, out: set<nat>) {
    && |rest| == |its|
    && (forall a :: 0 <= a < |h| ==> IsHead(its, h[a], rest, out))
    && OneEach(h)
    && (forall i :: 0 <= i < |its| && rest[i] != [] && i !in out ==> InHeap(h, i))
  }

  function Behind(es: seq<Entry>): seq<Entry> {
    if es == [] then [] else es[1..]
  }

  /** The iterators hold what follows the first entries of `rest`. */
  ghost predicate Tails(its: seq<SSTIterator>, rest: seq<seq<Entry>>)
    reads its
  {
    && |rest| == |its|
    && (forall i :: 0 <= i < |its| ==> its[i].fileSeq == i)
    && (forall i :: 0 <= i < |its| ==> its[i].Ahead(Behind(rest[i])))
  }

  function Without<T>(s: seq<T>, m: nat): seq<T>
    requires m < |s|
  {
    s[..m] + s[m + 1..]
  }

  lemma InWithout(h: seq<HeapItem>, m: nat, i: nat)
    requires m < |h| && InHeap(h, i) && h[m].fileSeq != i
    ensures InHeap(Without(h, m), i)
  {
    var a :| 0 <= a < |h| && h[a].fileSeq == i;
    assert Without(h, m)[if a < m then a else a - 1].fileSeq == i;
  }

  lemma InMore(h: seq<HeapItem>, x: HeapItem, i: nat)
    requires InHeap(h, i) || x.fileSeq == i
    ensures InHeap(h + [x], i)
  {
    if InHeap(h, i) {
      var a :| 0 <= a < |h| && h[a].fileSeq == i;
      assert (h + [x])[a].fileSeq == i;
    } else {
      assert (h + [x])[|h|].fileSeq == i;
    }
  }

  lemma HeadsPop(its: seq<SSTIterator>, h: seq<HeapItem>, rest: seq<seq<Entry>>, out: set<nat>, m: nat)
    requires Heads(its, h, rest, out) && m < |h|
    ensures Heads(its, Without(h, m), rest, out + {h[m].fileSeq})
  {
    var h', out' := Without(h, m), out + {h[m].fileSeq};
    forall a | 0 <= a < |h'| ensures IsHead(its, h'[a], rest, out') {
      assert h'[a] == h[if a < m then a else a + 1];
    }
    forall i | 0 <= i < |its| && rest[i] != [] && i !in out' ensures InHeap(h', i) {
      InWithout(h, m, i);
    }
    hide InHeap, IsHead;
  }

  lemma HeadsTake(its: seq<SSTIterator>, h: seq<HeapItem>, rest: seq<seq<Entry>>, out: set<nat>, d: nat)
    requires Heads(its, h, rest, out) && d in out && d < |its| && rest[d] != []
    ensures Heads(its, h, Taken(rest, d), out)
  {
    forall a | 0 <= a < |h| ensures IsHead(its, h[a], Taken(rest, d), out) {
      assert IsHead(its, h[a], rest, out);
    }
    hide IsHead, InHeap, OneEach;
  }

  lemma HeadsReturn(its: seq<SSTIterator>, h: seq<HeapItem>, rest: seq<seq<Entry>>, out: set<nat>, d: nat)
    requires Heads(its, h, rest, out) && d in out && d < |its|
    ensures Heads(its, if rest[d] == [] then h else h + [HeapItem(rest[d][0], d, its[d])], rest, out - {d})
  {
    if rest[d] != [] {
      var x := HeapItem(rest[d][0], d, its[d]);
      var h' := h + [x];
      forall a | 0 <= a < |h'| ensures IsHead(its, h'[a], rest, out - {d}) && (a < |h| ==> h'[a].fileSeq != d) {
        if a < |h| {
          assert IsHead(its, h[a], rest, out);
        }
      }
      forall i | 0 <= i < |its| && rest[i] != [] && i !in out - {d} ensures InHeap(h', i) {
        InMore(h, x, i);
      }
      hide IsHead, InHeap;
    } else {
      forall a | 0 <= a < |h| ensures IsHead(its, h[a], rest, out - {d}) {
        assert IsHead(its, h[a], rest, out);
      }
      hide IsHead, InHeap;
    }
  }

  /** The lists after the first entry of list d has been taken. */
  function Taken(rest: seq<seq<Entry>>, d: nat): seq<seq<Entry>>
    requires d < |rest| && rest[d] != []
  {
    rest[d := rest[d][1..]]
  }

  /** Advance the iterator of a popped item and push its next entry, if it has one. */
  method PushNext(its: seq<SSTIterator>, h: seq<HeapItem>, d: nat, ghost rest: seq<seq<Entry>>, ghost out: set<nat>)
    returns (h': seq<HeapItem>)
    requires Heads(its, h, rest, out) && Tails(its, rest) && d in out && d < |its| && rest[d] != []
    modifies its[d]
    ensures Heads(its, h', Taken(rest, d), out - {d}) && Tails(its, Taken(rest, d))
  {
    HeadsTake(its, h, rest, out, d);
    HeadsReturn(its, h, Taken(rest, d), out, d);
    hide Heads, SSTIterator.Ahead, Behind;
    ghost var tail := rest[d][1..];
    assert its[d].Ahead(tail) by {
      BehindIs(rest[d]);
    }
    var ok := NextAhead(its[d], tail);
    forall i | 0 <= i < |its| ensures its[i].Ahead(Behind(Taken(rest, d)[i])) {
      if i != d {
        assert its[i] != its[d];
        assert old(its[i].Ahead(Behind(rest[i])));
      }
    }
    if ok {
      return h + [HeapItem(its[d].entry, its[d].fileSeq, its[d])];
    }
    return h;
  }

  lemma BehindIs(es: seq<Entry>)
    requires es != []
    ensures Behind(es) == es[1..]
  {
  }

  /** Next, in terms of the entries still to be read. */
  method NextAhead(it: SSTIterator, ghost tail: seq<Entry>) returns (ok: bool)
    requires it.Ahead(tail)
    modifies it
    ensures ok == (tail != []) && it.Ahead(Behind(tail))
    ensures ok ==> it.entry == tail[0]
  {
    hide Data, Off, AllFit;
    ok := it.Next();
  }

  // ------------------------------------------------------------ the merge loop

  function Left(rest: seq<seq<Entry>>): nat {
    if rest == [] then 0 else Left(rest[..|rest| - 1]) + |rest[|rest| - 1]|
  }

  lemma {:induction false} LeftDrop(rest: seq<seq<Entry>>, d: nat)
    requires d < |rest| && rest[d] != []
    ensures Left(Taken(rest, d)) == Left(rest) - 1
  {
    var n := |rest| - 1;
    if d < n {
      assert rest[d := rest[d][1..]][..n] == rest[..n][d := rest[d][1..]];
      LeftDrop(rest[..n], d);
    } else {
      assert rest[d := rest[d][1..]][..n] == rest[..n];
    }
  }

  /** Some of the heads with key k, not that of list c, have been dropped. */
  ghost predicate Purging(rest: seq<seq<Entry>>, now: seq<seq<Entry>>, c: nat, k: Bytes) {
    && |now| == |rest| && c < |rest| && now[c] == rest[c]
    && forall i :: 0 <= i < |rest| ==>
         now[i] == rest[i] || (rest[i] != [] && rest[i][0].key == k && now[i] == rest[i][1..])
  }

  /** Every head left is above k, or belongs to list c. */
  ghost predicate NoneEqual(now: seq<seq<Entry>>, c: nat, k: Bytes) {
    forall i :: 0 <= i < |now| && i != c && now[i] != [] ==> now[i][0].key != k
  }

  lemma HeadOfList(its: seq<SSTIterator>, h: seq<HeapItem>, rest: seq<seq<Entry>>, out: set<nat>, m: nat)
    requires Heads(its, h, rest, out) && m < |h|
    ensures var d := h[m].fileSeq;
            d < |rest| && |rest| == |its| && d !in out && rest[d] != [] && rest[d][0] == h[m].entry && h[m].it == its[d]
  {
    assert IsHead(its, h[m], rest, out);
  }

  lemma PurgingNone(rest: seq<seq<Entry>>, c: nat, k: Bytes)
    requires Picks(rest, c, k)
    ensures c < |rest| && Purging(rest, rest, c, k)
  {
  }

  lemma PurgingTakes(rest: seq<seq<Entry>>, now: seq<seq<Entry>>, c: nat, k: Bytes, d: nat)
    requires AllSorted(rest) && Picks(rest, c, k) && Purging(rest, now, c, k)
    requires d < |now| && d != c && now[d] != [] && now[d][0].key == k
    ensures Purging(rest, Taken(now, d), c, k)
  {
    LessIrreflexive(k);
    assert Sorted(rest[d]);
  }

  /** When the least head of the others differs from k, no head of the others equals k. */
  lemma PurgingDone(its: seq<SSTIterator>, h: seq<HeapItem>, rest: seq<seq<Entry>>, now: seq<seq<Entry>>, c: nat,
                    k: Bytes, m: nat)
    requires AllSorted(rest) && Picks(rest, c, k) && Purging(rest, now, c, k) && Heads(its, h, now, {c})
    requires h != [] ==> m < |h| && h[m].entry.key != k && forall i :: 0 <= i < |h| ==> !ItemLess(h[i], h[m])
    ensures NoneEqual(now, c, k)
  {
    forall i | 0 <= i < |now| && i != c && now[i] != [] ensures now[i][0].key != k {
      assert InHeap(h, i);
      var a :| 0 <= a < |h| && h[a].fileSeq == i;
      var d := h[m].fileSeq;
      assert Sorted(rest[d]);
      LessIrreflexive(k);
      HeadAbove(rest, now, c, k, d);
    }
  }

  lemma HeadAbove(rest: seq<seq<Entry>>, now: seq<seq<Entry>>, c: nat, k: Bytes, d: nat)
    requires AllSorted(rest) && Picks(rest, c, k) && Purging(rest, now, c, k)
    requires d < |now| && now[d] != [] && now[d][0].key != k
    ensures Less(k, now[d][0].key)
  {
    assert Sorted(rest[d]);
  }

  lemma PurgedThenTaken(rest: seq<seq<Entry>>, now: seq<seq<Entry>>, c: nat, k: Bytes)
    requires AllSorted(rest) && Picks(rest, c, k) && Purging(rest, now, c, k) && NoneEqual(now, c, k)
    ensures now[c] != [] && Drops(rest, Taken(now, c), k)
  {
    var after := Taken(now, c);
    forall i | 0 <= i < |rest|
      ensures after[i] == if rest[i] != [] && rest[i][0].key == k then rest[i][1..] else rest[i]
    {
    }
  }

  /** The inner loop: items with the popped item's key come from older files and are skipped. */
  method SkipOlder(its: seq<SSTIterator>, h: seq<HeapItem>, c: nat, k: Bytes, ghost rest: seq<seq<Entry>>)
    returns (h': seq<HeapItem>, ghost now: seq<seq<Entry>>)
    requires AllSorted(rest) && Picks(rest, c, k) && Heads(its, h, rest, {c}) && Tails(its, rest)
    modifies its
    ensures Heads(its, h', now, {c}) && Tails(its, now)
    ensures Purging(rest, now, c, k) && NoneEqual(now, c, k)
  {
    hide *;
    h', now := h, rest;
    PurgingNone(rest, c, k);
    while h' != []
      invariant Heads(its, h', now, {c}) && Tails(its, now) && Purging(rest, now, c, k)
      decreases Left(now)
    {
      var m := Least(h');
      var next := h'[m];
      if next.entry.key != k {
        PurgingDone(its, h', rest, now, c, k, m);
        return;
      }
      var d := next.fileSeq;
      HeadOfList(its, h', now, {c}, m);
      HeadsPop(its, h', now, {c}, m);
      assert {c} + {d} - {d} == {c};
      PurgingTakes(rest, now, c, k, d);
      LeftDrop(now, d);
      h' := PushNext(its, Without(h', m), d, now, {c} + {d});
      now := Taken(now, d);
    }
    PurgingDone(its, h', rest, now, c, k, 0);
  }

  // -------------------------------------------------------------- compaction

  lemma HeadsAdd(its: seq<SSTIterator>, h: seq<HeapItem>, rest: seq<seq<Entry>>, it: SSTIterator, es: seq<Entry>)
    requires Heads(its, h, rest, {})
    ensures Heads(its + [it], if es == [] then h else h + [HeapItem(es[0], |its|, it)], rest + [es], {})
  {
    var its', rest' := its + [it], rest + [es];
    forall a | 0 <= a < |h| ensures IsHead(its', h[a], rest', {|its|}) {
      assert IsHead(its, h[a], rest, {});
    }
    forall i | 0 <= i < |its'| && rest'[i] != [] && i !in {|its|} ensures InHeap(h, i) {
      assert rest[i] != [] && i < |its|;
    }
    assert Heads(its', h, rest', {|its|});
    assert {|its|} - {|its|} == {};
    HeadsReturn(its', h, rest', {|its|}, |its|);
  }

  lemma NoHeads()
    ensures Heads([], [], [], {}) && Tails([], [])
  {
  }

  /** Opening the inputs: one iterator a file, its first entry in the heap; the first refused file ends it. */
  method OpenAll(files: seq<Bytes>, ghost shape: Shape, ghost tables: seq<seq<Entry>>)
    returns (r: Result<(seq<SSTIterator>, seq<HeapItem>), ReadError>)
    requires |files| == |tables|
    requires forall i :: 0 <= i < |files| ==> IsTable(shape.fnv, files[i], shape, tables[i]) || Refused(files[i])
    ensures r.Err? <==> exists i :: 0 <= i < |files| && Refused(files[i])
    ensures r.Ok? ==>
              && Heads(r.value.0, r.value.1, tables, {}) && Tails(r.value.0, tables)
              && forall i :: 0 <= i < |r.value.0| ==> fresh(r.value.0[i])
  {
    var its: seq<SSTIterator> := [];
    var h: seq<HeapItem> := [];
    hide *;
    NoHeads();
    var i := 0;
    assert tables[..0] == [];
    while i < |files|
      invariant i <= |files| && |its| == i
      invariant forall j :: 0 <= j < i ==> !Refused(files[j]) && fresh(its[j])
      invariant Heads(its, h, tables[..i], {}) && Tails(its, tables[..i])
    {
      var res := SSTIterator.Open(files[i], i, shape.fnv, shape, tables[i]);
      if res.Err? {
        return Err(res.error);
      }
      var it := res.value;
      h := Seed(its, h, it, tables[..i], tables[i]);
      its := its + [it];
      assert tables[..i + 1] == tables[..i] + [tables[i]];
      i := i + 1;
    }
    assert tables[..i] == tables;
    r := Ok((its, h));
  }

  /** Read the first entry of a new iterator and push it. */
  method Seed(its: seq<SSTIterator>, h: seq<HeapItem>, it: SSTIterator, ghost rest: seq<seq<Entry>>,
              ghost es: seq<Entry>)
    returns (h': seq<HeapItem>)
    requires Heads(its, h, rest, {}) && Tails(its, rest) && it !in its && it.Ahead(es) && it.fileSeq == |its|
    modifies it
    ensures Heads(its + [it], h', rest + [es], {}) && Tails(its + [it], rest + [es])
  {
    hide *;
    HeadsAdd(its, h, rest, it, es);
    TailsOut(its, rest);
    var ok := NextAhead(it, es);
    ghost var its', rest' := its + [it], rest + [es];
    forall i | 0 <= i < |its'| ensures its'[i].Ahead(Behind(rest'[i])) && its'[i].fileSeq == i {
      if i < |its| {
        assert its'[i] == its[i] && rest'[i] == rest[i] && its[i] in its;
        assert old(its[i].Ahead(Behind(rest[i])));
      }
    }
    TailsIn(its', rest');
    h' := if ok then h + [HeapItem(it.entry, it.fileSeq, it)] else h;
  }

  lemma TailsOut(its: seq<SSTIterator>, rest: seq<seq<Entry>>)
    requires Tails(its, rest)
    ensures |rest| == |its|
    ensures forall i :: 0 <= i < |its| ==> its[i].fileSeq == i && its[i].Ahead(Behind(rest[i]))
  {
  }

  lemma TailsIn(its: seq<SSTIterator>, rest: seq<seq<Entry>>)
    requires |rest| == |its|
    requires forall i :: 0 <= i < |its| ==> its[i].fileSeq == i && its[i].Ahead(Behind(rest[i]))
    ensures Tails(its, rest)
  {
  }

  /** The item heap.Pop takes from a full heap is the least key's entry in the newest file that has it. */
  lemma LeastPicks(its: seq<SSTIterator>, h: seq<HeapItem>, rest: seq<seq<Entry>>, m: nat)
    requires Heads(its, h, rest, {}) && m < |h|
    requires forall i :: 0 <= i < |h| ==> !ItemLess(h[i], h[m])
    ensures Picks(rest, h[m].fileSeq, h[m].entry.key)
  {
    HeadOfList(its, h, rest, {}, m);
    var k, c := h[m].entry.key, h[m].fileSeq;
    forall i | 0 <= i < |rest| && rest[i] != []
      ensures Less(k, rest[i][0].key) || (k == rest[i][0].key && i <= c)
    {
      assert InHeap(h, i);
      var a :| 0 <= a < |h| && h[a].fileSeq == i;
      HeadOfList(its, h, rest, {}, a);
      LessTotal(k, rest[i][0].key);
    }
  }

  /** An empty heap means nothing is left. */
  lemma NothingLeft(its: seq<SSTIterator>, rest: seq<seq<Entry>>)
    requires Heads(its, [], rest, {})
    ensures forall i :: 0 <= i < |rest| ==> rest[i] == []
  {
    forall i | 0 <= i < |rest| ensures rest[i] == [] {
      assert !InHeap([], i);
    }
  }

  lemma MergeDone(tables: seq<seq<Entry>>, rest: seq<seq<Entry>>, out: seq<Entry>, lastKey: Bytes)
    requires Merging(tables, rest, out, lastKey)
    requires forall i :: 0 <= i < |rest| ==> rest[i] == []
    ensures Compacted(tables, out)
  {
    forall k: Bytes ensures Find(out, k) == if k == [] then None else NewestEntry(tables, k) {
      NewestNone(rest, k);
      if k == [] {
        FindNone(out, k);
      }
    }
  }

  lemma MergeStart(tables: seq<seq<Entry>>)
    requires AllSorted(tables)
    ensures Merging(tables, tables, [], [])
  {
  }

  lemma {:induction false} LeftDrops(rest: seq<seq<Entry>>, rest': seq<seq<Entry>>, k: Bytes)
    requires Drops(rest, rest', k)
    ensures Left(rest') <= Left(rest)
    ensures (exists i :: 0 <= i < |rest| && rest[i] != [] && rest[i][0].key == k) ==> Left(rest') < Left(rest)
  {
    if rest != [] {
      LeftDrops(rest[..|rest| - 1], rest'[..|rest| - 1], k);
      if exists i :: 0 <= i < |rest| && rest[i] != [] && rest[i][0].key == k {
        var i :| 0 <= i < |rest| && rest[i] != [] && rest[i][0].key == k;
        if i < |rest| - 1 {
          assert rest[..|rest| - 1][i] == rest[i];
        }
      }
    }
  }

  // ------------------------------------------------------- no byte is invented

  /** The bytes of all records of some lists. */
  function DataSize(rest: seq<seq<Entry>>): nat {
    if rest == [] then 0 else DataSize(rest[..|rest| - 1]) + |Data(rest[|rest| - 1])|
  }

  lemma DataHead(es: seq<Entry>)
    requires es != []
    ensures |Data(es)| == |Record(es[0])| + |Data(es[1..])|
  {
    assert es == [es[0]] + es[1..];
    DataConcat([es[0]], es[1..]);
    DataSnoc([], es[0]);
    assert [] + [es[0]] == [es[0]];
  }

  /** Dropping the heads takes at least the picked record's bytes off the inputs. */
  lemma {:induction false} DropsSize(rest: seq<seq<Entry>>, rest': seq<seq<Entry>>, c: nat, k: Bytes)
    requires Drops(rest, rest', k)
    ensures DataSize(rest') <= DataSize(rest)
    ensures c < |rest| && rest[c] != [] && rest[c][0].key == k ==>
        DataSize(rest') + |Record(rest[c][0])| <= DataSize(rest)
  {
    hide Data, Record;
    if rest != [] {
      var n := |rest| - 1;
      DropsSize(rest[..n], rest'[..n], c, k);
      if rest[n] != [] {
        DataHead(rest[n]);
      }
    }
  }

  /** The bytes written and left never exceed those of the inputs. */
  ghost predicate WithinSize(tables: seq<seq<Entry>>, rest: seq<seq<Entry>>, out: seq<Entry>) {
    |Data(out)| + DataSize(rest) <= DataSize(tables)
  }

  lemma SizeStarts(tables: seq<seq<Entry>>)
    ensures WithinSize(tables, tables, [])
  {
  }

  lemma SizeTurn(tables: seq<seq<Entry>>, rest: seq<seq<Entry>>, now: seq<seq<Entry>>, out: seq<Entry>, c: nat,
                 k: Bytes)
    requires WithinSize(tables, rest, out) && AllSorted(rest) && Picks(rest, c, k) && Purging(rest, now, c, k)
        && NoneEqual(now, c, k)
    ensures c < |now| && now[c] != []
    ensures WithinSize(tables, Taken(now, c), if k == [] then out else out + [rest[c][0]])
  {
    hide Less, Sorted, Data, Record;
    PurgedThenTaken(rest, now, c, k);
    DropsSize(rest, Taken(now, c), c, k);
    DataSnoc(out, rest[c][0]);
  }

  lemma SizeEnds(tables: seq<seq<Entry>>, rest: seq<seq<Entry>>, out: seq<Entry>)
    requires WithinSize(tables, rest, out)
    ensures |Data(out)| <= DataSize(tables)
  {
  }

  /**
   The outer loop's turn: skip older duplicates, write the item unless its key equals lastKey, advance its
   iterator.
   */
  lemma TurnDone(tables: seq<seq<Entry>>, rest: seq<seq<Entry>>, now: seq<seq<Entry>>, out: seq<Entry>,
                 lastKey: Bytes, c: nat, k: Bytes)
    requires Merging(tables, rest, out, lastKey) && Picks(rest, c, k) && Purging(rest, now, c, k)
        && NoneEqual(now, c, k)
    ensures c < |now| && now[c] != [] && c < |rest| && rest[c] != []
    ensures lastKey != k <==> k != []
    ensures Merging(tables, Taken(now, c), if k == [] then out else out + [rest[c][0]], k)
    ensures Left(Taken(now, c)) < Left(rest)
  {
    hide Less, NewestEntry, Find, Left;
    PurgedThenTaken(rest, now, c, k);
    MergeStep(tables, rest, Taken(now, c), out, lastKey, c, k);
    LeftDrops(rest, Taken(now, c), k);
  }

  lemma MergingSorted(tables: seq<seq<Entry>>, rest: seq<seq<Entry>>, out: seq<Entry>, lastKey: Bytes)
    requires Merging(tables, rest, out, lastKey)
    ensures AllSorted(rest)
  {
  }

  lemma TablesSorted(files: seq<Bytes>, shape: Shape, tables: seq<seq<Entry>>)
    requires |files| == |tables|
    requires forall i :: 0 <= i < |files| ==> IsTable(shape.fnv, files[i], shape, tables[i])
    ensures AllSorted(tables)
  {
    forall i | 0 <= i < |tables| ensures Sorted(tables[i]) {
      assert IsTable(shape.fnv, files[i], shape, tables[i]);
    }
  }

  /**
   CompactL0toL1. With `tables` the contents of the input files, oldest first, the output file is a table of a
   list `out` that holds exactly the newest entry of every non-empty key, tombstones included, and no more
   record bytes than the inputs; the loop
   terminates because every turn takes at least one entry off the inputs.
   */
  method CompactL0toL1(files: seq<Bytes>, shape: Shape, ghost tables: seq<seq<Entry>>)
    returns (r: Result<Bytes, ReadError>, ghost out: seq<Entry>)
    requires |files| == |tables| && shape.Valid()
    requires forall i :: 0 <= i < |files| ==> IsTable(shape.fnv, files[i], shape, tables[i]) || Refused(files[i])
    ensures r.Err? <==> exists i :: 0 <= i < |files| && Refused(files[i])
    ensures r.Ok? && (forall i :: 0 <= i < |files| ==> IsTable(shape.fnv, files[i], shape, tables[i])) ==>
              r.value == File(shape, out) && Compacted(tables, out) && |Data(out)| <= DataSize(tables)
  {
    hide *;
    out := [];
    var start := OpenAll(files, shape, tables);
    if start.Err? {
      return Err(start.error), [];
    }
    assert forall i :: 0 <= i < |files| ==> IsTable(shape.fnv, files[i], shape, tables[i]);
    TablesSorted(files, shape, tables);
    MergeStart(tables);
    SizeStarts(tables);
    var its: seq<SSTIterator>, h: seq<HeapItem> := start.value.0, start.value.1;
    var bf, data, index, current, last := Init(shape);
    var lastKey: Bytes := [];
    ghost var rest := tables;
    while h != []
      invariant Heads(its, h, rest, {}) && Tails(its, rest) && Merging(tables, rest, out, lastKey)
      invariant WithinSize(tables, rest, out)
      invariant fresh(bf.bits) && bf.TheShape() == shape && Wrote(bf, out, data, index, current, last)
      invariant forall i :: 0 <= i < |its| ==> fresh(its[i]) && its[i] as object != bf && its[i] as object != bf.bits
      decreases Left(rest)
    {
      var m := Least(h);
      var item := h[m];
      var c, k := item.fileSeq, item.entry.key;
      LeastPicks(its, h, rest, m);
      HeadOfList(its, h, rest, {}, m);
      HeadsPop(its, h, rest, {}, m);
      MergingSorted(tables, rest, out, lastKey);
      assert {} + {c} == {c};
      ghost var now;
      h, now := SkipOlder(its, Without(h, m), c, k, rest);
      TurnDone(tables, rest, now, out, lastKey, c, k);
      SizeTurn(tables, rest, now, out, c, k);
      if lastKey != k {
        data, index, current, last := WriteEntry(bf, data, index, current, last, item.entry, out);
        out := out + [item.entry];
        lastKey := k;
      }
      assert fresh(its[c]);
      h := PushNext(its, h, c, now, {c});
      assert {c} - {c} == {};
      rest := Taken(now, c);
    }
    NothingLeft(its, rest);
    MergeDone(tables, rest, out, lastKey);
    SizeEnds(tables, rest, out);
    var file := Finalize(bf, data, index, current, last, out);
    r := Ok(file);
  }
}
