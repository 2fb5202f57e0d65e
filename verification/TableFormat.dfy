/**
 The byte layout of an SSTable (internal/engine/sstable.go:28-148, compactor.go:184-272):
 data records, sparse index, Bloom filter, footer.
 */
module TableFormat {
  import opened ByteStrings
  import opened Entries
  import opened Bloom

  const MAGIC := 0xF0E57DBB
  const FOOTER_SIZE := 20
  const BLOCK_SIZE := 4096

  // ----------------------------------------------------------------- records

  /** OpCode, key length, value length, key, value. */
  function Record(e: Entry): (r: Bytes)
    ensures |r| == 7 + |e.key| + |e.val|
  {
    [e.op] + PutBE(|e.key|, 2) + PutBE(|e.val|, 4) + e.key + e.val
  }

  function Data(es: seq<Entry>): Bytes {
    if es == [] then [] else Data(es[..|es| - 1]) + Record(es[|es| - 1])
  }

  /** The offset of entry i in the data. */
  function Off(es: seq<Entry>, i: nat): nat
    requires i <= |es|
  {
    |Data(es[..i])|
  }

  lemma DataSnoc(es: seq<Entry>, e: Entry)
    ensures Data(es + [e]) == Data(es) + Record(e)
  {
    assert (es + [e])[..|es|] == es;
  }

  lemma Regroup(a: Bytes, b: Bytes, c: Bytes)
    ensures a + b + c == a + (b + c)
  {
  }

  lemma {:induction false} DataConcat(a: seq<Entry>, b: seq<Entry>)
    ensures Data(a + b) == Data(a) + Data(b)
  {
    if b == [] {
      assert a + b == a;
    } else {
      var init, last := b[..|b| - 1], b[|b| - 1];
      hide Data, Record;
      assert a + b == (a + init) + [last] && b == init + [last];
      DataSnoc(a + init, last);
      DataSnoc(init, last);
      DataConcat(a, init);
      Regroup(Data(a), Data(init), Record(last));
    }
  }

  /** The bytes between two record starts are the records between them. */
  lemma DataSlice(es: seq<Entry>, p: nat, q: nat)
    requires p <= q <= |es|
    ensures Off(es, p) <= Off(es, q) <= |Data(es)|
    ensures Data(es)[Off(es, p)..Off(es, q)] == Data(es[p..q])
    ensures Off(es, q) == Off(es, p) + |Data(es[p..q])|
  {
    assert es == es[..p] + es[p..q] + es[q..];
    assert es[..q] == es[..p] + es[p..q];
    DataConcat(es[..p], es[p..q]);
    DataConcat(es[..q], es[q..]);
    assert es[..q] + es[q..] == es;
  }

  lemma OffStep(es: seq<Entry>, i: nat)
    requires i < |es|
    ensures Off(es, i + 1) == Off(es, i) + 7 + |es[i].key| + |es[i].val|
    ensures Off(es, i + 1) <= |Data(es)|
    ensures Data(es)[Off(es, i)..Off(es, i + 1)] == Record(es[i])
  {
    assert es[i..i + 1] == [es[i]];
    DataSnoc([], es[i]);
    assert [] + [es[i]] == [es[i]];
    DataSlice(es, i, i + 1);
  }

  lemma OffOrder(es: seq<Entry>, p: nat, q: nat)
    requires p < q <= |es|
    ensures Off(es, p) + 7 <= Off(es, q) <= |Data(es)|
  {
    OffStep(es, p);
    DataSlice(es, p + 1, q);
  }

  /** Decoding the fields of a record found at offset `off` of some bytes. */
  lemma RecordFields(b: Bytes, off: nat, e: Entry)
    requires Fits(e) && off + |Record(e)| <= |b| && b[off..off + |Record(e)|] == Record(e)
    ensures b[off] == e.op
    ensures GetBE(b[off + 1..off + 3]) == |e.key| && GetBE(b[off + 3..off + 7]) == |e.val|
    ensures b[off + 7..off + 7 + |e.key|] == e.key
    ensures b[off + 7 + |e.key|..off + 7 + |e.key| + |e.val|] == e.val
  {
    hide PutBE, GetBE;
    var r := b[off..off + |Record(e)|];
    RecordParts(e);
    SubSlice(b, off, off + |r|, 1, 3);
    SubSlice(b, off, off + |r|, 3, 7);
    SubSlice(b, off, off + |r|, 7, 7 + |e.key|);
    SubSlice(b, off, off + |r|, 7 + |e.key|, |r|);
    GetPut16(|e.key|);
    GetPut32(|e.val|);
    assert b[off] == r[0];
    hide Record;
  }

  lemma RecordParts(e: Entry)
    ensures var r := Record(e);
            && r[0] == e.op && r[1..3] == PutBE(|e.key|, 2) && r[3..7] == PutBE(|e.val|, 4)
            && r[7..7 + |e.key|] == e.key && r[7 + |e.key|..|r|] == e.val
  {
    hide PutBE;
    var k, v := PutBE(|e.key|, 2), PutBE(|e.val|, 4);
    var head := [e.op] + k + v;
    assert head[1..3] == k && head[3..7] == v;
    var r := head + e.key + e.val;
    assert r[..7] == head && r == Record(e);
    SubSlice(r, 0, 7, 1, 3);
    SubSlice(r, 0, 7, 3, 7);
    assert r[0..7] == head;
  }

  // ------------------------------------------------------------ sparse index

  /**
   The entries that open a block, in the writers' terms: the first one, and every one whose offset lies
   at least 4096 bytes after the offset of the last one listed.
   */
  function Marks(es: seq<Entry>): (ms: seq<nat>)
    ensures forall j :: 0 <= j < |ms| ==> ms[j] < |es|
  {
    if es == [] then []
    else
      var n := |es| - 1;
      var ms := Marks(es[..n]);
      if Opens(es, ms, n) then ms + [n] else ms
  }

  function LastMark(es: seq<Entry>, ms: seq<nat>): nat
    requires forall j :: 0 <= j < |ms| ==> ms[j] < |es|
  {
    if ms == [] then 0 else Off(es, ms[|ms| - 1])
  }

  /** currentOffset - lastIndexOffset >= 4096 || currentOffset == 0. */
  predicate Opens(es: seq<Entry>, ms: seq<nat>, n: nat)
    requires n < |es| && forall j :: 0 <= j < |ms| ==> ms[j] < n
  {
    Off(es, n) - LastMark(es, ms) >= BLOCK_SIZE || Off(es, n) == 0
  }

  lemma OffPrefix(es: seq<Entry>, n: nat, i: nat)
    requires i <= n <= |es|
    ensures Off(es[..n], i) == Off(es, i)
  {
    assert es[..n][..i] == es[..i];
  }

  lemma MarksSnoc(es: seq<Entry>, e: Entry)
    ensures Marks(es + [e]) ==
            if |Data(es)| - LastMark(es, Marks(es)) >= BLOCK_SIZE || |Data(es)| == 0 then Marks(es) + [|es|]
                else Marks(es)
  {
    var all, ms := es + [e], Marks(es);
    assert all[..|es|] == es;
    assert Marks(all) == if Opens(all, ms, |es|) then ms + [|es|] else ms;
    hide Marks, Data;
    if ms != [] {
      OffPrefix(all, |es|, ms[|ms| - 1]);
    }
  }

  /** Offsets in the index strictly increase, starting with entry 0 at offset 0. */
  lemma {:induction false} MarksIncrease(es: seq<Entry>)
    ensures es != [] ==> Marks(es) != [] && Marks(es)[0] == 0
    ensures forall i, j :: 0 <= i < j < |Marks(es)| ==> Marks(es)[i] < Marks(es)[j]
  {
    if es != [] {
      var n := |es| - 1;
      MarksIncrease(es[..n]);
      if n == 0 {
        assert es[..0] == [];
      }
    }
  }

  /** One block of the data: the entries from a mark up to the next. */
  function BlockEnd(es: seq<Entry>, j: nat): nat
    requires j < |Marks(es)|
  {
    if j + 1 < |Marks(es)| then Marks(es)[j + 1] else |es|
  }

  /** Any block a lookup scans is at most 4095 bytes and one record long. */
  lemma BlockBound(es: seq<Entry>, j: nat)
    requires j < |Marks(es)|
    ensures Marks(es)[j] < BlockEnd(es, j) <= |es|
    ensures Off(es, BlockEnd(es, j) - 1) - Off(es, Marks(es)[j]) < BLOCK_SIZE
  {
    MarksIncrease(es);
    BlockGap(es, j, BlockEnd(es, j) - 1);
  }

  /** An entry after mark j that opens no block starts less than 4096 bytes after it. */
  lemma {:induction false} BlockGap(es: seq<Entry>, j: nat, n: nat)
    requires j < |Marks(es)| && Marks(es)[j] <= n < BlockEnd(es, j)
    ensures Off(es, n) - Off(es, Marks(es)[j]) < BLOCK_SIZE
  {
    hide Data, Marks, Off;
    var last := |es| - 1;
    var init := es[..last];
    assert init + [es[last]] == es;
    MarksIncrease(es);
    MarksIncrease(init);
    MarksSnoc(init, es[last]);
    OffAtLast(es);
    if j < |Marks(init)| {
      OffPrefix(es, last, Marks(init)[j]);
      if n < last {
        OffPrefix(es, last, n);
        BlockGap(init, j, n);
      }
    }
  }

  lemma OffAtLast(es: seq<Entry>)
    requires es != []
    ensures Off(es, |es| - 1) == |Data(es[..|es| - 1])|
  {
  }

  function IndexRecord(key: Bytes, off: nat): (r: Bytes)
    ensures |r| == 10 + |key|
  {
    PutBE(|key|, 2) + key + PutBE(off, 8)
  }

  function EncodeIndex(es: seq<Entry>, ms: seq<nat>): Bytes
    requires forall j :: 0 <= j < |ms| ==> ms[j] < |es|
  {
    if ms == [] then []
    else
      var m := ms[|ms| - 1];
      EncodeIndex(es, ms[..|ms| - 1]) + IndexRecord(es[m].key, Off(es, m))
  }

  /** The byte offset of index entry j after the entry count. */
  function IndexOff(es: seq<Entry>, ms: seq<nat>, j: nat): nat
    requires j <= |ms| && forall j :: 0 <= j < |ms| ==> ms[j] < |es|
  {
    |EncodeIndex(es, ms[..j])|
  }

  lemma {:induction false} IndexStep(es: seq<Entry>, ms: seq<nat>, j: nat)
    requires j < |ms| && forall j :: 0 <= j < |ms| ==> ms[j] < |es|
    ensures IndexOff(es, ms, j + 1) == IndexOff(es, ms, j) + 10 + |es[ms[j]].key| <= |EncodeIndex(es, ms)|
    ensures EncodeIndex(es, ms)[IndexOff(es, ms, j)..IndexOff(es, ms, j + 1)]
        == IndexRecord(es[ms[j]].key, Off(es, ms[j]))
    decreases |ms|
  {
    hide Data, PutBE;
    var n := |ms| - 1;
    assert ms[..n + 1] == ms;
    if j < n {
      assert ms[..n][..j] == ms[..j] && ms[..n][..j + 1] == ms[..j + 1];
      IndexStep(es, ms[..n], j);
      hide Off;
    } else {
      assert ms[..j + 1][..j] == ms[..j];
    }
  }

  lemma IndexFields(b: Bytes, off: nat, key: Bytes, at: nat)
    requires |key| < 0x1_0000 && at < TWO64
    requires off + 10 + |key| <= |b| && b[off..off + 10 + |key|] == IndexRecord(key, at)
    ensures GetBE(b[off..off + 2]) == |key|
    ensures b[off + 2..off + 2 + |key|] == key
    ensures GetBE(b[off + 2 + |key|..off + 2 + |key| + 8]) == at
  {
    hide PutBE, GetBE;
    var r := b[off..off + 10 + |key|];
    var l, o := PutBE(|key|, 2), PutBE(at, 8);
    assert r == [] + l + (key + o) == l + key + o == (l + key) + o + [];
    Middle([], l, key + o);
    Middle(l, key, o);
    Middle(l + key, o, []);
    SubSlice(b, off, off + |r|, 0, 2);
    SubSlice(b, off, off + |r|, 2, 2 + |key|);
    SubSlice(b, off, off + |r|, 2 + |key|, |r|);
    GetPut16(|key|);
    GetPut64(at);
  }

  // -------------------------------------------------------------- whole file

  function Keys(es: seq<Entry>): (ks: seq<Bytes>)
    ensures |ks| == |es| && forall i :: 0 <= i < |es| ==> ks[i] == es[i].key
  {
    seq(|es|, i requires 0 <= i < |es| => es[i].key)
  }

  function Filter(shape: Shape, es: seq<Entry>): (bits: seq<Word>)
    requires shape.Valid()
    ensures |bits| == shape.Words()
  {
    AddAll(shape, Keys(es))
  }

  function IndexBlock(es: seq<Entry>): Bytes {
    PutBE(|Marks(es)|, 4) + EncodeIndex(es, Marks(es))
  }

  function Footer(indexOffset: nat, bloomOffset: nat): (f: Bytes)
    ensures |f| == FOOTER_SIZE
  {
    PutBE(indexOffset, 8) + PutBE(bloomOffset, 8) + PutBE(MAGIC, 4)
  }

  function File(shape: Shape, es: seq<Entry>): Bytes
    requires shape.Valid()
  {
    Data(es) + IndexBlock(es) + Encoded(shape.k, shape.m, Filter(shape, es))
    + Footer(|Data(es)|, |Data(es)| + |IndexBlock(es)|)
  }

  /** Lengths fit their fields and the file is small enough for 64-bit offsets. */
  ghost predicate Writable(shape: Shape, es: seq<Entry>) {
    shape.Valid() && AllFit(es) && |Marks(es)| < 0x1_0000_0000 && |File(shape, es)| < 0x8000_0000_0000_0000
  }

  const MAX_DATA := 0x800_0000_0000

  /** A block is at least 4096 bytes long, up to the record that opens the next one. */
  lemma {:induction false} MarksApart(es: seq<Entry>, j: nat)
    requires j + 1 < |Marks(es)|
    ensures Off(es, Marks(es)[j + 1]) - Off(es, Marks(es)[j]) >= 4096
  {
    hide Data, Off;
    var last := |es| - 1;
    var init := es[..last];
    var ms := Marks(init);
    MarksIncrease(es);
    OffPrefix(es, last, ms[j]);
    if j + 1 < |ms| {
      MarksApart(init, j);
      OffPrefix(es, last, ms[j + 1]);
    } else {
      assert Marks(es)[j + 1] == last;
      OffPositive(es, last);
    }
  }

  /** So there are few index entries. */
  lemma {:induction false} MarksSparse(es: seq<Entry>, j: nat)
    requires j < |Marks(es)|
    ensures j * BLOCK_SIZE <= Off(es, Marks(es)[j])
  {
    hide Data, Off, Marks;
    if j > 0 {
      MarksSparse(es, j - 1);
      MarksApart(es, j - 1);
    }
  }

  lemma OffPositive(es: seq<Entry>, n: nat)
    requires 0 < n <= |es|
    ensures Off(es, n) > 0
  {
    OffOrder(es, 0, n);
  }

  /** An index record is less than twice as long as the data record it points to. */
  lemma {:induction false} IndexSize(es: seq<Entry>, ms: seq<nat>, n: nat)
    requires n <= |es| && forall j :: 0 <= j < |ms| ==> ms[j] < n
    requires forall i, j :: 0 <= i < j < |ms| ==> ms[i] < ms[j]
    ensures |EncodeIndex(es, ms)| <= 2 * Off(es, n)
  {
    hide Data, PutBE, Off;
    if ms != [] {
      var m := ms[|ms| - 1];
      IndexSize(es, ms[..|ms| - 1], m);
      OffStep(es, m);
      if m + 1 < n {
        OffOrder(es, m + 1, n);
      }
    }
  }

  /**
   Records whose lengths fit their fields, less than 2^43 bytes of them in all, make a file within the format's
   limits.
   */
  lemma SmallIsWritable(shape: Shape, es: seq<Entry>)
    requires shape.Valid() && AllFit(es) && |Data(es)| < MAX_DATA
    ensures Writable(shape, es)
  {
    hide Data, Marks, Filter, AllFit, Off, PutBE;
    var ms := Marks(es);
    MarksIncrease(es);
    IndexSize(es, ms, |es|);
    WholeOff(es);
    if ms != [] {
      MarksSparse(es, |ms| - 1);
      OffOrder(es, ms[|ms| - 1], |es|);
    }
    FilterSize(shape, es);
  }

  lemma WholeOff(es: seq<Entry>)
    ensures Off(es, |es|) == |Data(es)|
  {
    assert es[..|es|] == es;
  }

  lemma FilterSize(shape: Shape, es: seq<Entry>)
    requires shape.Valid()
    ensures |Encoded(shape.k, shape.m, Filter(shape, es))| == 9 + 8 * shape.Words() <= 9 + TWO64 / 8
  {
  }

  lemma FooterFields(a: nat, b: nat)
    requires a < TWO64 && b < TWO64
    ensures var f := Footer(a, b); GetBE(f[0..8]) == a && GetBE(f[8..16]) == b && GetBE(f[16..20]) == MAGIC
  {
    hide PutBE, GetBE;
    var f := Footer(a, b);
    assert f[0..8] == PutBE(a, 8) && f[8..16] == PutBE(b, 8) && f[16..20] == PutBE(MAGIC, 4);
    GetPut64(a);
    GetPut64(b);
    GetPut32(MAGIC);
  }

  /** Every file ends with the bytes F0 E5 7D BB. */
  lemma FileMagic(shape: Shape, es: seq<Entry>)
    requires shape.Valid()
    ensures var f := File(shape, es);
            |f| >= 20 && f[|f| - 4..] == [0xF0, 0xE5, 0x7D, 0xBB]
  {
    hide Data, IndexBlock, Encoded, Filter;
    var d, x := |Data(es)|, |Data(es)| + |IndexBlock(es)|;
    var f, t := File(shape, es), Footer(d, x);
    assert f[|f| - 20..] == t && f[|f| - 4..] == t[16..];
    MagicBytes();
    hide PutBE;
  }

  lemma MagicBytes()
    ensures PutBE(MAGIC, 4) == [0xF0, 0xE5, 0x7D, 0xBB]
  {
    assert PutBE(0xF0, 1) == [0xF0];
    assert PutBE(0xF0E5, 2) == [0xF0, 0xE5];
    assert PutBE(0xF0E57D, 3) == [0xF0, 0xE5, 0x7D];
  }

  /** The four parts of a file, as offsets cut them out. */
  lemma FileParts(shape: Shape, es: seq<Entry>)
    requires Writable(shape, es)
    ensures var f := File(shape, es);
            var d, x := |Data(es)|, |Data(es)| + |IndexBlock(es)|;
            && |f| >= FOOTER_SIZE && x <= |f| - FOOTER_SIZE && |f| < TWO64
            && f[|f| - FOOTER_SIZE..] == Footer(d, x)
            && f[x..|f| - FOOTER_SIZE] == Encoded(shape.k, shape.m, Filter(shape, es))
            && f[d..x] == IndexBlock(es)
            && f[..d] == Data(es)
  {
    hide Data, IndexBlock, Encoded, Filter, PutBE, Footer, AllFit, Marks;
    var d, i, b, t := Data(es), IndexBlock(es), Encoded(shape.k, shape.m, Filter(shape, es)),
        Footer(|Data(es)|, |Data(es)| + |IndexBlock(es)|);
    Middle([], d, i + b + t);
    Middle(d, i, b + t);
    Middle(d + i, b, t);
    Middle(d + i + b, t, []);
    assert File(shape, es) == [] + d + (i + b + t) == d + i + (b + t) == (d + i) + b + t == (d + i + b) + t + [];
  }
}
