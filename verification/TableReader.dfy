/** Point lookup in an SSTable file (ReadSSTable, internal/engine/sstable.go:150-280). */
module TableReader {
  import opened Options
  import opened ByteStrings
  import opened Entries
  import opened Bloom
  import opened TableFormat

  /**
   The errors ReadSSTable returns; OutOfBounds stands for the reads past the end and slice panics of a damaged
   file.
   */
  datatype ReadError = TooSmall | BadMagic | BadBloom | BadIndex | OutOfBounds

  // ------------------------------------------------------- what a lookup says

  /** The key falls into the first block, or before it. */
  ghost predicate InFirstBlock(es: seq<Entry>, k: Bytes) {
    |Marks(es)| < 2 || Less(k, es[Marks(es)[1]].key)
  }

  /**
   The 16-bit sum 6 + firstKeyLen wraps for a first key of more than 65529 bytes, and the slice that
   checks the first key then panics.
   */
  ghost predicate FirstKeyPanics(es: seq<Entry>, k: Bytes) {
    es != [] && |es[0].key| > 65529 && InFirstBlock(es, k)
  }

  ghost function LookupResult(shape: Shape, es: seq<Entry>, k: Bytes): Result<Option<Bytes>, ReadError>
    requires shape.Valid()
  {
    if !MayContain(shape, Filter(shape, es), k) then Ok(None)
    else if FirstKeyPanics(es, k) then Err(OutOfBounds)
    else Ok(ValueAt(es, k))
  }

  /** The filter hides no key: where the index allows it, a lookup answers with the sorted list's own answer. */
  lemma LookupIsFind(shape: Shape, es: seq<Entry>, k: Bytes)
    requires Writable(shape, es) && (es != [] ==> |es[0].key| <= 65529)
    ensures LookupResult(shape, es, k) == Ok(ValueAt(es, k))
  {
    if !MayContain(shape, Filter(shape, es), k) {
      AbsentFromFilter(shape, es, k);
    }
  }

  lemma AbsentFromFilter(shape: Shape, es: seq<Entry>, k: Bytes)
    requires shape.Valid() && !MayContain(shape, Filter(shape, es), k)
    ensures Find(es, k) == None
  {
    FindNone(es, k);
    if Find(es, k) != None {
      var i :| 0 <= i < |es| && es[i].key == k;
      assert Keys(es)[i] == k;
      NoFalseNegatives(shape, Keys(es), k);
    }
  }

  /** A table answers every lookup rightly if and only if its first key has at most 65529 bytes. */
  lemma EveryLookupRight(shape: Shape, es: seq<Entry>)
    requires Writable(shape, es) && Sorted(es)
    ensures (forall k: Bytes :: LookupResult(shape, es, k) == Ok(ValueAt(es, k))) <==>
        (es != [] ==> |es[0].key| <= 65529)
  {
    if es != [] ==> |es[0].key| <= 65529 {
      forall k: Bytes ensures LookupResult(shape, es, k) == Ok(ValueAt(es, k)) {
        if MayContain(shape, Filter(shape, es), k) {
        } else {
          AbsentFromFilter(shape, es, k);
        }
      }
    } else {
      var k := es[0].key;
      assert Keys(es)[0] == k;
      NoFalseNegatives(shape, Keys(es), k);
      MarksIncrease(es);
      assert InFirstBlock(es, k);
      assert LookupResult(shape, es, k) == Err(OutOfBounds);
    }
  }

  // --------------------------------------------------------- choosing a block

  ghost predicate ChosenBlock(es: seq<Entry>, k: Bytes, j: nat) {
    && j <= |Marks(es)|
    && (forall i :: 0 <= i < j ==> AtMost(es[Marks(es)[i]].key, k))
    && (j < |Marks(es)| ==> Less(k, es[Marks(es)[j]].key))
  }

  ghost function BlockStart(es: seq<Entry>, j: nat): nat
    requires j <= |Marks(es)|
  {
    if j == 0 then 0 else Off(es, Marks(es)[j - 1])
  }

  ghost function BlockStop(es: seq<Entry>, j: nat): nat
    requires j <= |Marks(es)|
  {
    if j < |Marks(es)| then Off(es, Marks(es)[j]) else |Data(es)|
  }

  /** Before the first block there is no entry for the key. */
  lemma BeforeFirst(es: seq<Entry>, k: Bytes)
    requires Sorted(es) && es != [] && Less(k, es[0].key)
    ensures Find(es, k) == None
  {
    forall i | 0 <= i < |es| ensures es[i].key != k {
      if i > 0 {
        LessTransitive(k, es[0].key, es[i].key);
      }
      LessIrreflexive(k);
    }
    FindNone(es, k);
  }

  lemma OnlyInside(es: seq<Entry>, k: Bytes, p: nat, q: nat)
    requires Sorted(es) && p < q <= |es| && AtMost(es[p].key, k) && (q < |es| ==> Less(k, es[q].key))
    ensures forall i :: 0 <= i < p ==> es[i].key != k
    ensures forall i :: q <= i < |es| ==> es[i].key != k
  {
    forall i | 0 <= i < p ensures es[i].key != k {
      if es[p].key != k {
        LessTransitive(es[i].key, es[p].key, k);
      }
      LessIrreflexive(k);
    }
    forall i | q <= i < |es| ensures es[i].key != k {
      if q < i {
        LessTransitive(k, es[q].key, es[i].key);
      }
      LessIrreflexive(k);
    }
  }

  lemma FindInside(es: seq<Entry>, k: Bytes, p: nat, q: nat)
    requires p <= q <= |es|
    requires forall i :: 0 <= i < p ==> es[i].key != k
    requires forall i :: q <= i < |es| ==> es[i].key != k
    ensures Find(es, k) == Find(es[p..q], k)
  {
    assert es == es[..p] + es[p..q] + es[q..];
    FindConcat(es[..p], es[p..q], k);
    FindConcat(es[..p] + es[p..q], es[q..], k);
    FindNone(es[..p], k);
    FindNone(es[q..], k);
  }

  /** If the key is anywhere, it is in the chosen block. */
  lemma InChosenBlock(es: seq<Entry>, k: Bytes, j: nat)
    requires Sorted(es) && ChosenBlock(es, k, j) && j > 0
    ensures var p, q := Marks(es)[j - 1], BlockEnd(es, j - 1);
            p < q <= |es| && Find(es, k) == Find(es[p..q], k) && Sorted(es[p..q])
  {
    hide Less, Off, Find, Marks;
    BlockBound(es, j - 1);
    var p, q := Marks(es)[j - 1], BlockEnd(es, j - 1);
    OnlyInside(es, k, p, q);
    FindInside(es, k, p, q);
  }

  // ----------------------------------------------------------------- methods

  /** The scan of the sparse index: the last block whose first key is not above the search key. */
  method ChooseBlock(index: Bytes, indexOffset: nat, k: Bytes, ghost es: seq<Entry>)
    returns (start: nat, stop: nat, ghost j: nat)
    requires |index| >= 4
    ensures index == IndexBlock(es) && indexOffset == |Data(es)|
            && AllFit(es) && |Data(es)| < TWO64 && |Marks(es)| < 0x1_0000_0000 ==>
              ChosenBlock(es, k, j) && start == BlockStart(es, j) && stop == BlockStop(es, j)
  {
    ghost var ok := index == IndexBlock(es) && indexOffset == |Data(es)| && AllFit(es) && |Data(es)| < TWO64
        && |Marks(es)| < 0x1_0000_0000;
    ghost var ms := Marks(es);
    hide Marks, Data, PutBE, GetBE, Less, EncodeIndex, IndexBlock, AllFit;
    if ok {
      assert IndexOff(es, ms, 0) == 0 by {
        EmptyIndex(es, ms);
      }
    }
    var n := GetBE(index[..4]);
    if ok {
      CountField(es);
    }
    var offset, i := 4, 0;
    start, stop, j := 0, indexOffset, 0;
    while i < n
      invariant i <= n && 4 <= offset
      invariant ok ==> n == |ms| && i <= |ms| && j == i && offset == 4 + IndexOff(es, ms, i)
      invariant ok ==> stop == |Data(es)| && start == BlockStart(es, i)
      invariant ok ==> forall l :: 0 <= l < i ==> AtMost(es[ms[l]].key, k)
    {
      if ok {
        IndexEntryAt(es, i);
      }
      if offset + 10 > |index| {
        break;
      }
      var keyLen := GetBE(index[offset..offset + 2]);
      if offset + 2 + keyLen + 8 > |index| {
        break;
      }
      var key := index[offset + 2..offset + 2 + keyLen];
      var at := GetBE(index[offset + 2 + keyLen..offset + 2 + keyLen + 8]);
      if key == k || Less(key, k) {
        start := at;
      } else {
        LessTotal(key, k);
        stop := at;
        break;
      }
      offset, i, j := offset + 2 + keyLen + 8, i + 1, i + 1;
    }
  }

  lemma EmptyIndex(es: seq<Entry>, ms: seq<nat>)
    requires forall j :: 0 <= j < |ms| ==> ms[j] < |es|
    ensures IndexOff(es, ms, 0) == 0
  {
  }

  lemma CountField(es: seq<Entry>)
    requires |Marks(es)| < 0x1_0000_0000
    ensures GetBE(IndexBlock(es)[..4]) == |Marks(es)|
  {
    hide PutBE, GetBE, Marks, EncodeIndex;
    assert IndexBlock(es)[..4] == PutBE(|Marks(es)|, 4);
    GetPut32(|Marks(es)|);
  }

  lemma IndexEntryAt(es: seq<Entry>, i: nat)
    requires AllFit(es) && |Data(es)| < TWO64 && i < |Marks(es)|
    ensures var ms, b := Marks(es), IndexBlock(es);
            var off, key := 4 + IndexOff(es, ms, i), es[ms[i]].key;
            && off + 10 + |key| <= |b| && off + 10 + |key| == 4 + IndexOff(es, ms, i + 1)
            && GetBE(b[off..off + 2]) == |key| && b[off + 2..off + 2 + |key|] == key
            && GetBE(b[off + 2 + |key|..off + 2 + |key| + 8]) == Off(es, ms[i])
  {
    hide PutBE, GetBE, Data, Marks, AllFit;
    var ms, b := Marks(es), IndexBlock(es);
    var key := es[ms[i]].key;
    var off := 4 + IndexOff(es, ms, i);
    IndexStep(es, ms, i);
    DataSlice(es, ms[i], |es|);
    SubSlice(b, 4, |b|, IndexOff(es, ms, i), IndexOff(es, ms, i + 1));
    assert b[4..|b|] == EncodeIndex(es, ms);
    assert Fits(es[ms[i]]) by {
      FitsAt(es, ms[i]);
    }
    IndexFields(b, off, key, Off(es, ms[i]));
  }

  lemma FitsAt(es: seq<Entry>, i: nat)
    requires AllFit(es) && i < |es|
    ensures Fits(es[i])
  {
  }

  /** The linear scan of a data block. */
  method ScanBlock(block: Bytes, k: Bytes, ghost es: seq<Entry>) returns (r: Option<Bytes>)
    ensures block == Data(es) && Sorted(es) && AllFit(es) ==> r == ValueAt(es, k)
  {
    ghost var ok := block == Data(es) && Sorted(es) && AllFit(es);
    hide Data, PutBE, GetBE, Less, Find, AllFit, Sorted;
    ghost var i := 0;
    var off := 0;
    if ok {
      assert es[0..] == es;
      EmptyPrefix(es);
    }
    while off + 7 <= |block|
      invariant off <= |block|
      invariant ok ==> i <= |es| && off == Off(es, i) && Find(es, k) == Find(es[i..], k)
    {
      if ok {
        ScanStep(es, k, i);
      }
      var kLen, vLen := GetBE(block[off + 1..off + 3]), GetBE(block[off + 3..off + 7]);
      if off + 7 + kLen + vLen > |block| {
        break;
      }
      var key, val := block[off + 7..off + 7 + kLen], block[off + 7 + kLen..off + 7 + kLen + vLen];
      if key == k {
        return Some(val);
      } else if !Less(key, k) {
        LessTotal(key, k);
        if ok {
          EarlyExit(es, k, i);
        }
        return None;
      }
      off := off + 7 + kLen + vLen;
      i := i + 1;
    }
    if ok {
      ScanEnd(es, k, i);
    }
    r := None;
  }

  lemma EmptyPrefix(es: seq<Entry>)
    ensures Off(es, 0) == 0
  {
  }

  lemma EarlyExit(es: seq<Entry>, k: Bytes, i: nat)
    requires Sorted(es) && i < |es| && Less(k, es[i].key)
    ensures Find(es[i..], k) == None
  {
    BeforeFirst(es[i..], k);
  }

  lemma ScanStep(es: seq<Entry>, k: Bytes, i: nat)
    requires AllFit(es) && i <= |es| && Off(es, i) + 7 <= |Data(es)|
    ensures i < |es|
    ensures var b, off, e := Data(es), Off(es, i), es[i];
            && off + 7 + |e.key| + |e.val| == Off(es, i + 1) <= |b|
            && GetBE(b[off + 1..off + 3]) == |e.key| && GetBE(b[off + 3..off + 7]) == |e.val|
            && b[off + 7..off + 7 + |e.key|] == e.key
            && b[off + 7 + |e.key|..off + 7 + |e.key| + |e.val|] == e.val
    ensures Find(es[i..], k) == if es[i].key == k then Some(es[i]) else Find(es[i + 1..], k)
  {
    hide PutBE, GetBE, Data;
    assert es[..|es|] == es;
    assert i < |es|;
    OffStep(es, i);
    FitsAt(es, i);
    RecordFields(Data(es), Off(es, i), es[i]);
    assert es[i..][1..] == es[i + 1..];
  }

  lemma ScanEnd(es: seq<Entry>, k: Bytes, i: nat)
    requires i <= |es| && Off(es, i) + 7 > |Data(es)|
    ensures Find(es[i..], k) == None
  {
    if i < |es| {
      OffStep(es, i);
    }
  }

  /** The lengths and offsets a lookup relies on when the file is a table of `es`. */
  ghost predicate IsTable(fnv: Hash, file: Bytes, shape: Shape, es: seq<Entry>) {
    && shape.fnv == fnv && Writable(shape, es) && Sorted(es) && file == File(shape, es)
  }

  lemma TableParts(fnv: Hash, file: Bytes, shape: Shape, es: seq<Entry>)
    requires IsTable(fnv, file, shape, es)
    ensures var d, x, n := |Data(es)|, |Data(es)| + |IndexBlock(es)|, |file|;
            && FOOTER_SIZE <= n && x <= n - FOOTER_SIZE && n < TWO64
            && GetBE(file[n - 20..n - 12]) == d && GetBE(file[n - 12..n - 4]) == x && GetBE(file[n - 4..]) == MAGIC
            && file[x..n - FOOTER_SIZE] == Encoded(shape.k, shape.m, Filter(shape, es))
            && file[d..x] == IndexBlock(es) && |IndexBlock(es)| >= 4
            && file[..d] == Data(es)
            && AllFit(es) && d < TWO64 && |Marks(es)| < 0x1_0000_0000 && shape.Valid() && shape.fnv == fnv
  {
    hide PutBE, GetBE, Data, Marks, EncodeIndex, Filter, Encoded, Less, Footer;
    FileParts(shape, es);
    var d, x, n := |Data(es)|, |Data(es)| + |IndexBlock(es)|, |file|;
    FooterFields(d, x);
    var f := file[n - FOOTER_SIZE..];
    SubSlice(file, n - FOOTER_SIZE, n, 0, 8);
    SubSlice(file, n - FOOTER_SIZE, n, 8, 16);
    SubSlice(file, n - FOOTER_SIZE, n, 16, 20);
    assert file[n - FOOTER_SIZE..n] == f && file[n - 4..n] == file[n - 4..];
  }

  /** Reading the filter of a table gives the table's filter. */
  lemma TableFilter(shape: Shape, es: seq<Entry>, data: Bytes, k: nat, m: Word, words: seq<Word>)
    requires shape.Valid() && data == Encoded(shape.k, shape.m, Filter(shape, es))
    requires Parses(data, k, m, words) && |words| == WordCount(m)
    ensures k == shape.k && m == shape.m && words == Filter(shape, es)
  {
    DecodeOfEncode(shape, Filter(shape, es), k, m, words);
  }

  lemma FilterDecodes(shape: Shape, es: seq<Entry>, data: Bytes)
    requires shape.Valid() && data == Encoded(shape.k, shape.m, Filter(shape, es))
    ensures |data| >= 9 && GetBE(data[1..9]) < TWO64 && |data| >= 9 + 8 * WordCount(GetBE(data[1..9]))
  {
    hide GetBE, PutBE, Encoded, Filter;
    EncodedParses(shape.k, shape.m, Filter(shape, es));
  }

  /** Where the chosen block lies in the data, and what it holds. */
  lemma BlockBytes(es: seq<Entry>, k: Bytes, j: nat)
    requires Sorted(es) && AllFit(es) && ChosenBlock(es, k, j) && (j > 0 || es == [])
    ensures BlockStart(es, j) <= BlockStop(es, j) <= |Data(es)|
    ensures var p, q := if j == 0 then 0 else Marks(es)[j - 1], if j == 0 then 0 else BlockEnd(es, j - 1);
            && p <= q <= |es| && Data(es)[BlockStart(es, j)..BlockStop(es, j)] == Data(es[p..q])
            && Sorted(es[p..q]) && AllFit(es[p..q]) && Find(es, k) == Find(es[p..q], k)
  {
    if j > 0 {
      InChosenBlock(es, k, j);
      BlockAt(es, j);
    }
  }

  lemma BlockAt(es: seq<Entry>, j: nat)
    requires 0 < j <= |Marks(es)|
    ensures var p, q := Marks(es)[j - 1], BlockEnd(es, j - 1);
            && p < q <= |es|
            && BlockStart(es, j) == Off(es, p) && BlockStop(es, j) == Off(es, q)
            && Off(es, p) <= Off(es, q) <= |Data(es)| && Data(es)[Off(es, p)..Off(es, q)] == Data(es[p..q])
  {
    hide Data, Marks;
    BlockBound(es, j - 1);
    assert es[..|es|] == es;
    DataSlice(es, Marks(es)[j - 1], BlockEnd(es, j - 1));
  }

  lemma MarkOffsets(es: seq<Entry>)
    ensures es == [] <==> Marks(es) == []
    ensures Marks(es) != [] ==> Marks(es)[0] == 0
    ensures Marks(es) != [] ==> Off(es, 0) == 0
    ensures forall i :: 0 < i < |Marks(es)| ==> Off(es, Marks(es)[i]) > 0
  {
    MarksIncrease(es);
    EmptyPrefix(es);
    forall i | 0 < i < |Marks(es)| ensures Off(es, Marks(es)[i]) > 0 {
      OffOrder(es, 0, Marks(es)[i]);
    }
  }

  /** The chosen block starts at offset zero exactly when the key falls into the first block. */
  lemma FirstBlockOffset(es: seq<Entry>, k: Bytes, j: nat)
    requires Sorted(es) && ChosenBlock(es, k, j)
    ensures es == [] <==> Marks(es) == []
    ensures j <= |Marks(es)| && (es == [] ==> j == 0)
    ensures BlockStart(es, j) == 0 <==> j <= 1
    ensures j <= 1 <==> InFirstBlock(es, k)
    ensures es != [] ==> (j == 0 <==> Less(k, es[0].key))
  {
    hide Data, Less, Off, Marks;
    MarkOffsets(es);
    if j == 0 && |Marks(es)| > 1 {
      MarksIncrease(es);
      LessTransitive(k, es[0].key, es[Marks(es)[1]].key);
    }
    if j > 1 {
      NotBoth(es[Marks(es)[1]].key, k);
    }
    if j > 0 {
      NotBoth(es[Marks(es)[0]].key, k);
    }
  }

  lemma NotBoth(a: Bytes, k: Bytes)
    requires AtMost(a, k)
    ensures !Less(k, a)
  {
    LessIrreflexive(a);
    if Less(a, k) {
      LessAsymmetric(a, k);
    }
  }

  /** What is left of LookupResult once the filter has let the key pass. */
  ghost function SearchResult(es: seq<Entry>, k: Bytes): Result<Option<Bytes>, ReadError> {
    if FirstKeyPanics(es, k) then Err(OutOfBounds) else Ok(ValueAt(es, k))
  }

  /** The parts of a table a search reads. */
  ghost predicate SearchParts(file: Bytes, indexOffset: nat, index: Bytes, es: seq<Entry>) {
    && index == IndexBlock(es) && indexOffset == |Data(es)| && AllFit(es) && Sorted(es)
    && |Data(es)| < TWO64 && |Marks(es)| < 0x1_0000_0000
    && indexOffset <= |file| && file[..indexOffset] == Data(es)
  }

  /** The check of the table's first key, made when the chosen block is the first one; None lets the search go on. */
  method CheckFirstKey(index: Bytes, start: nat, k: Bytes, ghost es: seq<Entry>, ghost j: nat)
    returns (r: Option<Result<Option<Bytes>, ReadError>>)
    requires |index| >= 4
    ensures index == IndexBlock(es) && AllFit(es) && Sorted(es) && |Data(es)| < TWO64 && |Marks(es)| < 0x1_0000_0000
            && ChosenBlock(es, k, j) && start == BlockStart(es, j)
            ==> if FirstKeyPanics(es, k) then r == Some(Err(OutOfBounds))
                else if es != [] && j == 0 then r == Some(Ok(None)) && Find(es, k) == None
                else r == None
  {
    ghost var ok := index == IndexBlock(es) && AllFit(es) && Sorted(es) && |Data(es)| < TWO64
        && |Marks(es)| < 0x1_0000_0000
      && ChosenBlock(es, k, j) && start == BlockStart(es, j);
    hide PutBE, GetBE, Data, Marks, EncodeIndex, IndexBlock, Less, Find, AllFit, Sorted, ChosenBlock, BlockStart,
        InFirstBlock;
    if ok {
      CountField(es);
      FirstBlockOffset(es, k, j);
      if es != [] {
        FirstIndexKey(es);
        if j == 0 {
          BeforeFirst(es, k);
        }
      }
    }
    if start == 0 && GetBE(index[..4]) > 0 {
      if |index| < 6 {
        return Some(Err(OutOfBounds));
      }
      var firstKeyLen := GetBE(index[4..6]);
      Wrap16(firstKeyLen);
      var end := (6 + firstKeyLen) % 0x1_0000;
      if end < 6 || end > |index| {
        return Some(Err(OutOfBounds));
      }
      if Less(k, index[6..end]) {
        return Some(Ok(None));
      }
    }
    r := None;
  }

  lemma Wrap16(n: nat)
    ensures n <= 65529 ==> (6 + n) % 0x1_0000 == 6 + n
    ensures 65529 < n < 0x1_0000 ==> (6 + n) % 0x1_0000 < 6
  {
  }

  /** Index, block choice, first-key check and scan, on the parts of the file before the filter. */
  method Search(file: Bytes, indexOffset: nat, index: Bytes, k: Bytes, ghost es: seq<Entry>)
    returns (r: Result<Option<Bytes>, ReadError>)
    requires |index| >= 4
    ensures SearchParts(file, indexOffset, index, es) ==> r == SearchResult(es, k)
  {
    ghost var ok := SearchParts(file, indexOffset, index, es);
    hide PutBE, GetBE, Data, Marks, EncodeIndex, IndexBlock, Less, Find, AllFit, Sorted, ChosenBlock, BlockStart,
        BlockStop, FirstKeyPanics, BlockEnd;
    var start, stop;
    ghost var j;
    start, stop, j := ChooseBlock(index, indexOffset, k, es);
    var early := CheckFirstKey(index, start, k, es, j);
    if early.Some? {
      return early.value;
    }
    ghost var block := [];
    if ok {
      FirstBlockOffset(es, k, j);
      BlockBytes(es, k, j);
      block := es[if j == 0 then 0 else Marks(es)[j - 1]..if j == 0 then 0 else BlockEnd(es, j - 1)];
      SubSlice(file, 0, indexOffset, start, stop);
      assert file[0..indexOffset] == file[..indexOffset];
    }
    if start > stop || stop > |file| {
      return Err(OutOfBounds);
    }
    var found := ScanBlock(file[start..stop], k, block);
    r := Ok(found);
  }

  /** The first index entry is the table's first key. */
  lemma FirstIndexKey(es: seq<Entry>)
    requires AllFit(es) && |Data(es)| < TWO64 && Marks(es) != []
    ensures es != [] && |es[0].key| < 0x1_0000 && |IndexBlock(es)| >= 6 + |es[0].key|
    ensures GetBE(IndexBlock(es)[4..6]) == |es[0].key| && IndexBlock(es)[6..6 + |es[0].key|] == es[0].key
  {
    MarkOffsets(es);
    hide Data, Marks, PutBE, GetBE, IndexBlock;
    EmptyIndex(es, Marks(es));
    IndexEntryAt(es, 0);
    FitsAt(es, 0);
  }

  /** Footer and filter; None means the filter lets the key pass, and then the two offsets are in order. */
  method CheckFilter(fnv: Hash, file: Bytes, k: Bytes, ghost shape: Shape, ghost es: seq<Entry>)
    returns (r: Option<Result<Option<Bytes>, ReadError>>, indexOffset: nat, bloomOffset: nat)
    ensures r == None ==> bloomOffset <= |file|
    ensures |file| < FOOTER_SIZE ==> r == Some(Err(TooSmall))
    ensures |file| >= FOOTER_SIZE && GetBE(file[|file| - 4..]) != MAGIC ==> r == Some(Err(BadMagic))
    ensures IsTable(fnv, file, shape, es) ==>
              if MayContain(shape, Filter(shape, es), k)
              then r == None && indexOffset == |Data(es)| && bloomOffset == |Data(es)| + |IndexBlock(es)|
              else r == Some(Ok(None))
  {
    hide PutBE, GetBE, Data, IndexBlock, Encoded, Filter, MayContain, Parses, IsTable, AllFit, Marks;
    ghost var ok := IsTable(fnv, file, shape, es);
    if ok {
      TableParts(fnv, file, shape, es);
    }
    indexOffset, bloomOffset := 0, 0;
    var n := |file|;
    if n < FOOTER_SIZE {
      return Some(Err(TooSmall)), 0, 0;
    }
    if GetBE(file[n - 4..]) != MAGIC {
      return Some(Err(BadMagic)), 0, 0;
    }
    indexOffset, bloomOffset := GetBE(file[n - 20..n - 12]), GetBE(file[n - 12..n - 4]);
    if bloomOffset > n - FOOTER_SIZE {
      return Some(Err(OutOfBounds)), 0, 0;
    }
    var bloomData := file[bloomOffset..n - FOOTER_SIZE];
    if ok {
      FilterDecodes(shape, es, bloomData);
    }
    var decoded := BloomFilter.Decode(fnv, bloomData);
    if decoded.Err? {
      return Some(Err(BadBloom)), 0, 0;
    }
    var bf := decoded.value;
    if ok {
      TableFilter(shape, es, bloomData, bf.k, bf.m, bf.bits[..]);
    }
    if !Shape(fnv, bf.m, bf.k).Valid() {
      return Some(Err(OutOfBounds)), 0, 0;
    }
    var may := bf.Contains(k);
    r := if may then None else Some(Ok(None));
  }

  /**
   ReadSSTable. On a table of `es` it returns LookupResult, so by LookupIsFind the key's value if and only
   if the table has the key; a file without footer or magic number is refused.
   */
  method ReadSSTable(fnv: Hash, file: Bytes, k: Bytes, ghost shape: Shape, ghost es: seq<Entry>)
    returns (r: Result<Option<Bytes>, ReadError>)
    ensures |file| < FOOTER_SIZE ==> r == Err(TooSmall)
    ensures |file| >= FOOTER_SIZE && GetBE(file[|file| - 4..]) != MAGIC ==> r == Err(BadMagic)
    ensures IsTable(fnv, file, shape, es) ==> r == LookupResult(shape, es, k)
  {
    hide PutBE, GetBE, Data, IndexBlock, IsTable, Filter, MayContain, SearchResult, LookupResult;
    var early, indexOffset, bloomOffset := CheckFilter(fnv, file, k, shape, es);
    ghost var ok := IsTable(fnv, file, shape, es);
    if ok {
      LookupCases(fnv, file, shape, es, k);
    }
    if early.Some? {
      return early.value;
    }
    if indexOffset > bloomOffset {
      return Err(OutOfBounds);
    }
    var index := file[indexOffset..bloomOffset];
    if |index| < 4 {
      return Err(BadIndex);
    }
    r := Search(file, indexOffset, index, k, es);
  }

  lemma LookupCases(fnv: Hash, file: Bytes, shape: Shape, es: seq<Entry>, k: Bytes)
    requires IsTable(fnv, file, shape, es)
    ensures LookupResult(shape, es, k) == if MayContain(shape, Filter(shape, es), k) then SearchResult(es, k)
        else Ok(None)
    ensures |IndexBlock(es)| >= 4 && |Data(es)| + |IndexBlock(es)| <= |file|
    ensures SearchParts(file, |Data(es)|, file[|Data(es)|..|Data(es)| + |IndexBlock(es)|], es)
  {
    hide PutBE, GetBE, Data, IndexBlock, Filter, MayContain, FirstKeyPanics, Marks, File, Encoded, Writable, ValueAt;
    TableParts(fnv, file, shape, es);
  }
}
