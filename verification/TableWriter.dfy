/**
 Writing an SSTable entry by entry: the loop FlushMemTable runs, and the three functions the
 compactor splits it into (internal/engine/sstable.go:41-148, compactor.go:184-272).
 */
module TableWriter {
  import opened ByteStrings
  import opened Entries
  import opened Bloom
  import opened TableFormat

  datatype IndexEntry = IndexEntry(key: Bytes, offset: nat)

  /** The index entries of a table. */
  function IndexOf(es: seq<Entry>): (ix: seq<IndexEntry>)
    ensures |ix| == |Marks(es)|
    ensures forall j :: 0 <= j < |ix| ==> ix[j] == IndexEntry(es[Marks(es)[j]].key, Off(es, Marks(es)[j]))
  {
    var ms := Marks(es);
    seq(|ms|, j requires 0 <= j < |ms| => IndexEntry(es[ms[j]].key, Off(es, ms[j])))
  }

  lemma IndexSnoc(es: seq<Entry>, e: Entry)
    ensures IndexOf(es + [e]) ==
            if |Data(es)| - LastMark(es, Marks(es)) >= BLOCK_SIZE || |Data(es)| == 0
            then IndexOf(es) + [IndexEntry(e.key, |Data(es)|)] else IndexOf(es)
  {
    MarksSnoc(es, e);
    hide Marks, Data, Off, LastMark;
    var all := es + [e];
    var ix, ix' := IndexOf(es), IndexOf(all);
    OffAtEnd(es, e);
    forall j | 0 <= j < |ix| ensures ix'[j] == ix[j] {
      OffPrefix(all, |es|, Marks(es)[j]);
      assert all[..|es|] == es;
    }
    assert ix'[..|ix|] == ix;
  }

  lemma OffAtEnd(es: seq<Entry>, e: Entry)
    ensures Off(es + [e], |es|) == |Data(es)|
  {
    assert (es + [e])[..|es|] == es;
  }

  lemma LastMarkSnoc(es: seq<Entry>, e: Entry)
    ensures LastMark(es + [e], Marks(es + [e])) ==
            if |Data(es)| - LastMark(es, Marks(es)) >= BLOCK_SIZE || |Data(es)| == 0 then |Data(es)|
            else LastMark(es, Marks(es))
  {
    MarksSnoc(es, e);
    hide Marks, Data;
    var all := es + [e];
    assert all[..|es|] == es;
    if Marks(es) != [] {
      OffPrefix(all, |es|, Marks(es)[|Marks(es)| - 1]);
    }
  }

  lemma FilterSnoc(shape: Shape, es: seq<Entry>, e: Entry)
    requires shape.Valid()
    ensures Filter(shape, es + [e]) == MarkKey(shape, Filter(shape, es), e.key, shape.k)
  {
    var ks := Keys(es + [e]);
    assert ks[..|ks| - 1] == Keys(es);
  }

  /** What the writer's variables hold after the entries `es`. */
  ghost predicate Wrote(bf: BloomFilter, es: seq<Entry>, out: Bytes, index: seq<IndexEntry>, current: nat, last: nat)
    reads bf, bf.bits
  {
    && bf.Valid() && bf.bits[..] == Filter(bf.TheShape(), es)
    && out == Data(es) && current == |Data(es)|
    && index == IndexOf(es) && last == LastMark(es, Marks(es))
  }

  /** initSSTableWriter. */
  method Init(shape: Shape) returns (bf: BloomFilter, out: Bytes, index: seq<IndexEntry>, current: nat, last: nat)
    requires shape.Valid()
    ensures fresh(bf) && fresh(bf.bits) && bf.TheShape() == shape && Wrote(bf, [], out, index, current, last)
  {
    bf := new BloomFilter.Empty(shape);
    out, index, current, last := [], [], 0, 0;
    assert Keys([]) == [];
  }

  /** writeSSTableEntry. */
  method WriteEntry(bf: BloomFilter, out: Bytes, index: seq<IndexEntry>, current: nat, last: nat, e: Entry,
                    ghost es: seq<Entry>)
    returns (out': Bytes, index': seq<IndexEntry>, current': nat, last': nat)
    requires Wrote(bf, es, out, index, current, last)
    modifies bf.bits
    ensures bf.bits == old(bf.bits) && Wrote(bf, es + [e], out', index', current', last')
  {
    FilterSnoc(bf.TheShape(), es, e);
    IndexSnoc(es, e);
    LastMarkSnoc(es, e);
    DataSnoc(es, e);
    hide Filter, IndexOf, LastMark, Marks, Data, PutBE, MarkKey;
    bf.Add(e.key);
    index', last' := index, last;
    if current - last >= BLOCK_SIZE || current == 0 {
      index' := index + [IndexEntry(e.key, current)];
      last' := current;
    }
    var header := [e.op] + PutBE(|e.key|, 2) + PutBE(|e.val|, 4);
    out', current' := out + header, current + |header|;
    out', current' := out' + e.key, current' + |e.key|;
    out', current' := out' + e.val, current' + |e.val|;
    assert out' == out + (header + e.key + e.val);
  }

  /** finalizeSSTable. */
  method Finalize(bf: BloomFilter, out: Bytes, index: seq<IndexEntry>, current: nat, last: nat, ghost es: seq<Entry>)
    returns (file: Bytes)
    requires Wrote(bf, es, out, index, current, last)
    ensures file == File(bf.TheShape(), es)
  {
    hide Filter, LastMark, Marks, Data, PutBE, MarkKey, Encoded;
    var indexOffset := current;
    file := out + PutBE(|index|, 4);
    var offset := current + 4;
    var i := 0;
    ghost var ms := Marks(es);
    EmptyIndexBytes(es);
    while i < |index|
      invariant i <= |index| && file == out + PutBE(|index|, 4) + EncodeIndex(es, ms[..i]) && offset == |file|
    {
      assert ms[..i + 1][..i] == ms[..i];
      var entry := index[i];
      var header := PutBE(|entry.key|, 2);
      var at := PutBE(entry.offset, 8);
      ghost var before := file;
      file := file + header;
      file := file + entry.key;
      file := file + at;
      assert file == before + IndexRecord(entry.key, entry.offset);
      offset := offset + |header| + |entry.key| + |at|;
      i := i + 1;
    }
    assert ms[..|ms|] == ms;
    var bloomOffset := offset;
    assert file == Data(es) + IndexBlock(es);
    var bloom := bf.Encode();
    file := file + bloom;
    file := file + Footer(indexOffset, bloomOffset);
  }

  lemma EmptyIndexBytes(es: seq<Entry>)
    ensures EncodeIndex(es, Marks(es)[..0]) == []
  {
  }
}
