/**
 What the compactor's output means for the layered view: the step machine's compaction step and the merge loop
 agree.
 */
module CompactionUnion {
  import opened Options
  import opened ByteStrings
  import opened Layers
  import opened Entries
  import Compactor
  import Engine
  import Shots

  function Maps(tables: seq<seq<Entry>>): (ms: seq<Contents>)
    ensures |ms| == |tables| && forall i :: 0 <= i < |ms| ==> ms[i] == ToMap(tables[i])
  {
    seq(|tables|, i requires 0 <= i < |tables| => ToMap(tables[i]))
  }

  function ValOf(e: Option<Entry>): Option<Bytes> {
    if e.Some? then Some(e.value.val) else None
  }

  lemma {:induction false} NewestIsMerged(tables: seq<seq<Entry>>, files: seq<Contents>, batch: seq<nat>, k: Bytes)
    requires |batch| == |tables|
    requires forall i :: 0 <= i < |batch| ==> batch[i] < |files| && files[batch[i]] == ToMap(tables[i])
    ensures At(Engine.MergedFiles(files, batch), k) == ValOf(Compactor.NewestEntry(tables, k))
  {
    if batch != [] {
      var n := |batch| - 1;
      NewestIsMerged(tables[..n], files, batch[..n], k);
      ToMapAt(tables[n], k);
    }
  }

  /** The file CompactL0toL1 writes for the files of a batch is the file the step machine's CompactWrite step adds. */
  lemma CompactionIsUnion(tables: seq<seq<Entry>>, out: seq<Entry>, files: seq<Contents>, batch: seq<nat>)
    requires Compactor.Compacted(tables, out) && |batch| == |tables|
    requires forall i :: 0 <= i < |batch| ==> batch[i] < |files| && files[batch[i]] == ToMap(tables[i])
    ensures ToMap(out) == Engine.CompactedFile(files, batch)
  {
    var a, b := ToMap(out), Engine.CompactedFile(files, batch);
    forall k: Bytes ensures At(a, k) == At(b, k) {
      ToMapAt(out, k);
      NewestIsMerged(tables, files, batch, k);
      assert Find(out, k) == if k == [] then None else Compactor.NewestEntry(tables, k);
    }
    MapsEqual(a, b);
  }

  /** The inputs alone decide the output: neither the heap's layout nor the order of its ties shows in the file. */
  lemma CompactionUnique(tables: seq<seq<Entry>>, a: seq<Entry>, b: seq<Entry>)
    requires Compactor.Compacted(tables, a) && Compactor.Compacted(tables, b)
    ensures a == b
  {
    SortedUnique(a, b);
  }

  lemma {:induction false} NewestIsLayered(tables: seq<seq<Entry>>, k: Bytes)
    ensures Newest(Maps(tables), k) == ValOf(Compactor.NewestEntry(tables, k))
  {
    if tables != [] {
      var n := |tables| - 1;
      assert Maps(tables)[..n] == Maps(tables[..n]);
      NewestIsLayered(tables[..n], k);
      ToMapAt(tables[n], k);
    }
  }

  /** The output as a map. */
  lemma CompactedIsUnion(tables: seq<seq<Entry>>, out: seq<Entry>)
    requires Compactor.Compacted(tables, out)
    ensures ToMap(out) == Shots.Union(Maps(tables)) - {[]}
  {
    var a, b := ToMap(out), Shots.Union(Maps(tables)) - {[]};
    forall k: Bytes ensures At(a, k) == At(b, k) {
      ToMapAt(out, k);
      NewestIsLayered(tables, k);
      Shots.UnionAt(Maps(tables), k);
      assert Find(out, k) == if k == [] then None else Compactor.NewestEntry(tables, k);
    }
    MapsEqual(a, b);
  }

  /**
   Replacing the batch by the output keeps what a reader finds for k exactly when k is not the empty key or no
   input has it.
   */
  lemma CompactionKeepsKey(tables: seq<seq<Entry>>, out: seq<Entry>, k: Bytes)
    requires Compactor.Compacted(tables, out)
    ensures At(ToMap(out), k) == Newest(Maps(tables), k) <==> k != [] || forall i :: 0 <= i < |tables| ==>
        Find(tables[i], []) == None
  {
    ToMapAt(out, k);
    NewestIsLayered(tables, k);
    assert Find(out, k) == if k == [] then None else Compactor.NewestEntry(tables, k);
    if k == [] {
      NoneEverywhere(tables);
    }
  }

  lemma {:induction false} NoneEverywhere(tables: seq<seq<Entry>>)
    ensures Compactor.NewestEntry(tables, []) == None <==> forall i :: 0 <= i < |tables| ==> Find(tables[i], []) == None
  {
    if tables != [] {
      var n := |tables| - 1;
      NoneEverywhere(tables[..n]);
      assert forall i :: 0 <= i < n ==> tables[..n][i] == tables[i];
      if Find(tables[n], []) == None && Compactor.NewestEntry(tables, []) == None {
        assert forall i :: 0 <= i < n ==> Find(tables[..n][i], []) == None;
      }
    }
  }

  lemma {:induction false} SomeNewest(tables: seq<seq<Entry>>, i: nat, k: Bytes)
    requires i < |tables| && Find(tables[i], k).Some?
    ensures Compactor.NewestEntry(tables, k).Some?
  {
    var n := |tables| - 1;
    if i < n {
      SomeNewest(tables[..n], i, k);
    }
  }

  lemma {:induction false} NewestFrom(tables: seq<seq<Entry>>, k: Bytes)
    requires Compactor.NewestEntry(tables, k).Some?
    ensures exists i :: 0 <= i < |tables| && Find(tables[i], k) == Compactor.NewestEntry(tables, k)
  {
    var n := |tables| - 1;
    if Find(tables[n], k) == None {
      NewestFrom(tables[..n], k);
      var i :| 0 <= i < n && Find(tables[..n][i], k) == Compactor.NewestEntry(tables[..n], k);
      assert Find(tables[i], k) == Compactor.NewestEntry(tables, k);
    }
  }

  /**
   The output invents nothing: every entry in it, with its op code, stands in an input; so lengths that fit go
   on fitting.
   */
  lemma OutputFromInputs(tables: seq<seq<Entry>>, out: seq<Entry>)
    requires Compactor.Compacted(tables, out)
    ensures forall e :: e in out ==> exists i :: 0 <= i < |tables| && e in tables[i]
    ensures (forall i :: 0 <= i < |tables| ==> AllFit(tables[i])) ==> AllFit(out)
  {
    forall j | 0 <= j < |out| ensures exists i :: 0 <= i < |tables| && out[j] in tables[i] {
      var k := out[j].key;
      FindAt(out, j);
      assert Find(out, k) == if k == [] then None else Compactor.NewestEntry(tables, k);
      NewestFrom(tables, k);
      var i :| 0 <= i < |tables| && Find(tables[i], k) == Compactor.NewestEntry(tables, k);
      FindSome(tables[i], k);
    }
    if forall i :: 0 <= i < |tables| ==> AllFit(tables[i]) {
      forall j | 0 <= j < |out| ensures Fits(out[j]) {
        var i :| 0 <= i < |tables| && out[j] in tables[i];
      }
    }
  }
}
