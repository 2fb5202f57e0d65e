/** Sorted lists of table entries, the contents of MemTables and SSTables in key order. */
module Entries {
  import opened Options
  import opened ByteStrings
  import opened Layers

  const OP_PUT: byte := 2
  const OP_DELETE: byte := 4

  /** A record of a table file or of the log. */
  datatype Entry = Entry(op: byte, key: Bytes, val: Bytes)

  /** A record's lengths fit their fields. */
  predicate Fits(e: Entry) {
    |e.key| < 0x1_0000 && |e.val| < 0x1_0000_0000
  }

  ghost predicate AllFit(es: seq<Entry>) {
    forall i :: 0 <= i < |es| ==> Fits(es[i])
  }

  /** Strictly ascending keys. */
  ghost predicate Sorted(es: seq<Entry>) {
    forall i, j :: 0 <= i < j < |es| ==> Less(es[i].key, es[j].key)
  }

  /** The first entry for key k. */
  function Find(es: seq<Entry>, k: Bytes): Option<Entry> {
    if es == [] then None
    else if es[0].key == k then Some(es[0])
    else Find(es[1..], k)
  }

  lemma {:induction false} FindNone(es: seq<Entry>, k: Bytes)
    ensures Find(es, k) == None <==> forall i :: 0 <= i < |es| ==> es[i].key != k
  {
    if es != [] {
      FindNone(es[1..], k);
      if forall i :: 0 <= i < |es| ==> es[i].key != k {
        assert forall i :: 0 <= i < |es[1..]| ==> es[1..][i] == es[i + 1];
      } else if es[0].key != k {
        var i :| 0 <= i < |es| && es[i].key == k;
        assert es[1..][i - 1] == es[i];
      }
    }
  }

  lemma {:induction false} FindSome(es: seq<Entry>, k: Bytes)
    requires Find(es, k).Some?
    ensures Find(es, k).value.key == k && Find(es, k).value in es
  {
    if es[0].key != k {
      FindSome(es[1..], k);
    }
  }

  /** In a sorted list every entry is the one found under its key. */
  lemma {:induction false} FindAt(es: seq<Entry>, i: nat)
    requires Sorted(es) && i < |es|
    ensures Find(es, es[i].key) == Some(es[i])
  {
    if i > 0 {
      LessAsymmetric(es[0].key, es[i].key);
      FindAt(es[1..], i - 1);
    }
  }

  lemma {:induction false} FindConcat(a: seq<Entry>, b: seq<Entry>, k: Bytes)
    ensures Find(a + b, k) == if Find(a, k).Some? then Find(a, k) else Find(b, k)
  {
    if a == [] {
      assert a + b == b;
    } else {
      assert (a + b)[1..] == a[1..] + b;
      FindConcat(a[1..], b, k);
    }
  }

  /** The value found, if any. */
  function ValueAt(es: seq<Entry>, k: Bytes): Option<Bytes> {
    if Find(es, k).Some? then Some(Find(es, k).value.val) else None
  }

  /** The map a list of entries stands for. */
  function ToMap(es: seq<Entry>): Contents {
    if es == [] then map[] else ToMap(es[1..])[es[0].key := es[0].val]
  }

  lemma {:induction false} ToMapAt(es: seq<Entry>, k: Bytes)
    ensures At(ToMap(es), k) == ValueAt(es, k)
  {
    if es != [] {
      ToMapAt(es[1..], k);
    }
  }

  /** Two sorted lists in which every key is found alike are equal. */
  lemma {:induction false} SortedUnique(a: seq<Entry>, b: seq<Entry>)
    requires Sorted(a) && Sorted(b)
    requires forall k: Bytes :: Find(a, k) == Find(b, k)
    ensures a == b
  {
    var k := if a != [] then a[0].key else if b != [] then b[0].key else [];
    assert Find(a, k) == Find(b, k);
    if a != [] && b != [] {
      SameHead(a, b);
      forall k: Bytes ensures Find(a[1..], k) == Find(b[1..], k) {
        HeadOnce(a, k);
        HeadOnce(b, k);
        assert Find(a, k) == Find(b, k);
      }
      SortedUnique(a[1..], b[1..]);
    }
  }

  lemma HeadOnce(a: seq<Entry>, k: Bytes)
    requires Sorted(a) && a != []
    ensures k == a[0].key ==> Find(a[1..], k) == None
    ensures k != a[0].key ==> Find(a[1..], k) == Find(a, k)
  {
    if k == a[0].key {
      FindNone(a[1..], k);
      forall i | 0 <= i < |a[1..]| ensures a[1..][i].key != k {
        LessAsymmetric(a[0].key, a[i + 1].key);
      }
    }
  }

  lemma SameHead(a: seq<Entry>, b: seq<Entry>)
    requires Sorted(a) && Sorted(b) && a != [] && b != []
    requires forall k: Bytes :: Find(a, k) == Find(b, k)
    ensures a[0] == b[0]
  {
    assert Find(a, a[0].key) == Some(a[0]) && Find(b, b[0].key) == Some(b[0]);
    FindSome(b, a[0].key);
    FindSome(a, b[0].key);
    var i :| 0 <= i < |b| && b[i] == a[0];
    var j :| 0 <= j < |a| && a[j] == b[0];
    if i > 0 && j > 0 {
      LessAsymmetric(b[0].key, b[i].key);
      assert false;
    }
  }
}
