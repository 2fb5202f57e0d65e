/** The MemTable's methods with no other thread running (internal/engine/memtable.go:31-267, sstable.go:28-148). */
module MemTables {
  import opened Options
  import opened ByteStrings
  import opened Layers
  import opened Entries
  import opened SkipList
  import opened SkipListSearch
  import Runs = SkipListRuns
  import Bloom
  import TableFormat
  import TableWriter

  datatype KeyValue = KeyValue(key: Bytes, val: Bytes)

  /** randomLevel: any height is possible. */
  method RandomLevel() returns (level: nat)
    ensures 1 <= level <= MAX_LEVEL
  {
    level := 1;
    while level < MAX_LEVEL
      invariant 1 <= level <= MAX_LEVEL
      decreases MAX_LEVEL - level
    {
      if * {
        return;
      }
      level := level + 1;
    }
  }

  // ------------------------------------------------------------ range scans

  /** startKey <= k <= endKey, where an empty bound does not bound. */
  predicate InBounds(k: Bytes, lo: Bytes, hi: Bytes) {
    (lo == [] || !Less(k, lo)) && (hi == [] || !Less(hi, k))
  }

  /** Both bounds belong to the range. */
  lemma BoundsAreInclusive(k: Bytes, lo: Bytes, hi: Bytes)
    ensures InBounds(k, lo, hi) <==> (lo == [] || lo == k || Less(lo, k)) && (hi == [] || k == hi || Less(k, hi))
  {
    LessTotal(lo, k);
    LessTotal(k, hi);
    LessIrreflexive(k);
    forall a: Bytes, b: Bytes | Less(a, b) ensures !Less(b, a) {
      LessAsymmetric(a, b);
    }
  }

  ghost predicate AscendingKeys(r: seq<KeyValue>) {
    forall i, j :: 0 <= i < j < |r| ==> Less(r[i].key, r[j].key)
  }

  /** r lists, in strictly ascending order, exactly the pairs of m whose key lies within the bounds. */
  ghost predicate IsRange(m: Contents, lo: Bytes, hi: Bytes, r: seq<KeyValue>) {
    && AscendingKeys(r)
    && forall k: Bytes, v: Bytes :: KeyValue(k, v) in r <==> InBounds(k, lo, hi) && At(m, k) == Some(v)
  }

  ghost function Pair(t: SkipList, n: nat): KeyValue
    requires n < |t.nodes| && t.nodes[n].val.Some?
  {
    KeyValue(t.nodes[n].key, t.nodes[n].val.value)
  }

  /** A scan that stands at node c has collected what the data nodes up to c hold within the bounds. */
  ghost predicate Collected(t: SkipList, c: nat, lo: Bytes, hi: Bytes, r: seq<KeyValue>)
    requires Ordered(t)
  {
    && On(t, c, 0) && AscendingKeys(r)
    && (forall j :: 0 <= j < |r| ==> c > 0 && AtMost(r[j].key, t.nodes[c].key))
    && (forall x: nat :: Data(t, x, 0) && !Below(t, c, t.nodes[x].key) && InBounds(t.nodes[x].key, lo, hi) ==>
        Pair(t, x) in r)
    && (forall j :: 0 <= j < |r| ==> FromNode(t, r[j]) && InBounds(r[j].key, lo, hi))
  }

  ghost predicate FromNode(t: SkipList, p: KeyValue) {
    exists x: nat :: Data(t, x, 0) && t.nodes[x].key == p.key && t.nodes[x].val == Some(p.val)
  }

  lemma CollectedStart(t: SkipList, c: nat, lo: Bytes, hi: Bytes)
    requires Ordered(t) && On(t, c, 0) && (lo == [] ==> c == 0) && (lo != [] ==> Below(t, c, lo))
    ensures Collected(t, c, lo, hi, [])
  {
    forall x: nat | Data(t, x, 0) && !Below(t, c, t.nodes[x].key) ensures !InBounds(t.nodes[x].key, lo, hi) {
      LessTotal(t.nodes[c].key, t.nodes[x].key);
      if Less(t.nodes[x].key, t.nodes[c].key) {
        LessTransitive(t.nodes[x].key, t.nodes[c].key, lo);
      }
    }
  }

  lemma CollectedOn(t: SkipList, c: nat, lo: Bytes, hi: Bytes, r: seq<KeyValue>)
    requires Ordered(t) && Collected(t, c, lo, hi, r)
    ensures On(t, c, 0)
  {
  }

  lemma CollectedStep(t: SkipList, c: nat, m: nat, lo: Bytes, hi: Bytes, r: seq<KeyValue>)
    requires Ordered(t) && Collected(t, c, lo, hi, r) && t.nodes[c].nexts[0] == Some(m)
    ensures Data(t, m, 0) && t.nodes[m].val.Some?
    ensures Collected(t, m, lo, hi, if InBounds(t.nodes[m].key, lo, hi) then r + [Pair(t, m)] else r)
  {
    assert Follows(t, c, 0, Some(m));
    var r' := if InBounds(t.nodes[m].key, lo, hi) then r + [Pair(t, m)] else r;
    hide InBounds;
    LessIrreflexive(t.nodes[m].key);
    forall j | 0 <= j < |r| ensures Less(r[j].key, t.nodes[m].key) {
      if r[j].key != t.nodes[c].key {
        LessTransitive(r[j].key, t.nodes[c].key, t.nodes[m].key);
      }
    }
    forall x: nat | Data(t, x, 0) && !Below(t, m, t.nodes[x].key)
        && InBounds(t.nodes[x].key, lo, hi) ensures Pair(t, x) in r' {
      if Below(t, c, t.nodes[x].key) {
        assert x == m;
        assert r'[|r|] == Pair(t, m);
      } else {
        assert Pair(t, x) in r;
      }
    }
    assert FromNode(t, Pair(t, m));
    forall j | 0 <= j < |r'| ensures FromNode(t, r'[j]) && InBounds(r'[j].key, lo, hi)
        && AtMost(r'[j].key, t.nodes[m].key) {
      if j < |r| {
        assert FromNode(t, r[j]);
      }
    }
    hide Ordered, FromNode, Less;
  }

  /** The scan may end at the end of level 0 or at the first key above the upper bound. */
  lemma CollectedAll(t: SkipList, c: nat, lo: Bytes, hi: Bytes, r: seq<KeyValue>)
    requires Ordered(t) && Collected(t, c, lo, hi, r)
    requires var o := t.nodes[c].nexts[0]; o.Some? ==> o.value < |t.nodes| && hi != [] && Less(hi, t.nodes[o.value].key)
    ensures IsRange(TableOf(t), lo, hi, r)
  {
    var o := t.nodes[c].nexts[0];
    assert Follows(t, c, 0, o);
    forall x: nat | Data(t, x, 0) && InBounds(t.nodes[x].key, lo, hi) ensures Pair(t, x) in r {
      if Below(t, c, t.nodes[x].key) && x != o.value {
        LessTransitive(hi, t.nodes[o.value].key, t.nodes[x].key);
      }
    }
    hide InBounds, Less, TableOf, Links;
    forall k: Bytes, v: Bytes ensures KeyValue(k, v) in r <==> InBounds(k, lo, hi) && At(TableOf(t), k) == Some(v) {
      TableAt(t, k);
      if KeyValue(k, v) in r {
        assert FromNode(t, KeyValue(k, v));
        var x: nat :| Data(t, x, 0) && t.nodes[x].key == k && t.nodes[x].val == Some(v);
        ValueIs(t, x, k);
      }
      if InBounds(k, lo, hi) && Value(t, k) == Some(v) {
        var x: nat :| Holds(t, x, k);
        ValueIs(t, x, k);
        assert Pair(t, x) in r;
      }
    }
  }

  // ------------------------------------------------------ the steps of a Put

  lemma HeadStands(t: SkipList, k: Bytes)
    requires Wf(t)
    ensures Stands(t, 0, MAX_LEVEL - 1, k)
  {
  }

  lemma StopsStands(t: SkipList, n: nat, i: nat, k: Bytes)
    requires Ordered(t) && Stops(t, n, i, k)
    ensures Stands(t, n, i, k)
  {
  }

  /** The table while a Put of k := v is under way; `done` says whether it has taken effect. */
  ghost predicate Linking(t: SkipList, now: SkipList, k: Bytes, v: Bytes, preds: seq<nat>, pc: Runs.WriterPc,
                          done: bool) {
    && Ordered(now) && Runs.WriterOk(now, k, v, preds, pc)
    && forall x: Bytes :: Value(now, x) == if done && x == k then Some(v) else Value(t, x)
  }

  /** What FindPreds leaves to decide: update the next node or insert. */
  lemma CandidateFacts(t: SkipList, k: Bytes, v: Bytes, preds: seq<nat>)
    requires Ordered(t) && |preds| == MAX_LEVEL && Runs.AllStop(t, preds, 0, k)
    ensures preds[0] < |t.nodes| && |t.nodes[preds[0]].nexts| > 0
    ensures var o := t.nodes[preds[0]].nexts[0];
            && (o.Some? ==> o.value < |t.nodes|)
            && (if o.Some? && t.nodes[o.value].key == k then Holds(t, o.value, k)
                else Runs.WriterOk(t, k, v, preds, Runs.Grow))
    ensures Ordered(t)
  {
    assert Stops(t, preds[0], 0, k);
    Runs.CandidateKeeps(t, k, v, preds);
  }

  lemma StoredVal(t: SkipList, n: nat, v: Bytes, k: Bytes)
    requires Ordered(t) && Holds(t, n, k)
    ensures n < |t.nodes| && StoreVal(t, n, v) == SkipList(t.nodes[n := t.nodes[n].(val := Some(v))], t.linked)
    ensures Ordered(StoreVal(t, n, v)) && k in TableOf(t) && TableOf(StoreVal(t, n, v)) == TableOf(t)[k := v]
  {
    StoreValKeeps(t, n, v);
    TableUpdated(t, StoreVal(t, n, v), k, v);
    TableAt(t, k);
    ValueIs(t, n, k);
  }

  lemma Grown(t: SkipList, k: Bytes, v: Bytes, preds: seq<nat>, h: nat)
    requires Ordered(t) && Runs.WriterOk(t, k, v, preds, Runs.Grow) && 1 <= h <= MAX_LEVEL
    ensures Linking(t, Alloc(t, k, v), k, v, preds, Runs.Wire(|t.nodes|, h, 0), false)
    ensures k !in TableOf(t)
  {
    Runs.GrowKeeps(t, k, v, preds, h);
    AllocKeeps(t, k, v);
    TableAt(t, k);
  }

  lemma AllocIs(t: SkipList, k: Bytes, v: Bytes, now: SkipList)
    requires now == SkipList(t.nodes + [Node(k, Some(v), NilNexts())], t.linked + [0])
    ensures now == Alloc(t, k, v)
  {
  }

  lemma Wiring(t: SkipList, now: SkipList, k: Bytes, v: Bytes, preds: seq<nat>, n: nat, h: nat, i: nat)
    requires Linking(t, now, k, v, preds, Runs.Wire(n, h, i), false) && i < h
    ensures n < |now.nodes| && |preds| == MAX_LEVEL && h <= MAX_LEVEL && preds[i] < |now.nodes|
    ensures |now.nodes[n].nexts| == |now.nodes[preds[i]].nexts| == MAX_LEVEL
    ensures Linking(t, StoreNext(now, n, i, now.nodes[preds[i]].nexts[i]), k, v, preds, Runs.Wire(n, h, i + 1), false)
  {
    assert Gap(now, preds[i], i, k);
    Runs.WireStepKeeps(now, k, v, preds, n, h, i);
  }

  lemma WiredIs(t: SkipList, n: nat, i: nat, o: Option<nat>, now: SkipList)
    requires n < |t.nodes| && i < |t.nodes[n].nexts|
    requires now == SkipList(t.nodes[n := t.nodes[n].(nexts := t.nodes[n].nexts[i := o])], t.linked)
    ensures now == StoreNext(t, n, i, o)
  {
  }

  lemma PublishingStarts(t: SkipList, now: SkipList, k: Bytes, v: Bytes, preds: seq<nat>, n: nat, h: nat)
    requires Linking(t, now, k, v, preds, Runs.Wire(n, h, h), false)
    ensures Linking(t, now, k, v, preds, Runs.Publish(n, h, 0), false)
  {
    Runs.PublishStart(now, k, v, preds, n, h);
  }

  lemma Publishing(t: SkipList, now: SkipList, k: Bytes, v: Bytes, preds: seq<nat>, n: nat, h: nat, i: nat)
    requires Linking(t, now, k, v, preds, Runs.Publish(n, h, i), i > 0) && i < h
    ensures n < |now.nodes| == |now.linked| && |preds| == MAX_LEVEL && h <= MAX_LEVEL && preds[i] < |now.nodes|
    ensures |now.nodes[preds[i]].nexts| == MAX_LEVEL
    ensures Linking(t, Link(now, preds[i], i, n), k, v, preds, Runs.Publish(n, h, i + 1), true)
  {
    Runs.PublishLinkable(now, k, v, preds, n, h, i);
    LinkKeeps(now, preds[i], i, n);
    Runs.PublishKeeps(now, k, v, preds, n, h, i);
    hide Ordered, Linkable, Extends, Value, Link, Runs.WriterOk;
  }

  lemma LinkedIs(t: SkipList, p: nat, i: nat, n: nat, now: SkipList)
    requires p < |t.nodes| && i < |t.nodes[p].nexts| && n < |t.linked|
    requires now == SkipList(t.nodes[p := t.nodes[p].(nexts := t.nodes[p].nexts[i := Some(n)])], t.linked[n := i + 1])
    ensures now == Link(t, p, i, n)
  {
  }

  lemma Published(t: SkipList, now: SkipList, k: Bytes, v: Bytes, preds: seq<nat>, n: nat, h: nat)
    requires Ordered(t) && Linking(t, now, k, v, preds, Runs.Publish(n, h, h), true)
    ensures Ordered(now) && TableOf(now) == TableOf(t)[k := v]
  {
    TableUpdated(t, now, k, v);
  }

  lemma ValidIs(m: MemTable, t: SkipList)
    requires Ordered(t) && t == SkipList(m.nodes, m.linked)
    ensures m.Valid() && m.Table() == TableOf(t)
  {
  }

  // ---------------------------------------------------------------- MemTable

  class MemTable {
    var nodes: seq<Node>
    var size: nat
    var frozen: bool
    ghost var linked: seq<nat>

    ghost function List(): SkipList
      reads this
    {
      SkipList(nodes, linked)
    }

    ghost predicate Valid()
      reads this
    {
      Ordered(List())
    }

    /** The ordered map the table stands for. */
    ghost function Table(): Contents
      reads this
      requires Valid()
    {
      TableOf(List())
    }

    /** NewMemTable: only the dummy head. */
    constructor ()
      ensures Valid() && Table() == map[] && size == 0 && !frozen
    {
      nodes, linked := Empty().nodes, Empty().linked;
      size, frozen := 0, false;
      new;
      EmptyOrdered();
      assert List() == Empty();
      forall k: Bytes ensures At(Table(), k) == At(map[], k) {
        TableAt(List(), k);
      }
      MapsEqual(Table(), map[]);
    }

    /** The inner loop of a search: go right on level i while the next key is below k. */
    method Advance(i: nat, from: nat, k: Bytes) returns (curr: nat)
      requires Valid() && Stands(List(), from, i, k)
      ensures Stops(List(), curr, i, k)
    {
      curr := from;
      ghost var t := List();
      hide Distinct, Links, Below, Less;
      while true
        invariant Stands(t, curr, i, k)
        decreases |Later(t, curr, i)|
      {
        Forward(t, curr, i, k);
        var next := nodes[curr].nexts[i];
        if next.Some? && Less(nodes[next.value].key, k) {
          LaterShrinks(t, curr, i);
          curr := next.value;
        } else {
          return;
        }
      }
    }

    /** The search loop of Put: the predecessor of k on every level. */
    method FindPreds(k: Bytes) returns (preds: seq<nat>)
      requires Valid()
      ensures |preds| == MAX_LEVEL && Runs.AllStop(List(), preds, 0, k)
    {
      preds := seq(MAX_LEVEL, _ => 0);
      var curr: nat, i: nat := 0, MAX_LEVEL;
      ghost var t := List();
      hide Distinct, Links, Below, Less;
      while i > 0
        invariant i <= MAX_LEVEL && |preds| == MAX_LEVEL
        invariant i > 0 ==> Stands(t, curr, i - 1, k)
        invariant Runs.AllStop(t, preds, i, k)
      {
        i := i - 1;
        curr := Advance(i, curr, k);
        preds := preds[i := curr];
        if i > 0 {
          StandsLower(t, curr, i, k);
        }
      }
    }

    /** Put: for any height RandomLevel may choose, the table becomes its own update at the key. */
    method Put(key: Bytes, val: Bytes) returns (ok: bool)
      requires Valid()
      modifies this
      ensures Valid() && frozen == old(frozen) && ok == !frozen
      ensures Table() == if ok then old(Table())[key := val] else old(Table())
      ensures size == old(size) + if ok && key !in old(Table()) then |key| + |val| else 0
    {
      if frozen {
        return false;
      }
      var preds := FindPreds(key);
      ghost var t := List();
      CandidateFacts(t, key, val, preds);
      hide *;
      var next := nodes[preds[0]].nexts[0];
      if next.Some? && nodes[next.value].key == key {
        ghost var t' := StoreVal(t, next.value, val);
        nodes := nodes[next.value := nodes[next.value].(val := Some(val))];
        StoredVal(t, next.value, val, key);
        ValidIs(this, t');
        return true;
      }
      var level := RandomLevel();
      Insert(key, val, preds, level);
      ok := true;
    }

    /** A new node: grow the size, wire its forward pointers, then publish it level by level from the bottom. */
    method Insert(key: Bytes, val: Bytes, preds: seq<nat>, level: nat)
      requires Valid() && 1 <= level <= MAX_LEVEL && Runs.WriterOk(List(), key, val, preds, Runs.Grow)
      modifies this`nodes, this`linked, this`size
      ensures Valid() && Table() == old(Table())[key := val]
      ensures key !in old(Table()) && size == old(size) + |key| + |val|
    {
      ghost var t := SkipList(nodes, linked);
      assert Table() == TableOf(t);
      Grown(t, key, val, preds, level);
      hide *;
      var n := |nodes|;
      nodes, linked := nodes + [Node(key, Some(val), NilNexts())], linked + [0];
      size := size + |key| + |val|;
      AllocIs(t, key, val, SkipList(nodes, linked));
      var i := 0;
      while i < level
        invariant i <= level && size == old(size) + |key| + |val|
        invariant Linking(t, SkipList(nodes, linked), key, val, preds, Runs.Wire(n, level, i), false)
      {
        ghost var now := SkipList(nodes, linked);
        Wiring(t, now, key, val, preds, n, level, i);
        nodes := nodes[n := nodes[n].(nexts := nodes[n].nexts[i := nodes[preds[i]].nexts[i]])];
        WiredIs(now, n, i, now.nodes[preds[i]].nexts[i], SkipList(nodes, linked));
        i := i + 1;
      }
      PublishingStarts(t, SkipList(nodes, linked), key, val, preds, n, level);
      i := 0;
      while i < level
        invariant i <= level && size == old(size) + |key| + |val|
        invariant Linking(t, SkipList(nodes, linked), key, val, preds, Runs.Publish(n, level, i), i > 0)
      {
        ghost var now := SkipList(nodes, linked);
        Publishing(t, now, key, val, preds, n, level, i);
        nodes := nodes[preds[i] := nodes[preds[i]].(nexts := nodes[preds[i]].nexts[i := Some(n)])];
        linked := linked[n := i + 1];
        LinkedIs(now, preds[i], i, n, SkipList(nodes, linked));
        i := i + 1;
      }
      Published(t, SkipList(nodes, linked), key, val, preds, n, level);
      ValidIs(this, SkipList(nodes, linked));
    }

    /** Get: top-down search with early exit, then a last look at level 0. */
    method Get(key: Bytes) returns (r: Option<Bytes>)
      requires Valid()
      ensures r == At(Table(), key)
    {
      ghost var t := List();
      TableAt(t, key);
      hide Distinct, Links, Below, Less, TableOf, Value;
      var curr: nat, i: nat := 0, MAX_LEVEL;
      Runs.SearchStarts(t, key, [], seq(MAX_LEVEL, _ => 0));
      while i > 0
        invariant i <= MAX_LEVEL
        invariant if i > 0 then Stands(t, curr, i - 1, key) else Stops(t, curr, 0, key)
      {
        i := i - 1;
        while true
          invariant Stands(t, curr, i, key)
          decreases |Later(t, curr, i)|
        {
          Forward(t, curr, i, key);
          var next := nodes[curr].nexts[i];
          if next == None {
            break;
          }
          if Less(nodes[next.value].key, key) {
            LaterShrinks(t, curr, i);
            curr := next.value;
          } else if nodes[next.value].key == key {
            ValueIs(t, next.value, key);
            return nodes[next.value].val;
          } else {
            break;
          }
        }
        if i > 0 {
          StandsLower(t, curr, i, key);
        }
      }
      SearchEnds(t, curr, key);
      Forward(t, curr, 0, key);
      var next := nodes[curr].nexts[0];
      if next.Some? && nodes[next.value].key == key {
        return nodes[next.value].val;
      }
      r := None;
    }

    /** Size. */
    method Size() returns (n: nat)
      ensures n == size
    {
      n := size;
    }

    /** Freeze. */
    method Freeze()
      requires Valid()
      modifies this`frozen
      ensures frozen && Valid() && Table() == old(Table())
    {
      frozen := true;
    }

    /** The first half of Scan: the last node below the lower bound, found on the upper levels. */
    method Seek(lo: Bytes) returns (curr: nat)
      requires Valid()
      ensures if lo == [] then curr == 0 else Stops(List(), curr, 0, lo)
    {
      hide Distinct, Links, Below, Less, Stands, Stops;
      curr := 0;
      ghost var t := List();
      if lo != [] {
        HeadStands(t, lo);
        var i: nat := MAX_LEVEL;
        while i > 0
          invariant i <= MAX_LEVEL
          invariant if i > 0 then Stands(t, curr, i - 1, lo) else Stops(t, curr, 0, lo)
        {
          i := i - 1;
          curr := Advance(i, curr, lo);
          StopsStands(t, curr, i, lo);
          if i > 0 {
            StandsLower(t, curr, i, lo);
          }
        }
      }
    }

    /** Scan: seek the lower bound, then collect level 0 up to the upper bound. */
    method Scan(lo: Bytes, hi: Bytes) returns (results: seq<KeyValue>)
      requires Valid()
      ensures IsRange(Table(), lo, hi, results)
    {
      results := [];
      ghost var t := List();
      var curr: nat := Seek(lo);
      CollectedStart(t, curr, lo, hi);
      hide Distinct, Links, Below, Less, TableOf, Value, AscendingKeys, FromNode, IsRange, Later, Stops, Collected;
      while true
        invariant Collected(t, curr, lo, hi, results)
        decreases |Later(t, curr, 0)|
      {
        CollectedOn(t, curr, lo, hi, results);
        var next := nodes[curr].nexts[0];
        if next == None {
          CollectedAll(t, curr, lo, hi, results);
          return;
        }
        CollectedStep(t, curr, next.value, lo, hi, results);
        LaterShrinks(t, curr, 0);
        var k := nodes[next.value].key;
        if hi != [] && Less(hi, k) {
          CollectedAll(t, curr, lo, hi, results);
          return;
        }
        if lo == [] || !Less(k, lo) {
          results := results + [KeyValue(k, nodes[next.value].val.value)];
        }
        curr := next.value;
      }
    }
  }

  /** FlushMemTable: the file is the table of exactly the MemTable's entries, tombstones included, in key order. */
  method FlushMemTable(m: MemTable, shape: Bloom.Shape) returns (file: Bytes)
    requires m.Valid() && shape.Valid()
    ensures file == TableFormat.File(shape, Listing(m.List()))
  {
    ghost var t := SkipList(m.nodes, m.linked);
    hide *;
    AheadStart(m, t);
    var bf, out, index, current, last := TableWriter.Init(shape);
    var curr: Option<nat> := m.nodes[0].nexts[0];
    ghost var es: seq<Entry>, rest := [], Listing(t);
    Moved(es, rest);
    while curr.Some?
      invariant fresh(bf.bits) && bf.TheShape() == shape && TableWriter.Wrote(bf, es, out, index, current, last)
      invariant es + rest == Listing(t) && AheadOf(t, curr, rest)
      decreases |rest|
    {
      AheadStep(t, curr.value, rest);
      var node := m.nodes[curr.value];
      out, index, current, last := TableWriter.WriteEntry(bf, out, index, current, last,
          Entry(OP_PUT, node.key, node.val.value), es);
      Moved(es, rest);
      es, rest := es + [rest[0]], rest[1..];
      curr := node.nexts[0];
    }
    AheadNone(t, rest);
    Moved(es, rest);
    file := TableWriter.Finalize(bf, out, index, current, last, es);
  }

  /** One entry moves from the rest to the entries written. */
  lemma Moved(es: seq<Entry>, rest: seq<Entry>)
    ensures rest != [] ==> es + [rest[0]] + rest[1..] == es + rest
    ensures es == [] ==> es + rest == rest
    ensures rest == [] ==> es + rest == es
  {
  }

  /** The walk of level 0 has come to `o`, and `rest` is what it will list from there. */
  ghost predicate AheadOf(t: SkipList, o: Option<nat>, rest: seq<Entry>) {
    Ordered(t) &&
    if o.Some? then Data(t, o.value, 0) && t.nodes[o.value].val.Some?
        && rest == [EntryOf(t, o.value)] + ListFrom(t, o.value)
    else rest == []
  }

  lemma AheadStart(m: MemTable, t: SkipList)
    requires m.Valid() && t == SkipList(m.nodes, m.linked)
    ensures Ordered(t) && Listing(m.List()) == Listing(t) && |t.nodes| > 0 && |t.nodes[0].nexts| > 0
    ensures AheadOf(t, t.nodes[0].nexts[0], Listing(t))
  {
    ListStep(t, 0);
  }

  lemma AheadStep(t: SkipList, n: nat, rest: seq<Entry>)
    requires AheadOf(t, Some(n), rest)
    ensures n < |t.nodes| && |t.nodes[n].nexts| > 0 && t.nodes[n].val.Some?
    ensures rest != [] && rest[0] == Entry(OP_PUT, t.nodes[n].key, t.nodes[n].val.value)
    ensures AheadOf(t, t.nodes[n].nexts[0], rest[1..])
  {
    ListStep(t, n);
    hide Ordered, ListFrom;
    assert rest[1..] == ListFrom(t, n);
  }

  lemma AheadNone(t: SkipList, rest: seq<Entry>)
    requires AheadOf(t, None, rest)
    ensures rest == []
  {
  }
}
