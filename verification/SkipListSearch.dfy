/** Searching the skip list, and its levels as sequences (internal/engine/memtable.go:83-94, 151-190, 213-267). */
module SkipListSearch {
  import opened Options
  import opened ByteStrings
  import opened Layers
  import opened Entries
  import opened SkipList

  /** A search for k stands at node n on level i. */
  predicate Stands(t: SkipList, n: nat, i: nat, k: Bytes) {
    On(t, n, i) && Below(t, n, k)
  }

  /** The next node on the level, if any, has a key of at least k. */
  predicate Stops(t: SkipList, n: nat, i: nat, k: Bytes)
    requires Wf(t)
  {
    && Stands(t, n, i, k)
    && var o := t.nodes[n].nexts[i];
       o.Some? ==> o.value < |t.nodes| && !Less(t.nodes[o.value].key, k)
  }

  /** The nodes that come after n on level i. */
  ghost function Later(t: SkipList, n: nat, i: nat): set<nat>
    requires n < |t.nodes|
  {
    set x: nat | x < |t.nodes| && Data(t, x, i) && Below(t, n, t.nodes[x].key)
  }

  lemma LaterShrinks(t: SkipList, n: nat, i: nat)
    requires Ordered(t) && On(t, n, i) && t.nodes[n].nexts[i].Some?
    ensures var m := t.nodes[n].nexts[i].value;
            && Data(t, m, i) && Below(t, n, t.nodes[m].key)
            && m in Later(t, n, i) && m !in Later(t, m, i) && Later(t, n, i) == {m} + Later(t, m, i)
            && |Later(t, m, i)| < |Later(t, n, i)|
  {
    var m := t.nodes[n].nexts[i].value;
    assert Follows(t, n, i, t.nodes[n].nexts[i]);
    LessIrreflexive(t.nodes[m].key);
    hide Less, Links, Distinct;
    forall x: nat | x < |t.nodes| && Data(t, x, i) && Less(t.nodes[m].key, t.nodes[x].key) ensures Below(t, n,
        t.nodes[x].key) {
      BelowTransitive(t, n, t.nodes[m].key, t.nodes[x].key);
    }
    assert Later(t, n, i) == {m} + Later(t, m, i);
  }

  lemma LaterNone(t: SkipList, n: nat, i: nat)
    requires Ordered(t) && On(t, n, i) && t.nodes[n].nexts[i] == None
    ensures Later(t, n, i) == {}
  {
    assert Follows(t, n, i, t.nodes[n].nexts[i]);
  }

  // ------------------------------------------------------------- searching

  /** Moving right: the next node's key is below k. */
  lemma Forward(t: SkipList, n: nat, i: nat, k: Bytes)
    requires Ordered(t) && Stands(t, n, i, k)
    ensures var o := t.nodes[n].nexts[i];
            && (o.Some? ==> Data(t, o.value, i))
            && (o.Some? && Less(t.nodes[o.value].key, k) ==> Stands(t, o.value, i, k))
  {
    assert Follows(t, n, i, t.nodes[n].nexts[i]);
  }

  /** When a search stops on level 0, k is at the next node or nowhere. */
  lemma SearchEnds(t: SkipList, n: nat, k: Bytes)
    requires Ordered(t) && Stops(t, n, 0, k)
    ensures var o := t.nodes[n].nexts[0];
            if o.Some? && t.nodes[o.value].key == k then Holds(t, o.value, k) && Value(t, k) == t.nodes[o.value].val
            else Absent(t, k) && Value(t, k) == None
  {
    var o := t.nodes[n].nexts[0];
    assert Follows(t, n, 0, o);
    hide Less, Links;
    if !(o.Some? && t.nodes[o.value].key == k) {
      forall x: nat ensures !Holds(t, x, k) {
      }
    }
  }

  /** A search for an absent key stops at the gap it belongs into, on every level. */
  lemma StopsAtGap(t: SkipList, n: nat, i: nat, k: Bytes)
    requires Ordered(t) && Stops(t, n, i, k) && Absent(t, k)
    ensures Gap(t, n, i, k)
  {
    var o := t.nodes[n].nexts[i];
    assert Follows(t, n, i, o);
    if o.Some? {
      assert !Holds(t, o.value, k);
      LessTotal(t.nodes[o.value].key, k);
    }
  }

  lemma StandsLower(t: SkipList, n: nat, i: nat, k: Bytes)
    requires Stands(t, n, i, k) && i > 0
    ensures Stands(t, n, i - 1, k)
  {
  }

  lemma StandsStays(t: SkipList, t': SkipList, n: nat, i: nat, k: Bytes)
    requires Extends(t, t') && Stands(t, n, i, k)
    ensures Stands(t', n, i, k)
  {
  }

  // --------------------------------------------------- levels as sequences

  /** The data nodes met on level i after node n. */
  ghost function Walk(t: SkipList, n: nat, i: nat): (w: seq<nat>)
    requires Ordered(t) && On(t, n, i)
    ensures forall x :: x in w <==> x in Later(t, n, i)
    decreases |Later(t, n, i)|
  {
    match t.nodes[n].nexts[i]
    case None => LaterNone(t, n, i); []
    case Some(m) => LaterShrinks(t, n, i); [m] + Walk(t, m, i)
  }

  /** One step of a walk. */
  lemma WalkStep(t: SkipList, n: nat, i: nat)
    requires Ordered(t) && On(t, n, i)
    ensures var o := t.nodes[n].nexts[i];
            if o.Some?
            then Data(t, o.value, i) && Below(t, n, t.nodes[o.value].key)
                && Walk(t, n, i) == [o.value] + Walk(t, o.value, i)
                 && |Later(t, o.value, i)| < |Later(t, n, i)|
            else Walk(t, n, i) == []
  {
    if t.nodes[n].nexts[i].Some? {
      LaterShrinks(t, n, i);
    }
  }

  lemma WalkNode(t: SkipList, n: nat, i: nat, x: nat)
    requires Ordered(t) && On(t, n, i)
    ensures x in Walk(t, n, i) <==> Data(t, x, i) && Below(t, n, t.nodes[x].key)
  {
    assert x in Walk(t, n, i) <==> x in Later(t, n, i);
  }

  /** The keys on a sequence of nodes strictly increase. */
  ghost predicate Ascending(t: SkipList, w: seq<nat>) {
    && (forall a :: 0 <= a < |w| ==> w[a] < |t.nodes|)
    && forall a, b :: 0 <= a < b < |w| ==> Less(t.nodes[w[a]].key, t.nodes[w[b]].key)
  }

  /** Every level is strictly sorted. */
  lemma {:induction false} LevelSorted(t: SkipList, n: nat, i: nat)
    requires Ordered(t) && On(t, n, i)
    ensures Ascending(t, Walk(t, n, i))
    decreases |Later(t, n, i)|
  {
    var o := t.nodes[n].nexts[i];
    hide *;
    WalkStep(t, n, i);
    if o.Some? {
      DataOn(t, o.value, i);
      LevelSorted(t, o.value, i);
      AscendingCons(t, o.value, i);
    } else {
      AscendingNil(t);
    }
  }

  lemma DataOn(t: SkipList, n: nat, i: nat)
    requires Data(t, n, i)
    ensures On(t, n, i) && On(t, n, 0) && n > 0
  {
  }

  lemma AscendingNil(t: SkipList)
    ensures Ascending(t, [])
  {
  }

  lemma AscendingCons(t: SkipList, m: nat, i: nat)
    requires Ordered(t) && Data(t, m, i) && Ascending(t, Walk(t, m, i))
    ensures Ascending(t, [m] + Walk(t, m, i))
  {
    var w := Walk(t, m, i);
    hide Ordered, Less, Walk, Ascending;
    forall a | 0 <= a < |w| ensures w[a] < |t.nodes| && Less(t.nodes[m].key, t.nodes[w[a]].key) {
      WalkNode(t, m, i, w[a]);
    }
    AscendingBefore(t, m, w);
  }

  lemma AscendingBefore(t: SkipList, m: nat, w: seq<nat>)
    requires m < |t.nodes| && Ascending(t, w)
    requires forall a :: 0 <= a < |w| ==> w[a] < |t.nodes| && Less(t.nodes[m].key, t.nodes[w[a]].key)
    ensures Ascending(t, [m] + w)
  {
    hide Less;
  }

  /** Every level is contained in the one below, so, both being sorted, it is a sublist of it. */
  lemma LevelsNest(t: SkipList, n: nat, i: nat)
    requires Ordered(t) && On(t, n, i) && i > 0
    ensures forall x :: x in Walk(t, n, i) ==> x in Walk(t, n, i - 1)
  {
    forall x | x in Walk(t, n, i) ensures x in Walk(t, n, i - 1) {
      WalkNode(t, n, i, x);
      WalkNode(t, n, i - 1, x);
    }
  }

  ghost function EntryOf(t: SkipList, n: nat): Entry
    requires n < |t.nodes| && t.nodes[n].val.Some?
  {
    Entry(OP_PUT, t.nodes[n].key, t.nodes[n].val.value)
  }

  /** The entries met on level 0 after node n. */
  ghost function ListFrom(t: SkipList, n: nat): seq<Entry>
    requires Ordered(t) && On(t, n, 0)
    decreases |Later(t, n, 0)|
  {
    match t.nodes[n].nexts[0]
    case None => []
    case Some(m) => LaterShrinks(t, n, 0); [EntryOf(t, m)] + ListFrom(t, m)
  }

  /** The table's entries in key order. */
  ghost function Listing(t: SkipList): seq<Entry>
    requires Ordered(t)
  {
    ListFrom(t, 0)
  }

  /** es lists what the nodes of w hold. */
  ghost predicate Lists(t: SkipList, w: seq<nat>, es: seq<Entry>) {
    |es| == |w| && forall a :: 0 <= a < |w| ==> Data(t, w[a], 0) && t.nodes[w[a]].val.Some? && es[a] == EntryOf(t, w[a])
  }

  lemma ListStep(t: SkipList, n: nat)
    requires Ordered(t) && On(t, n, 0)
    ensures var o := t.nodes[n].nexts[0];
            if o.Some?
            then Data(t, o.value, 0) && t.nodes[o.value].val.Some?
                && ListFrom(t, n) == [EntryOf(t, o.value)] + ListFrom(t, o.value)
            else ListFrom(t, n) == []
  {
    if t.nodes[n].nexts[0].Some? {
      LaterShrinks(t, n, 0);
    }
  }

  lemma {:induction false} ListIsWalk(t: SkipList, n: nat)
    requires Ordered(t) && On(t, n, 0)
    ensures Lists(t, Walk(t, n, 0), ListFrom(t, n))
    decreases |Later(t, n, 0)|
  {
    var o := t.nodes[n].nexts[0];
    hide Ordered, Data, On, Walk, ListFrom, Below, EntryOf, Later;
    WalkStep(t, n, 0);
    ListStep(t, n);
    if o.Some? {
      DataOn(t, o.value, 0);
      ListIsWalk(t, o.value);
    }
  }

  /** The listing is strictly sorted and says of every key what the table says. */
  lemma ListingIsTable(t: SkipList)
    requires Ordered(t)
    ensures Sorted(Listing(t))
    ensures forall k: Bytes :: ValueAt(Listing(t), k) == Value(t, k)
    ensures forall i :: 0 <= i < |Listing(t)| ==> Listing(t)[i].op == OP_PUT
  {
    var w, es := Walk(t, 0, 0), Listing(t);
    ListIsWalk(t, 0);
    LevelSorted(t, 0, 0);
    hide Ordered, Less, Walk, ListFrom, Data, On;
    forall k: Bytes ensures ValueAt(es, k) == Value(t, k) {
      ListingAt(t, k);
    }
  }

  lemma ListingAt(t: SkipList, k: Bytes)
    requires Ordered(t)
    ensures ValueAt(Listing(t), k) == Value(t, k)
  {
    var w, es := Walk(t, 0, 0), Listing(t);
    ListIsWalk(t, 0);
    LevelSorted(t, 0, 0);
    FindNone(es, k);
    if a :| 0 <= a < |es| && es[a].key == k {
      ListSorted(t, w, es);
      FindAt(es, a);
      ValueIs(t, w[a], k);
    } else {
      forall n: nat ensures !Holds(t, n, k) {
        WalkNode(t, 0, 0, n);
        hide Walk, ListFrom, Less, Ordered;
        assert forall a :: 0 <= a < |w| ==> es[a] == EntryOf(t, w[a]);
      }
      hide Ordered, Less, Walk, ListFrom;
    }
  }

  lemma ListSorted(t: SkipList, w: seq<nat>, es: seq<Entry>)
    requires Lists(t, w, es) && Ascending(t, w)
    ensures Sorted(es)
  {
    hide Less;
  }

  // ------------------------------------------------------ the table as a map

  ghost function TableOf(t: SkipList): Contents
    requires Ordered(t)
  {
    ToMap(Listing(t))
  }

  lemma TableAt(t: SkipList, k: Bytes)
    requires Ordered(t)
    ensures At(TableOf(t), k) == Value(t, k)
  {
    ListingAt(t, k);
    ToMapAt(Listing(t), k);
  }

  lemma TableUpdated(t: SkipList, t': SkipList, k: Bytes, v: Bytes)
    requires Ordered(t) && Ordered(t') && Value(t', k) == Some(v) && forall x: Bytes :: x != k ==>
        Value(t', x) == Value(t, x)
    ensures TableOf(t') == TableOf(t)[k := v]
  {
    hide Ordered, TableOf, Value;
    forall x: Bytes ensures At(TableOf(t'), x) == At(TableOf(t)[k := v], x) {
      TableAt(t, x);
      TableAt(t', x);
    }
    MapsEqual(TableOf(t'), TableOf(t)[k := v]);
  }
}
