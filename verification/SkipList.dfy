/**
 The skip list of a MemTable as a heap of nodes (internal/engine/memtable.go:14-43): what every single
 pointer store keeps. Nodes are numbered in the order they are allocated, node 0 is the head.
 */
module SkipList {
  import opened Options
  import opened ByteStrings

  const MAX_LEVEL: nat := 16

  /** A node: immutable key, value pointer, forward pointers (None is nil). */
  datatype Node = Node(key: Bytes, val: Option<Bytes>, nexts: seq<Option<nat>>)

  /** The heap; `linked` is history: node n has been published at the levels below linked[n]. */
  datatype SkipList = SkipList(nodes: seq<Node>, linked: seq<nat>)

  function NilNexts(): (o: seq<Option<nat>>)
    ensures |o| == MAX_LEVEL && forall i :: 0 <= i < MAX_LEVEL ==> o[i] == None
  {
    seq(MAX_LEVEL, i => None)
  }

  function Empty(): SkipList {
    SkipList([Node([], None, NilNexts())], [MAX_LEVEL])
  }

  // --------------------------------------------------------------- invariant

  /** Node n is on level i. */
  predicate On(t: SkipList, n: nat, i: nat) {
    n < |t.nodes| == |t.linked| && i < MAX_LEVEL && t.linked[n] > i
  }

  /** A data node on level i. */
  predicate Data(t: SkipList, n: nat, i: nat) {
    n > 0 && On(t, n, i)
  }

  predicate Wf(t: SkipList) {
    && |t.nodes| == |t.linked| > 0 && t.linked[0] == MAX_LEVEL
    && forall n :: 0 <= n < |t.nodes| ==> |t.nodes[n].nexts| == MAX_LEVEL && t.linked[n] <= MAX_LEVEL
  }

  /** The head comes before every key. */
  predicate Below(t: SkipList, n: nat, k: Bytes)
    requires n < |t.nodes|
  {
    n == 0 || Less(t.nodes[n].key, k)
  }

  ghost predicate Distinct(t: SkipList) {
    forall n: nat, m: nat :: Data(t, n, 0) && Data(t, m, 0) && t.nodes[n].key == t.nodes[m].key ==> n == m
  }

  /** Node m, if any, is the one that follows n among the nodes on level i. */
  ghost predicate Follows(t: SkipList, n: nat, i: nat, o: Option<nat>)
    requires n < |t.nodes|
  {
    && (o.Some? ==> Data(t, o.value, i) && Below(t, n, t.nodes[o.value].key))
    && forall x: nat :: Data(t, x, i) && Below(t, n, t.nodes[x].key) ==>
         o.Some? && (x == o.value || Less(t.nodes[o.value].key, t.nodes[x].key))
  }

  ghost predicate Links(t: SkipList)
    requires Wf(t)
  {
    forall n: nat, i: nat :: On(t, n, i) ==> Follows(t, n, i, t.nodes[n].nexts[i])
  }

  /** The structure every store of a Put keeps, whether or not the node in hand is linked at all its levels. */
  ghost predicate Ordered(t: SkipList) {
    && Wf(t) && Distinct(t) && Links(t)
    && forall n: nat :: Data(t, n, 0) ==> t.nodes[n].val.Some?
  }

  // ------------------------------------------------------- the abstract table

  ghost predicate Holds(t: SkipList, n: nat, k: Bytes) {
    Data(t, n, 0) && t.nodes[n].key == k
  }

  ghost predicate Absent(t: SkipList, k: Bytes) {
    forall n: nat :: !Holds(t, n, k)
  }

  /** What the table says about a key. */
  ghost function Value(t: SkipList, k: Bytes): Option<Bytes> {
    if n: nat :| Holds(t, n, k) then t.nodes[n].val else None
  }

  lemma ValueIs(t: SkipList, n: nat, k: Bytes)
    requires Distinct(t) && Holds(t, n, k)
    ensures Value(t, k) == t.nodes[n].val
  {
  }

  lemma EmptyOrdered()
    ensures Ordered(Empty()) && forall k: Bytes :: Value(Empty(), k) == None
  {
  }

  // ------------------------------------------------------------- the stores

  function StoreVal(t: SkipList, n: nat, v: Bytes): SkipList
    requires n < |t.nodes|
  {
    t.(nodes := t.nodes[n := t.nodes[n].(val := Some(v))])
  }

  /** A new node, not linked anywhere. */
  function Alloc(t: SkipList, k: Bytes, v: Bytes): SkipList {
    SkipList(t.nodes + [Node(k, Some(v), NilNexts())], t.linked + [0])
  }

  /** nodes[n].nexts[i].Store(o). */
  function StoreNext(t: SkipList, n: nat, i: nat, o: Option<nat>): SkipList
    requires n < |t.nodes| && i < |t.nodes[n].nexts|
  {
    t.(nodes := t.nodes[n := t.nodes[n].(nexts := t.nodes[n].nexts[i := o])])
  }

  /** preds[i].nexts[i].Store(newNode). */
  function Link(t: SkipList, p: nat, i: nat, new_: nat): SkipList
    requires p < |t.nodes| && i < |t.nodes[p].nexts| && new_ < |t.linked|
  {
    StoreNext(t, p, i, Some(new_)).(linked := t.linked[new_ := i + 1])
  }

  /** What a later heap keeps of an earlier one: keys, and the levels a node is on. */
  ghost predicate Extends(t: SkipList, t': SkipList) {
    && |t.nodes| <= |t'.nodes|
    && (forall n :: 0 <= n < |t.nodes| ==> t'.nodes[n].key == t.nodes[n].key)
    && (forall n: nat, i: nat :: On(t, n, i) ==> On(t', n, i))
  }

  /** Same keys on the same levels with the same pointers; only values may differ. */
  ghost predicate SameLinks(t: SkipList, t': SkipList)
    requires Wf(t) && Wf(t')
  {
    && (forall n: nat, i: nat :: On(t, n, i) <==> On(t', n, i))
    && (forall n: nat, i: nat :: On(t, n, i) ==>
          t'.nodes[n].key == t.nodes[n].key && t'.nodes[n].nexts[i] == t.nodes[n].nexts[i])
  }

  lemma SameLinksOrdered(t: SkipList, t': SkipList)
    requires Ordered(t) && Wf(t') && SameLinks(t, t')
    requires forall n: nat :: Data(t, n, 0) ==> t'.nodes[n].val.Some?
    ensures Ordered(t')
  {
    forall n: nat, i: nat | On(t', n, i) ensures Follows(t', n, i, t'.nodes[n].nexts[i]) {
      assert On(t, n, i) && Follows(t, n, i, t.nodes[n].nexts[i]);
      hide Less;
      forall x: nat | Data(t', x, i) ensures Data(t, x, i) && t.nodes[x].key == t'.nodes[x].key {
        assert On(t, x, i);
      }
    }
    forall n: nat, m: nat | Data(t', n, 0) && Data(t', m, 0) && t'.nodes[n].key == t'.nodes[m].key ensures n == m {
      assert On(t, n, 0) && On(t, m, 0);
    }
  }

  lemma SameLinksValue(t: SkipList, t': SkipList, k: Bytes)
    requires Ordered(t) && Ordered(t') && SameLinks(t, t')
    requires forall n: nat :: Holds(t, n, k) ==> t'.nodes[n].val == t.nodes[n].val
    ensures Value(t', k) == Value(t, k)
  {
    if n :| Holds(t, n, k) {
      assert On(t', n, 0);
      ValueIs(t, n, k);
      ValueIs(t', n, k);
    } else if n :| Holds(t', n, k) {
      assert On(t, n, 0);
      assert Holds(t, n, k);
      assert false;
    }
  }

  /** Overwriting the value of a present key. */
  lemma StoreValKeeps(t: SkipList, n: nat, v: Bytes)
    requires Ordered(t) && Data(t, n, 0)
    ensures var t' := StoreVal(t, n, v);
            Ordered(t') && Extends(t, t') && Value(t', t.nodes[n].key) == Some(v)
            && forall k: Bytes :: k != t.nodes[n].key ==> Value(t', k) == Value(t, k)
  {
    var t' := StoreVal(t, n, v);
    hide Less;
    assert SameLinks(t, t') by {
      forall m: nat, i: nat ensures On(t, m, i) <==> On(t', m, i) {
      }
    }
    SameLinksOrdered(t, t');
    ValueIs(t', n, t.nodes[n].key);
    forall k: Bytes | k != t.nodes[n].key ensures Value(t', k) == Value(t, k) {
      SameLinksValue(t, t', k);
    }
  }

  /** Allocating a node is invisible. */
  lemma AllocKeeps(t: SkipList, k: Bytes, v: Bytes)
    requires Ordered(t)
    ensures var t' := Alloc(t, k, v);
            Ordered(t') && Extends(t, t') && SameLinks(t, t') && forall x: Bytes :: Value(t', x) == Value(t, x)
  {
    var t' := Alloc(t, k, v);
    hide Less;
    assert Wf(t');
    assert SameLinks(t, t');
    SameLinksOrdered(t, t');
    forall x ensures Value(t', x) == Value(t, x) {
      SameLinksValue(t, t', x);
    }
  }

  /** Wiring a forward pointer of a node at a level it is not on yet is invisible. */
  lemma WireKeeps(t: SkipList, n: nat, i: nat, o: Option<nat>)
    requires Ordered(t) && n < |t.nodes| && i < MAX_LEVEL && !On(t, n, i)
    ensures var t' := StoreNext(t, n, i, o);
            Ordered(t') && Extends(t, t') && SameLinks(t, t') && forall x: Bytes :: Value(t', x) == Value(t, x)
  {
    var t' := StoreNext(t, n, i, o);
    hide Less;
    assert Wf(t');
    assert SameLinks(t, t');
    SameLinksOrdered(t, t');
    forall x ensures Value(t', x) == Value(t, x) {
      SameLinksValue(t, t', x);
    }
  }

  /** p is the node on level i that key k goes behind, and k is not there yet. */
  ghost predicate Gap(t: SkipList, p: nat, i: nat, k: Bytes)
    requires Wf(t)
  {
    && On(t, p, i) && Below(t, p, k)
    && var o := t.nodes[p].nexts[i];
       o.Some? ==> o.value < |t.nodes| && Less(k, t.nodes[o.value].key)
  }

  /** A node may be linked at level i behind p. */
  ghost predicate Linkable(t: SkipList, p: nat, i: nat, n: nat)
    requires Wf(t)
  {
    && 0 < n < |t.nodes| && i < MAX_LEVEL && t.linked[n] == i && t.nodes[n].val.Some?
    && (forall m: nat :: Holds(t, m, t.nodes[n].key) ==> m == n)
    && Gap(t, p, i, t.nodes[n].key) && t.nodes[n].nexts[i] == t.nodes[p].nexts[i]
  }

  /**
   One store of the publication loop keeps the order of every level; only the level-0 store changes what the
   table says.
   */
  lemma LinkKeeps(t: SkipList, p: nat, i: nat, n: nat)
    requires Ordered(t) && Linkable(t, p, i, n)
    ensures var t' := Link(t, p, i, n);
            Ordered(t') && Extends(t, t')
            && (forall m: nat, j: nat :: On(t', m, j) <==> On(t, m, j) || (m == n && j == i))
            && (i == 0 ==> Value(t', t.nodes[n].key) == t.nodes[n].val)
            && (i > 0 ==> Value(t', t.nodes[n].key) == Value(t, t.nodes[n].key))
            && forall k: Bytes :: k != t.nodes[n].key ==> Value(t', k) == Value(t, k)
  {
    var t' := Link(t, p, i, n);
    assert Wf(t');
    LinkOn(t, p, i, n);
    LinkKeys(t, p, i, n);
    LinkDistinct(t, p, i, n);
    hide Less, Follows, Distinct;
    forall m: nat, j: nat | On(t', m, j) ensures Follows(t', m, j, t'.nodes[m].nexts[j]) {
      if j == i {
        LinkFollows(t, p, i, n, m);
      } else {
        LinkElsewhere(t, p, i, n, m, j);
      }
    }
    forall m: nat | Data(t', m, 0) ensures t'.nodes[m].val.Some? {
      assert t'.nodes[m].val == t.nodes[m].val;
    }
    forall k ensures k != t.nodes[n].key || i > 0 ==> Value(t', k) == Value(t, k) {
      if k != t.nodes[n].key || i > 0 {
        LinkValue(t, p, i, n, k);
      }
    }
    if i == 0 {
      assert Holds(t', n, t.nodes[n].key);
      ValueIs(t', n, t.nodes[n].key);
    }
  }

  lemma LinkOn(t: SkipList, p: nat, i: nat, n: nat)
    requires Wf(t) && Linkable(t, p, i, n)
    ensures forall m: nat, j: nat :: On(Link(t, p, i, n), m, j) <==> On(t, m, j) || (m == n && j == i)
  {
  }

  lemma LinkKeys(t: SkipList, p: nat, i: nat, n: nat)
    requires Wf(t) && Linkable(t, p, i, n)
    ensures var t' := Link(t, p, i, n);
            |t'.nodes| == |t.nodes| && forall x :: 0 <= x < |t.nodes| ==> t'.nodes[x].key == t.nodes[x].key
  {
  }

  lemma LinkDistinct(t: SkipList, p: nat, i: nat, n: nat)
    requires Wf(t) && Distinct(t) && Linkable(t, p, i, n)
    ensures Distinct(Link(t, p, i, n))
  {
    var t' := Link(t, p, i, n);
    forall a: nat, b: nat | Data(t', a, 0) && Data(t', b, 0) && t'.nodes[a].key == t'.nodes[b].key ensures a == b {
      assert t'.nodes[a].key == t.nodes[a].key && t'.nodes[b].key == t.nodes[b].key;
      if a != n && b != n {
        assert Data(t, a, 0) && Data(t, b, 0);
      } else {
        assert a != n ==> Holds(t, a, t.nodes[n].key);
        assert b != n ==> Holds(t, b, t.nodes[n].key);
      }
    }
  }

  lemma LinkFollows(t: SkipList, p: nat, i: nat, n: nat, m: nat)
    requires Ordered(t) && Linkable(t, p, i, n) && On(Link(t, p, i, n), m, i)
    ensures var t' := Link(t, p, i, n); Follows(t', m, i, t'.nodes[m].nexts[i])
  {
    var t' := Link(t, p, i, n);
    var k := t.nodes[n].key;
    LinkOn(t, p, i, n);
    LinkKeys(t, p, i, n);
    assert Follows(t, p, i, t.nodes[p].nexts[i]);
    assert m != n ==> On(t, m, i) && Follows(t, m, i, t.nodes[m].nexts[i]);
    forall x: nat ensures Data(t', x, i) <==> x == n || Data(t, x, i) {
    }
    assert forall x: nat :: Data(t, x, i) ==> x < |t.nodes|;
    assert t'.nodes[m].nexts[i] == if m == p then Some(n) else t.nodes[m].nexts[i];
    if m != n && m != p && Below(t, m, k) {
      NotBetween(t, p, i, n, m);
    }
    hide On, Links, Distinct, Wf, Link, Less;
    forall x: nat | Data(t', x, i) && Below(t', m, t'.nodes[x].key)
      ensures var o := t'.nodes[m].nexts[i]; o.Some? && (x == o.value || Less(t'.nodes[o.value].key, t'.nodes[x].key))
    {
      LessIrreflexive(k);
      if m == n {
        BelowTransitive(t, p, k, t.nodes[x].key);
      } else if m == p && x != n {
        var o := t.nodes[p].nexts[i];
        if x != o.value {
          LessTransitive(k, t.nodes[o.value].key, t.nodes[x].key);
        }
      }
    }
  }

  lemma BelowTransitive(t: SkipList, n: nat, k: Bytes, k': Bytes)
    requires n < |t.nodes| && Below(t, n, k) && Less(k, k')
    ensures Below(t, n, k')
  {
    if n > 0 {
      LessTransitive(t.nodes[n].key, k, k');
    }
  }

  /** A node other than p that lies below the gap lies below p, so its successor lies below the gap too. */
  lemma NotBetween(t: SkipList, p: nat, i: nat, n: nat, m: nat)
    requires Ordered(t) && Linkable(t, p, i, n) && On(t, m, i) && m != p && Below(t, m, t.nodes[n].key)
    ensures var o := t.nodes[m].nexts[i]; o.Some? && o.value < |t.nodes| && Less(t.nodes[o.value].key, t.nodes[n].key)
  {
    var k := t.nodes[n].key;
    assert Follows(t, p, i, t.nodes[p].nexts[i]) && Follows(t, m, i, t.nodes[m].nexts[i]);
    assert m > 0 ==> Data(t, m, i) && Data(t, m, 0);
    assert p > 0 ==> Data(t, p, i) && Data(t, p, 0);
    if m > 0 && p > 0 {
      DataKeys(t, m, p);
      LessTotal(t.nodes[m].key, t.nodes[p].key);
    }
    hide On, Links, Distinct, Less;
    if m > 0 && Below(t, p, t.nodes[m].key) {
      var o := t.nodes[p].nexts[i];
      LessAsymmetric(t.nodes[m].key, k);
      if o.value != m {
        LessTransitive(k, t.nodes[o.value].key, t.nodes[m].key);
      }
      assert false;
    }
    var o := t.nodes[m].nexts[i];
    if o.value != p {
      LessTransitive(t.nodes[o.value].key, t.nodes[p].key, k);
    }
  }

  lemma DataKeys(t: SkipList, a: nat, b: nat)
    requires Distinct(t) && Data(t, a, 0) && Data(t, b, 0) && a != b
    ensures t.nodes[a].key != t.nodes[b].key
  {
  }

  lemma LinkElsewhere(t: SkipList, p: nat, i: nat, n: nat, m: nat, j: nat)
    requires Ordered(t) && Linkable(t, p, i, n) && On(Link(t, p, i, n), m, j) && j != i
    ensures var t' := Link(t, p, i, n); Follows(t', m, j, t'.nodes[m].nexts[j])
  {
    var t' := Link(t, p, i, n);
    LinkOn(t, p, i, n);
    assert On(t, m, j) && Follows(t, m, j, t.nodes[m].nexts[j]);
    assert t'.nodes[m].nexts[j] == t.nodes[m].nexts[j];
    LinkKeys(t, p, i, n);
    forall x: nat ensures Data(t', x, j) <==> Data(t, x, j) {
    }
    assert forall x: nat :: Data(t, x, j) ==> x < |t.nodes|;
    hide Less, On, Links, Distinct, Wf, Linkable, Link;
  }

  lemma LinkValue(t: SkipList, p: nat, i: nat, n: nat, k: Bytes)
    requires Ordered(t) && Linkable(t, p, i, n) && Distinct(Link(t, p, i, n))
    requires k != t.nodes[n].key || i > 0
    ensures Value(Link(t, p, i, n), k) == Value(t, k)
  {
    var t' := Link(t, p, i, n);
    if m :| Holds(t, m, k) {
      assert Holds(t', m, k);
      ValueIs(t, m, k);
      ValueIs(t', m, k);
    } else if m :| Holds(t', m, k) {
      assert Holds(t, m, k);
      assert false;
    }
  }
}
