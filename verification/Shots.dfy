/**
 The engine between two calls, as a value, and what one call or one turn of the worker makes of it
 (internal/engine/db.go).
 */
module Shots {
  import opened Options
  import opened ByteStrings
  import opened Layers

  /** The MemTables, the files of each level, oldest first, and the writes in the log. */
  datatype Shot = Shot(active: Contents, size: nat, immutable: Option<Contents>, l0: seq<Contents>, l1: seq<Contents>,
                       writes: seq<(Bytes, Bytes)>)

  /** The engine as it is opened on a log. */
  ghost predicate IsFirst(s: Shot) {
    s.active == Replay(s.writes) && s.immutable == None && s.l0 == [] && s.l1 == []
  }

  lemma FirstShot(s: Shot, writes: seq<(Bytes, Bytes)>)
    requires s == Shot(Replay(writes), s.size, None, [], [], writes)
    ensures IsFirst(s)
  {
  }

  /** Put or Delete without the rotation; the size estimate grows only for a new key. */
  function Inserted(s: Shot, k: Bytes, v: Bytes): Shot {
    s.(active := s.active[k := v], size := if k in s.active then s.size else s.size + |k| + |v|,
       writes := s.writes + [(k, v)])
  }

  /** CheckFlush. */
  function Rotated(s: Shot, flushThreshold: nat): Shot {
    if s.size >= flushThreshold && s.immutable == None then s.(active := map[], size := 0,
        immutable := Some(s.active)) else s
  }

  /** Put, and Delete with an empty value. */
  function AfterPut(s: Shot, flushThreshold: nat, k: Bytes, v: Bytes): Shot {
    Rotated(Inserted(s, k, v), flushThreshold)
  }

  /** The union of tables, the newest (last) winning. */
  function Union(ls: seq<Contents>): Contents {
    if ls == [] then map[] else Union(ls[..|ls| - 1]) + ls[|ls| - 1]
  }

  /** A flush. */
  function Flushed(s: Shot): Shot {
    if s.immutable.Some? then s.(immutable := None, l0 := s.l0 + [s.immutable.value]) else s
  }

  /** A compaction of all of level 0, which drops the empty key. */
  function Merged(s: Shot): Shot {
    s.(l0 := [], l1 := s.l1 + [Union(s.l0) - {[]}])
  }

  /** One turn of the flush worker. */
  function AfterWork(s: Shot, compactionThreshold: nat): Shot {
    if s.immutable == None then s
    else if |s.l0| + 1 >= compactionThreshold then Merged(Flushed(s)) else Flushed(s)
  }

  /** The layers a read searches, the oldest first. */
  function LayersOf(s: Shot): seq<Contents> {
    s.l1 + s.l0 + (if s.immutable.Some? then [s.immutable.value] else []) + [s.active]
  }

  /** What a key reads as. */
  function ViewOf(s: Shot, k: Bytes): Option<Bytes> {
    Live(Newest(LayersOf(s), k))
  }

  // ---------------------------------------------------------- layered views

  lemma TopOf(ls: seq<Contents>, t: Contents, x: Bytes)
    ensures Newest(ls + [t], x) == if x in t then Some(t[x]) else Newest(ls, x)
  {
    assert (ls + [t])[..|ls|] == ls;
  }

  lemma InsertedViews(s: Shot, k: Bytes, v: Bytes)
    ensures forall x: Bytes :: ViewOf(Inserted(s, k, v), x) == if x == k then Live(Some(v)) else ViewOf(s, x)
  {
    var ls := s.l1 + s.l0 + if s.immutable.Some? then [s.immutable.value] else [];
    hide Newest, Live;
    forall x: Bytes
      ensures ViewOf(Inserted(s, k, v), x) == if x == k then Live(Some(v)) else ViewOf(s, x)
    {
      TopOf(ls, s.active, x);
      TopOf(ls, s.active[k := v], x);
    }
  }

  lemma RotatedViews(s: Shot, flushThreshold: nat)
    ensures forall x: Bytes :: ViewOf(Rotated(s, flushThreshold), x) == ViewOf(s, x)
  {
    var s' := Rotated(s, flushThreshold);
    hide Newest, Live;
    if s' != s {
      assert LayersOf(s) == s.l1 + s.l0 + [s.active];
      assert LayersOf(s') == LayersOf(s) + [map[]];
      forall x: Bytes ensures ViewOf(s', x) == ViewOf(s, x) {
        TopOf(LayersOf(s), map[], x);
      }
    }
  }

  lemma FlushedViews(s: Shot)
    ensures forall x: Bytes :: ViewOf(Flushed(s), x) == ViewOf(s, x)
  {
    assert LayersOf(Flushed(s)) == LayersOf(s);
  }

  lemma {:induction false} UnionAt(ls: seq<Contents>, k: Bytes)
    ensures At(Union(ls), k) == Newest(ls, k)
  {
    if ls != [] {
      UnionAt(ls[..|ls| - 1], k);
    }
  }

  lemma {:induction false} NoneInUnion(ls: seq<Contents>, k: Bytes)
    requires forall i :: 0 <= i < |ls| ==> k !in ls[i]
    ensures Newest(ls, k) == None
  {
    if ls != [] {
      NoneInUnion(ls[..|ls| - 1], k);
    }
  }

  /** Compaction keeps what every key reads as, except the empty key when level 0 has it. */
  lemma MergedViews(s: Shot)
    ensures forall x: Bytes :: x != [] || (forall i :: 0 <= i < |s.l0| ==> x !in s.l0[i]) ==>
              ViewOf(Merged(s), x) == ViewOf(s, x)
  {
    var rest := (if s.immutable.Some? then [s.immutable.value] else []) + [s.active];
    var file := Union(s.l0) - {[]};
    assert LayersOf(s) == s.l1 + s.l0 + rest && LayersOf(Merged(s)) == s.l1 + [file] + rest;
    forall x: Bytes | x != [] || forall i :: 0 <= i < |s.l0| ==> x !in s.l0[i]
      ensures ViewOf(Merged(s), x) == ViewOf(s, x)
    {
      UnionAt(s.l0, x);
      if x == [] {
        NoneInUnion(s.l0, x);
      }
      hide Newest, Live, Union;
      NewestConcat(s.l1 + [file], rest, x);
      NewestConcat(s.l1 + s.l0, rest, x);
      NewestConcat(s.l1, s.l0, x);
      TopOf(s.l1, file, x);
    }
  }
}
