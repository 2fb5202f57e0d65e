/** The layered view of an LSM tree: a stack of maps in which the newest layer that names a key wins. */
module Layers {
  import opened Options
  import opened ByteStrings

  type Contents = map<Bytes, Bytes>

  function At(m: Contents, k: Bytes): Option<Bytes> {
    if k in m then Some(m[k]) else None
  }

  /** Oldest layer first; the search runs from the end, as the read path does. */
  function Newest(layers: seq<Contents>, k: Bytes): Option<Bytes> {
    if layers == [] then None
    else
      var last := layers[|layers| - 1];
      if k in last then Some(last[k]) else Newest(layers[..|layers| - 1], k)
  }

  /** A missing key and a zero-length value (a tombstone) read the same. */
  function Live(x: Option<Bytes>): Option<Bytes> {
    if x == Some([]) then None else x
  }

  lemma {:induction false} NewestConcat(a: seq<Contents>, b: seq<Contents>, k: Bytes)
    ensures Newest(a + b, k) == if Newest(b, k).Some? then Newest(b, k) else Newest(a, k)
  {
    if b == [] {
      assert a + b == a;
    } else {
      assert (a + b)[..|a + b| - 1] == a + b[..|b| - 1];
      NewestConcat(a, b[..|b| - 1], k);
    }
  }

  /** Left-to-right replay of writes into an empty table. */
  function Replay(log: seq<(Bytes, Bytes)>): Contents {
    if log == [] then map[]
    else
      var (k, v) := log[|log| - 1];
      Replay(log[..|log| - 1])[k := v]
  }

  /** Maps that answer alike for every key are equal. */
  lemma MapsEqual(a: Contents, b: Contents)
    requires forall k: Bytes :: At(a, k) == At(b, k)
    ensures a == b
  {
    forall k: Bytes ensures (k in a) == (k in b) && (k in a ==> a[k] == b[k]) {
      assert At(a, k) == At(b, k);
    }
    assert a.Keys == b.Keys;
  }
}
