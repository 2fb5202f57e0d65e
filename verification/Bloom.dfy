/** The Bloom filter embedded in every SSTable (internal/engine/bloom.go). */
module Bloom {
  import opened Options
  import opened ByteStrings

  const TWO64 := 0x1_0000_0000_0000_0000
  const TWO32 := 0x1_0000_0000

  type Word = w: int | 0 <= w < TWO64
  type Hash = Bytes -> Word

  /** The parameters NewBloomFilter chose: k probes into m bits; `fnv` is the 64-bit FNV-1a sum. */
  datatype Shape = Shape(fnv: Hash, m: nat, k: nat) {
    /** m is positive and m + 63 does not wrap; k is a byte. */
    predicate Valid() {
      0 < m <= TWO64 - 64 && k < 256
    }

    function Words(): nat {
      (m + 63) / 64
    }
  }

  // ------------------------------------------------------------ single bits

  /** Bit b of a word: w & (1 << b) != 0. */
  predicate Bit(w: nat, b: nat) {
    if b == 0 then w % 2 == 1 else Bit(w / 2, b - 1)
  }

  /** w | (1 << b). */
  function SetBit(w: nat, b: nat): nat {
    if b == 0 then (if w % 2 == 1 then w else w + 1) else 2 * SetBit(w / 2, b - 1) + w % 2
  }

  function Pow2(n: nat): nat {
    if n == 0 then 1 else 2 * Pow2(n - 1)
  }

  lemma {:induction false} BitOfSetBit(w: nat, b: nat, c: nat)
    ensures Bit(SetBit(w, b), c) == (Bit(w, c) || b == c)
  {
    if b != 0 && c != 0 {
      BitOfSetBit(w / 2, b - 1, c - 1);
    }
  }

  /** Bit b of a word is its digit of weight 2^b. */
  lemma {:induction false} BitIsDigit(w: nat, b: nat)
    ensures Pow2(b) > 0 && (Bit(w, b) <==> w / Pow2(b) % 2 == 1)
  {
    if b > 0 {
      BitIsDigit(w / 2, b - 1);
      DivTwice(w, 2, Pow2(b - 1));
    }
  }

  lemma {:induction false} SetBitBound(w: nat, b: nat, n: nat)
    requires w < Pow2(n) && b < n
    ensures SetBit(w, b) < Pow2(n)
  {
    if b != 0 {
      SetBitBound(w / 2, b - 1, n - 1);
    }
  }

  lemma Pow2Of64()
    ensures Pow2(64) == TWO64
  {
    assert Pow2(8) == 256;
    assert Pow2(16) == 0x1_0000;
    assert Pow2(24) == 0x100_0000;
    assert Pow2(32) == 0x1_0000_0000;
    assert Pow2(40) == 0x100_0000_0000;
    assert Pow2(48) == 0x1_0000_0000_0000;
    assert Pow2(56) == 0x100_0000_0000_0000;
  }

  /** The word update as the code does it stays a 64-bit word. */
  function OrBit(w: Word, b: nat): Word
    requires b < 64
  {
    Pow2Of64();
    SetBitBound(w, b, 64);
    SetBit(w, b)
  }

  // ------------------------------------------------------- indexes of a key

  /** (uint64(h1) + uint64(i) * uint64(h2)) % m in 64-bit arithmetic, h1 and h2 the halves of the hash. */
  function Index(shape: Shape, key: Bytes, i: nat): nat
    requires shape.m > 0
  {
    var sum := shape.fnv(key);
    var h1, h2 := sum % TWO32, sum / TWO32;
    (h1 + i * h2 % TWO64) % TWO64 % shape.m
  }

  lemma {:induction false} ProductBound(i: nat, n: nat, h: nat)
    requires i <= n
    ensures 0 <= i * h <= n * h
    decreases n
  {
    if i < n {
      ProductBound(i, n - 1, h);
      assert n * h == (n - 1) * h + h;
    }
  }

  lemma NoWrap(h1: nat, product: nat)
    requires h1 < TWO32 && product <= 255 * TWO32
    ensures (h1 + product % TWO64) % TWO64 == h1 + product
  {
  }

  lemma WordOf(idx: nat, m: nat)
    requires idx < m
    ensures idx / 64 < (m + 63) / 64
  {
  }

  /** Neither the product nor the sum wraps, and the index is inside the filter. */
  lemma IndexExact(shape: Shape, key: Bytes, i: nat)
    requires shape.Valid() && i < shape.k
    ensures Index(shape, key, i) == (shape.fnv(key) % TWO32 + i * (shape.fnv(key) / TWO32)) % shape.m
    ensures Index(shape, key, i) < shape.m && Index(shape, key, i) / 64 < shape.Words()
  {
    var h1, h2 := shape.fnv(key) % TWO32, shape.fnv(key) / TWO32;
    ProductBound(i, 255, h2);
    NoWrap(h1, i * h2);
    WordOf(Index(shape, key, i), shape.m);
  }

  /** Bit idx of the whole filter. */
  predicate Has(bits: seq<Word>, idx: nat)
    requires idx / 64 < |bits|
  {
    Bit(bits[idx / 64], idx % 64)
  }

  function Mark(bits: seq<Word>, idx: nat): (r: seq<Word>)
    requires idx / 64 < |bits|
    ensures |r| == |bits|
  {
    bits[idx / 64 := OrBit(bits[idx / 64], idx % 64)]
  }

  lemma HasOfMark(bits: seq<Word>, idx: nat, x: nat)
    requires idx / 64 < |bits| && x / 64 < |bits|
    ensures Has(Mark(bits, idx), x) == (Has(bits, x) || x == idx)
  {
    BitOfSetBit(bits[idx / 64], idx % 64, x % 64);
  }

  /** The bits after the first n probes of `key` are set. */
  function MarkKey(shape: Shape, bits: seq<Word>, key: Bytes, n: nat): (r: seq<Word>)
    requires shape.Valid() && |bits| == shape.Words() && n <= shape.k
    ensures |r| == |bits|
  {
    if n == 0 then bits
    else
      IndexExact(shape, key, n - 1);
      Mark(MarkKey(shape, bits, key, n - 1), Index(shape, key, n - 1))
  }

  /** bf.Contains. */
  ghost predicate MayContain(shape: Shape, bits: seq<Word>, key: Bytes)
    requires shape.Valid() && |bits| == shape.Words()
  {
    forall i :: 0 <= i < shape.k ==>
      Index(shape, key, i) / 64 < |bits| && Has(bits, Index(shape, key, i))
  }

  /** The filter of a list of keys, added one after the other to an empty filter. */
  function AddAll(shape: Shape, keys: seq<Bytes>): (r: seq<Word>)
    requires shape.Valid()
    ensures |r| == shape.Words()
  {
    if keys == [] then seq(shape.Words(), _ => 0)
    else MarkKey(shape, AddAll(shape, keys[..|keys| - 1]), keys[|keys| - 1], shape.k)
  }

  lemma {:induction false} MarkKeyBits(shape: Shape, bits: seq<Word>, key: Bytes, n: nat, x: nat)
    requires shape.Valid() && |bits| == shape.Words() && n <= shape.k && x / 64 < |bits|
    ensures Has(MarkKey(shape, bits, key, n), x) ==
              (Has(bits, x) || exists i :: 0 <= i < n && Index(shape, key, i) == x)
  {
    if n > 0 {
      IndexExact(shape, key, n - 1);
      MarkKeyBits(shape, bits, key, n - 1, x);
      HasOfMark(MarkKey(shape, bits, key, n - 1), Index(shape, key, n - 1), x);
    }
  }

  /** A bit of the filter is set exactly when it is a probe of one of the added keys. */
  lemma {:induction false} AddAllBits(shape: Shape, keys: seq<Bytes>, x: nat)
    requires shape.Valid() && x < shape.m
    ensures x / 64 < shape.Words()
    ensures Has(AddAll(shape, keys), x) <==>
            exists j, i :: 0 <= j < |keys| && 0 <= i < shape.k && Index(shape, keys[j], i) == x
  {
    if keys == [] {
      ZeroBits(x % 64);
    } else {
      var init, last := keys[..|keys| - 1], keys[|keys| - 1];
      AddAllBits(shape, init, x);
      MarkKeyBits(shape, AddAll(shape, init), last, shape.k, x);
      if exists i :: 0 <= i < shape.k && Index(shape, last, i) == x {
        var i :| 0 <= i < shape.k && Index(shape, last, i) == x;
        assert Index(shape, keys[|keys| - 1], i) == x;
      }
      if exists j, i :: 0 <= j < |init| && 0 <= i < shape.k && Index(shape, init[j], i) == x {
        var j, i :| 0 <= j < |init| && 0 <= i < shape.k && Index(shape, init[j], i) == x;
        assert Index(shape, keys[j], i) == x;
      }
      if exists j, i :: 0 <= j < |keys| && 0 <= i < shape.k && Index(shape, keys[j], i) == x {
        var j, i :| 0 <= j < |keys| && 0 <= i < shape.k && Index(shape, keys[j], i) == x;
        assert j < |init| ==> Index(shape, init[j], i) == x;
      }
    }
  }

  lemma {:induction false} ZeroBits(b: nat)
    ensures !Bit(0, b)
  {
    if b != 0 {
      ZeroBits(b - 1);
    }
  }

  /** No false negatives: every added key passes Contains, whatever was added before and after it. */
  lemma NoFalseNegatives(shape: Shape, keys: seq<Bytes>, key: Bytes)
    requires shape.Valid() && key in keys
    ensures MayContain(shape, AddAll(shape, keys), key)
  {
    var j :| 0 <= j < |keys| && keys[j] == key;
    forall i | 0 <= i < shape.k
      ensures Index(shape, key, i) / 64 < shape.Words() && Has(AddAll(shape, keys), Index(shape, key, i))
    {
      IndexExact(shape, key, i);
      AddAllBits(shape, keys, Index(shape, key, i));
      assert Index(shape, keys[j], i) == Index(shape, key, i);
    }
  }

  /** Probe i of the key is a probe of some added key. */
  ghost predicate Probed(shape: Shape, keys: seq<Bytes>, key: Bytes, i: nat)
    requires shape.m > 0
  {
    exists j, n :: 0 <= j < |keys| && 0 <= n < shape.k && Index(shape, keys[j], n) == Index(shape, key, i)
  }

  lemma ProbeOfAdded(shape: Shape, keys: seq<Bytes>, key: Bytes, i: nat)
    requires shape.Valid() && i < shape.k
    ensures var x := Index(shape, key, i);
            x / 64 < shape.Words() && (Has(AddAll(shape, keys), x) <==> Probed(shape, keys, key, i))
  {
    hide Has, AddAll;
    IndexExact(shape, key, i);
    AddAllBits(shape, keys, Index(shape, key, i));
    hide Index;
  }

  /** A key passes Contains if and only if each of its probes is a probe of some added key. */
  lemma MayContainExactly(shape: Shape, keys: seq<Bytes>, key: Bytes)
    requires shape.Valid()
    ensures MayContain(shape, AddAll(shape, keys), key) <==>
            forall i :: 0 <= i < shape.k ==> Probed(shape, keys, key, i)
  {
    hide Index, Has, AddAll, Probed;
    var bits := AddAll(shape, keys);
    forall i | 0 <= i < shape.k
      ensures Index(shape, key, i) / 64 < |bits| && (Has(bits, Index(shape, key, i)) <==> Probed(shape, keys, key, i))
    {
      ProbeOfAdded(shape, keys, key, i);
    }
  }

  // ------------------------------------------------------------ serialization

  function EncodeWords(bits: seq<Word>): (b: Bytes)
    ensures |b| == 8 * |bits|
  {
    if bits == [] then [] else EncodeWords(bits[..|bits| - 1]) + PutBE(bits[|bits| - 1], 8)
  }

  /** k, m and the words, big endian. */
  function Encoded(k: nat, m: nat, bits: seq<Word>): Bytes {
    PutBE(k, 1) + PutBE(m, 8) + EncodeWords(bits)
  }

  lemma {:induction false} WordAt(bits: seq<Word>, i: nat)
    requires i < |bits|
    ensures EncodeWords(bits)[8 * i..8 * i + 8] == PutBE(bits[i], 8)
  {
    var init := bits[..|bits| - 1];
    if i < |init| {
      WordAt(init, i);
      assert EncodeWords(bits)[8 * i..8 * i + 8] == EncodeWords(init)[8 * i..8 * i + 8];
    }
  }

  /** The number of words DecodeBloomFilter reads for m bits, in 64-bit arithmetic. */
  function WordCount(m: Word): nat {
    (m + 63) % TWO64 / 64
  }

  /** They hold all m bits and less than 64 more, unless m + 63 wraps. */
  lemma WordCountIs(m: Word)
    ensures m <= TWO64 - 64 ==> m <= 64 * WordCount(m) < m + 64
    ensures m > TWO64 - 64 ==> WordCount(m) == 0
  {
  }

  /** `data` starts with an encoding of k, m and the words. */
  ghost predicate Parses(data: Bytes, k: nat, m: nat, bits: seq<Word>) {
    && |data| >= 9 + 8 * |bits|
    && GetBE(data[..1]) == k && GetBE(data[1..9]) == m
    && forall i :: 0 <= i < |bits| ==> GetBE(data[9 + 8 * i..17 + 8 * i]) == bits[i]
  }

  lemma HeaderParses(k: nat, m: nat, rest: Bytes)
    requires k < 256 && m < TWO64
    ensures var b := PutBE(k, 1) + PutBE(m, 8) + rest; GetBE(b[..1]) == k && GetBE(b[1..9]) == m
  {
    var b := PutBE(k, 1) + PutBE(m, 8) + rest;
    assert b[..1] == PutBE(k, 1) && b[1..9] == PutBE(m, 8);
    GetPut(k, 1);
    FieldRanges();
    GetPut64(m);
  }

  lemma WordParses(header: Bytes, bits: seq<Word>, i: nat)
    requires |header| == 9 && i < |bits|
    ensures GetBE((header + EncodeWords(bits))[9 + 8 * i..17 + 8 * i]) == bits[i]
  {
    hide PutBE, GetBE, EncodeWords;
    var at := 8 * i;
    WordAt(bits, i);
    WordField(bits[i]);
    Behind(header, EncodeWords(bits), at, at + 8);
  }

  lemma WordField(w: Word)
    ensures GetBE(PutBE(w, 8)) == w
  {
    GetPut64(w);
    hide GetBE, PutBE;
  }

  lemma Behind(a: Bytes, b: Bytes, lo: nat, hi: nat)
    requires lo <= hi <= |b|
    ensures (a + b)[|a| + lo..|a| + hi] == b[lo..hi]
  {
  }

  // ------------------------------------------------------- bits in the bytes

  lemma {:induction false} Pow2Sum(a: nat, b: nat)
    ensures Pow2(a + b) == Pow2(a) * Pow2(b)
  {
    if a > 0 {
      Pow2Sum(a - 1, b);
      assert Pow2(a) * Pow2(b) == 2 * (Pow2(a - 1) * Pow2(b));
    }
  }

  lemma {:induction false} Pow2Of8(n: nat)
    ensures Pow2(8 * n) == Pow256(n)
  {
    if n > 0 {
      Pow2Of8(n - 1);
      Pow2Sum(8, 8 * (n - 1));
      assert Pow2(8) == 256;
    }
  }

  /** Cutting a number to eight bits keeps its eight lowest bits. */
  lemma {:induction false} LowBits(w: nat, n: nat, c: nat)
    requires c < n
    ensures Pow2(n) > 0 && (Bit(w % Pow2(n), c) <==> Bit(w, c))
  {
    Pow2Positive(n);
    Pow2Positive(n - 1);
    LowHalf(w, Pow2(n - 1));
    if c > 0 {
      LowBits(w / 2, n - 1, c - 1);
    }
  }

  lemma {:induction false} Pow2Positive(n: nat)
    ensures Pow2(n) > 0
  {
    if n > 0 {
      Pow2Positive(n - 1);
    }
  }

  lemma LowHalf(w: nat, m: nat)
    requires m > 0
    ensures w % (2 * m) / 2 == w / 2 % m && w % (2 * m) % 2 == w % 2
  {
    var q, r := w / 2 / m, w / 2 % m;
    assert w / 2 == m * q + r && w == 2 * (w / 2) + w % 2;
    assert w == (2 * m) * q + (2 * r + w % 2) by {
      assert 2 * (m * q) == (2 * m) * q;
    }
    ModUnique(w, 2 * m, q, 2 * r + w % 2);
  }

  lemma {:induction false} ShiftedBit(w: nat, a: nat, p: nat, q: nat, c: nat)
    requires p == Pow2(a) && p > 0 && q == w / p
    ensures Bit(q, c) <==> Bit(w, a + c)
  {
    if a > 0 {
      Pow2Positive(a - 1);
      DivTwice(w, 2, Pow2(a - 1));
      ShiftedBit(w / 2, a - 1, Pow2(a - 1), q, c);
    }
  }

  /** Bit b of a word, in the byte that PutUint64 writes it to. */
  lemma ByteOfWord(w: Word, b: nat)
    requires b < 64
    ensures Bit(w, b) <==> Bit(PutBE(w, 8)[7 - b / 8], b % 8)
  {
    hide PutBE, Bit, Pow2, Pow256;
    var n := b / 8;
    PutBytes(w, 8, 7 - n);
    Pow2Of8(n);
    ShiftedBit(w, 8 * n, Pow256(n), w / Pow256(n), b % 8);
    LowBits(w / Pow256(n), 8, b % 8);
    Pow2Of8(1);
    FieldRanges();
  }

  /** Where a bit of the filter is in the bytes Encode writes: words in order, each with its highest byte first. */
  lemma EncodedBit(k: nat, m: nat, bits: seq<Word>, idx: nat)
    requires idx / 64 < |bits|
    ensures var at := 9 + 8 * (idx / 64) + 7 - idx % 64 / 8;
            at < |Encoded(k, m, bits)| && (Has(bits, idx) <==> Bit(Encoded(k, m, bits)[at], idx % 8))
  {
    hide PutBE, EncodeWords, Bit;
    var i, b := idx / 64, idx % 64;
    var n := b / 8;
    WordAt(bits, i);
    ByteOfWord(bits[i], b);
    var header := PutBE(k, 1) + PutBE(m, 8);
    assert EncodeWords(bits)[8 * i..8 * i + 8][7 - n] == EncodeWords(bits)[8 * i + 7 - n];
    assert Encoded(k, m, bits) == header + EncodeWords(bits);
    assert Encoded(k, m, bits)[9 + (8 * i + 7 - n)] == EncodeWords(bits)[8 * i + 7 - n];
    assert idx % 8 == b % 8;
  }

  lemma EncodedParses(k: nat, m: nat, bits: seq<Word>)
    requires k < 256 && m < TWO64
    ensures Parses(Encoded(k, m, bits), k, m, bits)
  {
    HeaderParses(k, m, EncodeWords(bits));
    hide PutBE, GetBE;
    forall i | 0 <= i < |bits| ensures GetBE(Encoded(k, m, bits)[9 + 8 * i..17 + 8 * i]) == bits[i] {
      WordParses(PutBE(k, 1) + PutBE(m, 8), bits, i);
    }
  }

  /** Decoding what Encode wrote gives the same filter back. */
  lemma DecodeOfEncode(shape: Shape, bits: seq<Word>, k: nat, m: Word, words: seq<Word>)
    requires shape.Valid() && |bits| == shape.Words()
    requires Parses(Encoded(shape.k, shape.m, bits), k, m, words) && |words| == WordCount(m)
    ensures k == shape.k && m == shape.m && words == bits
  {
    EncodedParses(shape.k, shape.m, bits);
  }

  datatype DecodeError = TooShort | Truncated

  class BloomFilter {
    const fnv: Hash
    const k: nat
    const m: nat
    var bits: array<Word>

    ghost function TheShape(): Shape {
      Shape(fnv, m, k)
    }

    ghost predicate Valid()
      reads this, bits
    {
      TheShape().Valid() && bits.Length == TheShape().Words()
    }

    /** NewBloomFilter, its size and probe count given. */
    constructor Empty(shape: Shape)
      requires shape.Valid()
      ensures Valid() && TheShape() == shape && fresh(bits) && bits[..] == AddAll(shape, [])
    {
      fnv, m, k := shape.fnv, shape.m, shape.k;
      bits := new Word[shape.Words()](_ => 0);
    }

    constructor Of(fnv: Hash, m: nat, k: nat, bits: array<Word>)
      ensures this.fnv == fnv && this.m == m && this.k == k && this.bits == bits
    {
      this.fnv, this.m, this.k, this.bits := fnv, m, k, bits;
    }

    method Add(key: Bytes)
      requires Valid()
      modifies bits
      ensures Valid() && bits[..] == MarkKey(TheShape(), old(bits[..]), key, k)
    {
      var i := 0;
      while i < k
        invariant i <= k && bits[..] == MarkKey(TheShape(), old(bits[..]), key, i)
      {
        IndexExact(TheShape(), key, i);
        var idx := Index(Shape(fnv, m, k), key, i);
        ghost var before := bits[..];
        bits[idx / 64] := OrBit(bits[idx / 64], idx % 64);
        assert bits[..] == Mark(before, idx);
        i := i + 1;
      }
    }

    method Contains(key: Bytes) returns (b: bool)
      requires Valid()
      ensures b == MayContain(TheShape(), bits[..], key)
    {
      var i := 0;
      while i < k
        invariant i <= k
        invariant forall j :: 0 <= j < i ==>
          Index(TheShape(), key, j) / 64 < bits.Length && Has(bits[..], Index(TheShape(), key, j))
      {
        IndexExact(TheShape(), key, i);
        var idx := Index(Shape(fnv, m, k), key, i);
        if !Bit(bits[idx / 64], idx % 64) {
          assert !Has(bits[..], Index(TheShape(), key, i));
          return false;
        }
        i := i + 1;
      }
      return true;
    }

    method Encode() returns (buf: Bytes)
      ensures buf == Encoded(k, m, bits[..])
    {
      buf := PutBE(k, 1) + PutBE(m, 8);
      var i := 0;
      while i < bits.Length
        invariant i <= bits.Length && buf == PutBE(k, 1) + PutBE(m, 8) + EncodeWords(bits[..i])
      {
        assert bits[..i + 1][..i] == bits[..i];
        buf := buf + PutBE(bits[i], 8);
        i := i + 1;
      }
      assert bits[..i] == bits[..];
    }

    /** DecodeBloomFilter: bytes after the last word are ignored. */
    static method Decode(fnv: Hash, data: Bytes) returns (r: Result<BloomFilter, DecodeError>)
      ensures |data| < 9 ==> r == Err(TooShort)
      ensures |data| >= 9 ==>
                GetBE(data[1..9]) < TWO64 && (r.Ok? <==> |data| >= 9 + 8 * WordCount(GetBE(data[1..9])))
      ensures r.Ok? ==>
                && fresh(r.value) && fresh(r.value.bits) && r.value.fnv == fnv && r.value.k < 256 && r.value.m < TWO64
                && r.value.bits.Length == WordCount(r.value.m)
                && Parses(data, r.value.k, r.value.m, r.value.bits[..])
    {
      if |data| < 9 {
        return Err(TooShort);
      }
      GetBound(data[..1]);
      GetBound(data[1..9]);
      FieldRanges();
      var k, m := GetBE(data[..1]), GetBE(data[1..9]);
      var n := WordCount(m);
      var bits := new Word[n](_ => 0);
      var offset, i := 9, 0;
      while i < n
        invariant i <= n && offset == 9 + 8 * i <= |data|
        invariant forall j :: 0 <= j < i ==> bits[j] == GetBE(data[9 + 8 * j..17 + 8 * j])
      {
        if offset + 8 > |data| {
          return Err(Truncated);
        }
        GetBound(data[offset..offset + 8]);
        FieldRanges();
        bits[i] := GetBE(data[offset..offset + 8]);
        offset, i := offset + 8, i + 1;
      }
      var bf := new BloomFilter.Of(fnv, m, k, bits);
      r := Ok(bf);
    }
  }
}
