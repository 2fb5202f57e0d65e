/** Byte strings, their bytes.Compare order, and big-endian integers. */
module ByteStrings {

  type byte = b: int | 0 <= b < 256
  type Bytes = seq<byte>

  // --------------------------------------------------------------- slices

  lemma SubSlice<T>(s: seq<T>, lo: nat, hi: nat, i: nat, j: nat)
    requires i <= j <= hi - lo && lo <= hi <= |s|
    ensures s[lo..hi][i..j] == s[lo + i..lo + j]
  {
    var a, b := s[lo..hi][i..j], s[lo + i..lo + j];
    assert |a| == |b|;
    forall x | 0 <= x < |a| ensures a[x] == b[x] {
      assert a[x] == s[lo..hi][i + x] == s[lo + i + x];
    }
  }

  lemma JoinSlices<T>(s: seq<T>, i: nat, j: nat, k: nat)
    requires i <= j <= k <= |s|
    ensures s[i..j] + s[j..k] == s[i..k]
  {
  }

  lemma Middle<T>(a: seq<T>, b: seq<T>, c: seq<T>)
    ensures (a + b + c)[|a|..|a| + |b|] == b
  {
  }

  // ---------------------------------------------------------------- order

  /** bytes.Compare(a, b) < 0: lexicographic order, a proper prefix first. */
  predicate Less(a: Bytes, b: Bytes) {
    b != [] && (a == [] || a[0] < b[0] || (a[0] == b[0] && Less(a[1..], b[1..])))
  }

  predicate AtMost(a: Bytes, b: Bytes) {
    a == b || Less(a, b)
  }

  lemma {:induction false} LessIrreflexive(a: Bytes)
    ensures !Less(a, a)
  {
    if a != [] {
      LessIrreflexive(a[1..]);
    }
  }

  lemma {:induction false} LessTransitive(a: Bytes, b: Bytes, c: Bytes)
    requires Less(a, b) && Less(b, c)
    ensures Less(a, c)
  {
    if a != [] && a[0] == b[0] == c[0] {
      LessTransitive(a[1..], b[1..], c[1..]);
    }
  }

  lemma {:induction false} LessTotal(a: Bytes, b: Bytes)
    ensures a == b || Less(a, b) || Less(b, a)
  {
    if a != [] && b != [] && a[0] == b[0] {
      LessTotal(a[1..], b[1..]);
      if a[1..] == b[1..] {
        assert a == [a[0]] + a[1..] == b;
      }
    }
  }

  /** a and b agree up to position n, and there a ends or has the smaller byte. */
  ghost predicate DiffersAt(a: Bytes, b: Bytes, n: nat) {
    && n <= |a| && n < |b| && a[..n] == b[..n]
    && (n == |a| || a[n] < b[n])
  }

  lemma SameFirst(a: Bytes, b: Bytes, n: nat)
    requires DiffersAt(a, b, n)
    ensures n > 0 ==> a != [] && b != [] && a[0] == b[0]
  {
    if n > 0 {
      assert a[0] == a[..n][0] == b[..n][0] == b[0];
    }
  }

  /** Less is bytes.Compare: at the first position where the two differ, a has ended or has the smaller byte. */
  lemma {:induction false} LessIsCompare(a: Bytes, b: Bytes)
    ensures Less(a, b) <==> exists n: nat :: DiffersAt(a, b, n)
  {
    if a == [] || b == [] || a[0] != b[0] {
      if a == [] && b != [] {
        assert DiffersAt(a, b, 0);
      } else if a != [] && b != [] && a[0] < b[0] {
        assert DiffersAt(a, b, 0);
      }
      forall n: nat | DiffersAt(a, b, n) ensures n == 0 {
        SameFirst(a, b, n);
      }
    } else {
      LessIsCompare(a[1..], b[1..]);
      if n: nat :| DiffersAt(a, b, n) {
        assert n > 0;
        assert a[1..][..n - 1] == a[..n][1..] && b[1..][..n - 1] == b[..n][1..];
        assert DiffersAt(a[1..], b[1..], n - 1);
      }
      if n: nat :| DiffersAt(a[1..], b[1..], n) {
        assert a[..n + 1] == [a[0]] + a[1..][..n] && b[..n + 1] == [b[0]] + b[1..][..n];
        assert DiffersAt(a, b, n + 1);
      }
    }
  }

  lemma LessAsymmetric(a: Bytes, b: Bytes)
    requires Less(a, b)
    ensures !Less(b, a) && a != b
  {
    LessIrreflexive(a);
    if Less(b, a) {
      LessTransitive(a, b, a);
    }
  }

  // ------------------------------------------------------------ big endian

  /** binary.BigEndian.PutUintN: the low `width` bytes of n, so a value too large for the field is truncated. */
  function PutBE(n: nat, width: nat): (b: Bytes)
    ensures |b| == width
  {
    if width == 0 then [] else PutBE(n / 256, width - 1) + [n % 256]
  }

  /** binary.BigEndian.UintN. */
  function GetBE(b: Bytes): nat {
    if b == [] then 0 else GetBE(b[..|b| - 1]) * 256 + b[|b| - 1]
  }

  function Pow256(width: nat): nat {
    if width == 0 then 1 else 256 * Pow256(width - 1)
  }

  /** Reading a field back gives the value modulo the field's range. */
  lemma {:induction false} GetPut(n: nat, width: nat)
    ensures Pow256(width) > 0 && GetBE(PutBE(n, width)) == n % Pow256(width)
  {
    if width != 0 {
      GetPut(n / 256, width - 1);
      var b := PutBE(n, width);
      assert b[..|b| - 1] == PutBE(n / 256, width - 1);
      ModSplit(n, Pow256(width - 1));
    }
  }

  /** Byte i of a field is digit width - 1 - i of the value to base 256: the most significant byte comes first. */
  lemma {:induction false} PutBytes(n: nat, width: nat, i: nat)
    requires i < width
    ensures Pow256(width - 1 - i) > 0 && PutBE(n, width)[i] == n / Pow256(width - 1 - i) % 256
  {
    PowPositive(width - 1 - i);
    if i < width - 1 {
      PutBytes(n / 256, width - 1, i);
      PowPositive(width - 2 - i);
      DivTwice(n, 256, Pow256(width - 2 - i));
    }
  }

  lemma {:induction false} PowPositive(n: nat)
    ensures Pow256(n) > 0
  {
    if n > 0 {
      PowPositive(n - 1);
    }
  }

  lemma DivTwice(n: nat, a: nat, b: nat)
    requires a > 0 && b > 0
    ensures a * b > 0 && n / a / b == n / (a * b)
  {
    var m := n / a;
    var q, r, s := m / b, m % b, n % a;
    MulAtLeast(a, b);
    Euclid(n, a);
    Euclid(m, b);
    Distribute(a, b * q, r);
    Associate(a, b, q);
    MulMonotone(a, r + 1, b);
    Distribute(a, r, 1);
    QuotientUnique(n, a * b, q, a * r + s);
  }

  lemma Euclid(n: nat, d: nat)
    requires d > 0
    ensures n == d * (n / d) + n % d && n % d < d
  {
  }

  lemma Distribute(a: nat, x: nat, y: nat)
    ensures a * (x + y) == a * x + a * y
  {
  }

  lemma Associate(a: nat, b: nat, c: nat)
    ensures a * (b * c) == (a * b) * c
  {
  }

  lemma {:induction false} MulMonotone(a: nat, x: nat, y: nat)
    requires x <= y
    ensures a * x <= a * y
    decreases y
  {
    if x < y {
      MulMonotone(a, x, y - 1);
      assert a * y == a * (y - 1) + a;
    }
  }

  lemma QuotientUnique(n: nat, m: nat, q: nat, r: nat)
    requires m > 0 && r < m && n == m * q + r
    ensures n / m == q
  {
    ModUnique(n, m, q, r);
    var d: int := n / m - q;
    assert m * d == 0;
    if d != 0 {
      MulFar(m, d);
      assert false;
    }
  }

  /** Writing a field that was read gives back its bytes. */
  lemma {:induction false} PutGet(b: Bytes)
    ensures PutBE(GetBE(b), |b|) == b
  {
    if b != [] {
      PutGet(b[..|b| - 1]);
      assert b == b[..|b| - 1] + [b[|b| - 1]];
    }
  }

  lemma ModSplit(n: nat, m: nat)
    requires m > 0
    ensures n % (256 * m) == (n / 256 % m) * 256 + n % 256
  {
    var q, r := n / 256 / m, n / 256 % m;
    assert n / 256 == m * q + r;
    assert n == 256 * (n / 256) + n % 256;
    assert n == (256 * m) * q + (256 * r + n % 256) by {
      assert 256 * (m * q) == (256 * m) * q;
    }
    var low := 256 * r + n % 256;
    assert 0 <= low < 256 * m;
    ModUnique(n, 256 * m, q, low);
  }

  lemma ModUnique(n: nat, m: nat, q: nat, r: nat)
    requires m > 0 && r < m && n == m * q + r
    ensures n % m == r
  {
    var d: int := n / m - q;
    assert n % m - r == 0 - m * d;
    if d != 0 {
      MulFar(m, d);
      assert false;
    }
  }

  lemma MulFar(m: int, d: int)
    requires m > 0 && d != 0
    ensures m * d >= m || m * d <= -m
  {
    if d > 0 {
      MulAtLeast(m, d);
    } else {
      MulAtLeast(m, -d);
      assert m * d == -(m * -d);
    }
  }

  lemma {:induction false} MulAtLeast(m: int, d: int)
    requires m > 0 && d > 0
    ensures m * d >= m
    decreases d
  {
    if d > 1 {
      MulAtLeast(m, d - 1);
      assert m * d == m * (d - 1) + m;
    }
  }

  lemma FieldRanges()
    ensures Pow256(1) == 0x100 && Pow256(2) == 0x1_0000
    ensures Pow256(4) == 0x1_0000_0000 && Pow256(8) == 0x1_0000_0000_0000_0000
  {
    assert Pow256(0) == 1;
    assert Pow256(1) == 0x100;
    assert Pow256(2) == 0x1_0000;
    assert Pow256(3) == 0x100_0000;
    assert Pow256(4) == 0x1_0000_0000;
    assert Pow256(5) == 0x100_0000_0000;
    assert Pow256(6) == 0x1_0000_0000_0000;
    assert Pow256(7) == 0x100_0000_0000_0000;
  }

  lemma GetPut16(n: nat)
    ensures GetBE(PutBE(n, 2)) == n % 0x1_0000
  {
    GetPut(n, 2);
    FieldRanges();
  }

  lemma GetPut32(n: nat)
    ensures GetBE(PutBE(n, 4)) == n % 0x1_0000_0000
  {
    GetPut(n, 4);
    FieldRanges();
  }

  lemma GetPut64(n: nat)
    ensures GetBE(PutBE(n, 8)) == n % 0x1_0000_0000_0000_0000
  {
    GetPut(n, 8);
    FieldRanges();
  }

  lemma {:induction false} GetBound(b: Bytes)
    ensures GetBE(b) < Pow256(|b|)
  {
    if b != [] {
      GetBound(b[..|b| - 1]);
    }
  }
}
