/** The write-ahead log: record codec, buffered append and replay after a crash (internal/engine/wal.go). */
module Wal {
  import opened Options
  import opened ByteStrings
  import opened Layers
  import opened Entries
  import opened MemTables

  const MAGIC: byte := 0xA1
  const HEADER: nat := 12

  /** CRC-32 of a byte string; any deterministic function will do. */
  type Checksum = Bytes -> nat

  function Sum32(crc: Checksum, b: Bytes): (n: nat)
    ensures n < 0x1_0000_0000
  {
    crc(b) % 0x1_0000_0000
  }

  // ----------------------------------------------------------------- codec

  /** The seven header bytes the checksum covers. */
  function Fields(r: Entry): (b: Bytes)
    ensures |b| == 7
  {
    [r.op] + PutBE(|r.key|, 2) + PutBE(|r.val|, 4)
  }

  function Encode(crc: Checksum, r: Entry): (b: Bytes)
    ensures |b| == HEADER + |r.key| + |r.val|
  {
    [MAGIC] + PutBE(Sum32(crc, Fields(r) + r.key + r.val), 4) + Fields(r) + r.key + r.val
  }

  function EncodeAll(crc: Checksum, rs: seq<Entry>): Bytes {
    if rs == [] then [] else Encode(crc, rs[0]) + EncodeAll(crc, rs[1..])
  }

  /** What a record does to the table: a Delete stores an empty value. */
  function Effect(r: Entry): (Bytes, Bytes) {
    (r.key, if r.op == OP_DELETE then [] else r.val)
  }

  function Effects(rs: seq<Entry>): (ws: seq<(Bytes, Bytes)>)
    ensures |ws| == |rs| && forall i :: 0 <= i < |ws| ==> ws[i] == Effect(rs[i])
  {
    seq(|rs|, i requires 0 <= i < |rs| => Effect(rs[i]))
  }

  // ---------------------------------------------------------------- reading

  /** Why no record can be taken off the front of the remaining bytes. */
  datatype Taken = Whole(r: Entry, rest: Bytes) | Torn | BadMagic

  /** One turn of Recover's loop. */
  function Take(crc: Checksum, b: Bytes): (t: Taken)
    ensures t.Whole? ==> |t.rest| < |b|
  {
    if |b| < HEADER then Torn
    else if b[0] != MAGIC then BadMagic
    else
      var kl, vl := GetBE(b[6..8]), GetBE(b[8..12]);
      if |b| < HEADER + kl + vl then Torn
      else
        var key, val := b[HEADER..HEADER + kl], b[HEADER + kl..HEADER + kl + vl];
        if Sum32(crc, b[5..12] + key + val) != GetBE(b[1..5]) then Torn
        else Whole(Entry(b[5], key, val), b[HEADER + kl + vl..])
  }

  /** The records Recover takes off the front of a log. */
  function Readable(crc: Checksum, b: Bytes): seq<Entry>
    decreases |b|
  {
    match Take(crc, b)
    case Whole(r, rest) => [r] + Readable(crc, rest)
    case _ => []
  }

  /** What is left when no more records can be taken. */
  function Leftover(crc: Checksum, b: Bytes): Bytes
    decreases |b|
  {
    match Take(crc, b)
    case Whole(_, rest) => Leftover(crc, rest)
    case _ => b
  }

  lemma EncodeParts(crc: Checksum, r: Entry)
    ensures var b, k := Encode(crc, r), HEADER + |r.key|;
            && b[0] == MAGIC && b[1..5] == PutBE(Sum32(crc, Fields(r) + r.key + r.val), 4) && b[5..12] == Fields(r)
            && b[HEADER..k] == r.key && b[k..|b|] == r.val
            && b[5] == r.op && b[6..8] == PutBE(|r.key|, 2) && b[8..12] == PutBE(|r.val|, 4)
  {
    hide PutBE, Sum32;
    var sum, fields := PutBE(Sum32(crc, Fields(r) + r.key + r.val), 4), Fields(r);
    var head := [MAGIC] + sum + fields;
    assert head[1..5] == sum && head[5..12] == fields;
    assert fields[1..3] == PutBE(|r.key|, 2) && fields[3..7] == PutBE(|r.val|, 4);
    var b := head + r.key + r.val;
    assert b == Encode(crc, r) && b[..12] == head;
    SubSlice(b, 0, 12, 1, 5);
    SubSlice(b, 0, 12, 5, 12);
    assert b[0..12] == head;
    SubSlice(b, 5, 12, 1, 3);
    SubSlice(b, 5, 12, 3, 7);
    assert b[5] == b[5..12][0];
  }

  /** Taking a record back off the front of whatever follows it. */
  lemma TakeEncoded(crc: Checksum, r: Entry, tail: Bytes)
    requires Fits(r)
    ensures Take(crc, Encode(crc, r) + tail) == Whole(r, tail)
  {
    hide PutBE, GetBE, Sum32, Fields;
    var e := Encode(crc, r);
    var b := e + tail;
    EncodeParts(crc, r);
    GetPut16(|r.key|);
    GetPut32(|r.val|);
    GetPut32(Sum32(crc, Fields(r) + r.key + r.val));
    hide Encode;
    FrontSlices(e, tail, HEADER + |r.key|);
    assert b[|e|..] == tail;
  }

  lemma FrontSlices(e: Bytes, tail: Bytes, k: nat)
    requires HEADER <= k <= |e|
    ensures var b := e + tail;
            && b[0] == e[0] && b[5] == e[5] && b[1..5] == e[1..5] && b[5..12] == e[5..12] && b[6..8] == e[6..8]
                && b[8..12] == e[8..12]
            && b[HEADER..k] == e[HEADER..k] && b[k..|e|] == e[k..|e|]
  {
  }

  /** A record cut short, followed by too little to complete it, cannot be taken. */
  lemma TakeCut(crc: Checksum, r: Entry, n: nat, tail: Bytes)
    requires Fits(r) && n < |Encode(crc, r)| && n + |tail| < |Encode(crc, r)|
    requires n >= HEADER || tail == []
    ensures Take(crc, Encode(crc, r)[..n] + tail) == Torn
  {
    hide PutBE, GetBE, Sum32, Fields;
    var e := Encode(crc, r);
    var b := e[..n] + tail;
    if n >= HEADER {
      EncodeParts(crc, r);
      GetPut16(|r.key|);
      GetPut32(|r.val|);
      hide Encode;
      assert b[6..8] == e[6..8] && b[8..12] == e[8..12] && b[0] == e[0];
    }
  }

  /** Reading goes through any whole records at the front and goes on with what follows them. */
  lemma {:induction false} ReadThrough(crc: Checksum, rs: seq<Entry>, tail: Bytes)
    requires AllFit(rs)
    ensures Readable(crc, EncodeAll(crc, rs) + tail) == rs + Readable(crc, tail)
    ensures Leftover(crc, EncodeAll(crc, rs) + tail) == Leftover(crc, tail)
  {
    hide Take, Encode;
    if rs == [] {
      assert [] + tail == tail;
      assert EncodeAll(crc, rs) + tail == tail;
    } else {
      assert EncodeAll(crc, rs) + tail == Encode(crc, rs[0]) + (EncodeAll(crc, rs[1..]) + tail);
      TakeEncoded(crc, rs[0], EncodeAll(crc, rs[1..]) + tail);
      ReadThrough(crc, rs[1..], tail);
      assert [rs[0]] + (rs[1..] + Readable(crc, tail)) == rs + Readable(crc, tail);
    }
  }

  /** Round trip: a log of whole records reads back as those records, and nothing is left over. */
  lemma LogRoundTrip(crc: Checksum, rs: seq<Entry>)
    requires AllFit(rs)
    ensures Readable(crc, EncodeAll(crc, rs)) == rs && Leftover(crc, EncodeAll(crc, rs)) == []
  {
    ReadThrough(crc, rs, []);
    assert EncodeAll(crc, rs) + [] == EncodeAll(crc, rs);
    assert rs + [] == rs;
  }

  lemma {:induction false} EncodeConcat(crc: Checksum, a: seq<Entry>, b: seq<Entry>)
    ensures EncodeAll(crc, a + b) == EncodeAll(crc, a) + EncodeAll(crc, b)
  {
    if a == [] {
      assert a + b == b;
    } else {
      assert (a + b)[1..] == a[1..] + b;
      EncodeConcat(crc, a[1..], b);
    }
  }

  lemma EncodeOne(crc: Checksum, r: Entry)
    ensures EncodeAll(crc, [r]) == Encode(crc, r)
  {
    assert [r][1..] == [];
    assert Encode(crc, r) + [] == Encode(crc, r);
  }

  lemma EffectsSnoc(rs: seq<Entry>, r: Entry)
    ensures Replay(Effects(rs + [r])) == Replay(Effects(rs))[Effect(r).0 := Effect(r).1]
  {
    var all := Effects(rs + [r]);
    assert all[..|rs|] == Effects(rs);
    assert all[|rs|] == Effect(r);
  }

  /** The number of records that lie wholly within the first n bytes. */
  function WholeRecords(crc: Checksum, rs: seq<Entry>, n: nat): (j: nat)
    ensures j <= |rs| && |EncodeAll(crc, rs[..j])| <= n
    ensures j < |rs| ==> n < |EncodeAll(crc, rs[..j + 1])|
  {
    if rs == [] || n < |Encode(crc, rs[0])| then
      assert rs[..0] == [];
      assert rs != [] ==> rs[..1][1..] == [];
      0
    else
      var j := WholeRecords(crc, rs[1..], n - |Encode(crc, rs[0])|);
      assert rs[..j + 1][1..] == rs[1..][..j];
      assert j < |rs[1..]| ==> rs[..j + 2][1..] == rs[1..][..j + 1];
      1 + j
  }

  lemma {:induction false} LongerLog(crc: Checksum, rs: seq<Entry>, i: nat, j: nat)
    requires i <= j <= |rs|
    ensures |EncodeAll(crc, rs[..i])| <= |EncodeAll(crc, rs[..j])|
  {
    if i < j {
      LongerLog(crc, rs, i, j - 1);
      OneMoreRecord(crc, rs, j - 1);
    }
  }

  /** What is left behind the last whole record before a cut is torn. */
  lemma CutInside(crc: Checksum, back: seq<Entry>, m: nat)
    requires AllFit(back) && m <= |EncodeAll(crc, back)| && (back != [] ==> m < |Encode(crc, back[0])|)
    ensures Take(crc, EncodeAll(crc, back)[..m]) == Torn
  {
    hide Take, Encode;
    if back == [] {
      TakeNothing(crc);
    } else {
      var e := Encode(crc, back[0]);
      assert EncodeAll(crc, back) == e + EncodeAll(crc, back[1..]);
      assert EncodeAll(crc, back)[..m] == e[..m] + [];
      TakeCut(crc, back[0], m, []);
    }
  }

  lemma OneMoreRecord(crc: Checksum, rs: seq<Entry>, j: nat)
    requires j < |rs|
    ensures |EncodeAll(crc, rs[..j + 1])| == |EncodeAll(crc, rs[..j])| + |Encode(crc, rs[j])|
  {
    hide Encode;
    assert rs[..j + 1] == rs[..j] + [rs[j]];
    EncodeConcat(crc, rs[..j], [rs[j]]);
    assert EncodeAll(crc, [rs[j]]) == Encode(crc, rs[j]) + EncodeAll(crc, []);
  }

  /**
   A log of whole records cut at any byte reads back as exactly the records that lie wholly before the cut, and
   without an error.
   */
  lemma TornTail(crc: Checksum, rs: seq<Entry>, n: nat)
    requires AllFit(rs) && n <= |EncodeAll(crc, rs)|
    ensures Readable(crc, EncodeAll(crc, rs)[..n]) == rs[..WholeRecords(crc, rs, n)]
    ensures Take(crc, Leftover(crc, EncodeAll(crc, rs)[..n])) == Torn
  {
    hide Take, Encode, WholeRecords, EncodeAll, Readable, Leftover;
    var j := WholeRecords(crc, rs, n);
    var front, back := rs[..j], rs[j..];
    assert rs == front + back;
    EncodeConcat(crc, front, back);
    if j < |rs| {
      OneMoreRecord(crc, rs, j);
    }
    var m := n - |EncodeAll(crc, front)|;
    var tail := EncodeAll(crc, back)[..m];
    CutInside(crc, back, m);
    assert EncodeAll(crc, rs)[..n] == EncodeAll(crc, front) + tail;
    ReadThrough(crc, front, tail);
    NothingReadable(crc, tail);
    assert front + [] == front;
  }

  lemma NothingReadable(crc: Checksum, b: Bytes)
    requires !Take(crc, b).Whole?
    ensures Readable(crc, b) == [] && Leftover(crc, b) == b
  {
  }

  lemma TakeNothing(crc: Checksum)
    ensures Take(crc, []) == Torn
  {
  }

  /**
   A torn tail is not cut off before the log is appended to again. As long as what follows is too short to complete the
   torn record, none of it is read: the claim of TornTail is about one crash.
   */
  lemma LostBehindTornTail(crc: Checksum, rs: seq<Entry>, r: Entry, n: nat, more: seq<Entry>)
    requires AllFit(rs) && Fits(r) && HEADER <= n
    requires n + |EncodeAll(crc, more)| < |Encode(crc, r)|
    ensures Readable(crc, EncodeAll(crc, rs) + Encode(crc, r)[..n] + EncodeAll(crc, more)) == rs
  {
    hide Take, Encode;
    var tail := Encode(crc, r)[..n] + EncodeAll(crc, more);
    TakeCut(crc, r, n, EncodeAll(crc, more));
    ReadThrough(crc, rs, tail);
    assert EncodeAll(crc, rs) + Encode(crc, r)[..n] + EncodeAll(crc, more) == EncodeAll(crc, rs) + tail;
    assert rs + [] == rs;
  }

  /** A record at the front is taken whatever follows. */
  lemma TakeLonger(crc: Checksum, b: Bytes, e: Bytes)
    requires Take(crc, b).Whole?
    ensures Take(crc, b + e) == Whole(Take(crc, b).r, Take(crc, b).rest + e)
  {
    hide PutBE, GetBE, Sum32;
    var c := b + e;
    assert c[6..8] == b[6..8] && c[8..12] == b[8..12] && c[1..5] == b[1..5] && c[5..12] == b[5..12] && c[5] == b[5];
    var kl, vl := GetBE(b[6..8]), GetBE(b[8..12]);
    var n := HEADER + kl + vl;
    assert c[HEADER..HEADER + kl] == b[HEADER..HEADER + kl] && c[HEADER + kl..n] == b[HEADER + kl..n];
    assert c[n..] == b[n..] + e;
  }

  /** What is read of a longer log is what was read before, and then what can be read from the leftover on. */
  lemma {:induction false} ReadOn(crc: Checksum, b: Bytes, e: Bytes)
    ensures Readable(crc, b + e) == Readable(crc, b) + Readable(crc, Leftover(crc, b) + e)
    decreases |b|
  {
    hide Take;
    if Take(crc, b).Whole? {
      var Whole(r, rest) := Take(crc, b);
      TakeLonger(crc, b, e);
      ReadOn(crc, rest, e);
      assert [r] + (Readable(crc, rest) + Readable(crc, Leftover(crc, rest) + e))
          == Readable(crc, b) + Readable(crc, Leftover(crc, b) + e);
    } else {
      assert [] + Readable(crc, b + e) == Readable(crc, b + e);
    }
  }

  lemma {:induction false} LeftoverTorn(crc: Checksum, b: Bytes)
    ensures !Take(crc, Leftover(crc, b)).Whole?
    decreases |b|
  {
    hide Take;
    if Take(crc, b).Whole? {
      LeftoverTorn(crc, Take(crc, b).rest);
    }
  }

  /** The record of a Put of an empty value under the empty key. */
  function Probe(): Entry {
    Entry(OP_PUT, [], [])
  }

  lemma ProbeBytes(crc: Checksum)
    ensures var e := Encode(crc, Probe());
            |e| == HEADER && e[0] == MAGIC && e[5] == OP_PUT && forall i :: 6 <= i < 12 ==> e[i] == 0
  {
    EncodeParts(crc, Probe());
    var e := Encode(crc, Probe());
    assert PutBE(0, 2) == [0, 0] && PutBE(0, 4) == [0, 0, 0, 0];
    assert e[6..8][0] == e[6] && e[6..8][1] == e[7];
    assert e[8..12][0] == e[8] && e[8..12][1] == e[9] && e[8..12][2] == e[10] && e[8..12][3] == e[11];
  }

  /** The probe record is taken off bytes that start with its header only. */
  lemma ProbeHeader(crc: Checksum, x: Bytes)
    requires Take(crc, x).Whole? && Take(crc, x).r == Probe()
    ensures |x| >= HEADER && x[5] == OP_PUT && forall i :: 6 <= i < 12 ==> x[i] == 0
  {
    hide Sum32;
    assert GetBE(x[6..8]) == 0 && GetBE(x[8..12]) == 0;
    ZeroField(x[6..8]);
    ZeroField(x[8..12]);
    assert x[6..8][0] == x[6] && x[6..8][1] == x[7];
    assert x[8..12][0] == x[8] && x[8..12][1] == x[9] && x[8..12][2] == x[10] && x[8..12][3] == x[11];
  }

  lemma {:induction false} ZeroField(b: Bytes)
    requires GetBE(b) == 0
    ensures forall i :: 0 <= i < |b| ==> b[i] == 0
  {
    if b != [] {
      ZeroField(b[..|b| - 1]);
    }
  }

  /** Behind any leftover, however short, the probe record is not read as itself. */
  lemma ProbeNotRead(crc: Checksum, l: Bytes)
    requires l != [] && !Take(crc, l).Whole?
    ensures Readable(crc, l + Encode(crc, Probe())) != [Probe()]
  {
    var e := Encode(crc, Probe());
    var x := l + e;
    ProbeBytes(crc);
    if Readable(crc, x) == [Probe()] {
      ProbeTaken(crc, x);
      ProbeHeader(crc, x);
      assert x[|l|] == e[0] && x[|l| + 5] == e[5];
      if |l| >= HEADER {
        ProbeWhole(crc, l, e);
      }
      assert false;
    }
  }

  lemma ProbeTaken(crc: Checksum, x: Bytes)
    requires Readable(crc, x) == [Probe()]
    ensures Take(crc, x).Whole? && Take(crc, x).r == Probe()
  {
    hide Take;
    if Take(crc, x).Whole? {
      assert Readable(crc, x)[0] == Take(crc, x).r;
    }
  }

  /** A probe that fits into the leftover would have been taken off it. */
  lemma ProbeWhole(crc: Checksum, l: Bytes, e: Bytes)
    requires |l| >= HEADER && Take(crc, l + e).Whole? && Take(crc, l + e).r == Probe()
    ensures Take(crc, l).Whole?
  {
    hide GetBE, PutBE, Sum32;
    var x := l + e;
    assert x[6..8] == l[6..8] && x[8..12] == l[8..12] && x[1..5] == l[1..5] && x[5..12] == l[5..12];
    assert |x[HEADER..HEADER + GetBE(x[6..8])]| == 0;
    assert x[12..12] == l[12..12];
  }

  /**
   A log to which records are appended after a recovery reads back in full, whatever the records, if and only if the
   recovery left nothing over. One record behind a leftover is enough to see the difference, whatever the checksum.
   */
  lemma AppendsReadableExactly(crc: Checksum, b: Bytes)
    ensures Leftover(crc, b) == [] <==>
            forall more: seq<Entry> :: AllFit(more) ==>
              Readable(crc, b + EncodeAll(crc, more)) == Readable(crc, b) + more
  {
    hide Take, Encode, AllFit, Readable, Leftover;
    if Leftover(crc, b) == [] {
      forall more: seq<Entry> | AllFit(more)
        ensures Readable(crc, b + EncodeAll(crc, more)) == Readable(crc, b) + more
      {
        ReadOn(crc, b, EncodeAll(crc, more));
        LogRoundTrip(crc, more);
        assert [] + EncodeAll(crc, more) == EncodeAll(crc, more);
      }
    } else {
      var more := [Probe()];
      ProbeFits();
      EncodeOne(crc, Probe());
      LeftoverTorn(crc, b);
      ProbeNotRead(crc, Leftover(crc, b));
      ReadOn(crc, b, EncodeAll(crc, more));
      Cancel(Readable(crc, b), Readable(crc, Leftover(crc, b) + EncodeAll(crc, more)), more);
      assert Readable(crc, b + EncodeAll(crc, more)) != Readable(crc, b) + more;
    }
  }

  lemma Cancel<T>(a: seq<T>, x: seq<T>, y: seq<T>)
    requires x != y
    ensures a + x != a + y
  {
    assert (a + x)[|a|..] == x && (a + y)[|a|..] == y;
  }

  lemma ProbeFits()
    ensures AllFit([Probe()])
  {
  }

  /**
   A damaged record whose checksum does not match, or a wrong magic byte, stops the reading where it stands;
   only the latter is an error.
   */
  lemma DamageStops(crc: Checksum, rs: seq<Entry>, tail: Bytes)
    requires AllFit(rs) && !Take(crc, tail).Whole?
    ensures var b := EncodeAll(crc, rs) + tail;
            Readable(crc, b) == rs && Take(crc, Leftover(crc, b)) == Take(crc, tail)
  {
    hide Take, Encode;
    ReadThrough(crc, rs, tail);
    assert rs + [] == rs;
  }

  /** What Append writes, byte by byte; the checksum is over everything behind it. */
  lemma RecordLayout(crc: Checksum, r: Entry)
    requires Fits(r)
    ensures var b := Encode(crc, r);
            && |b| == 12 + |r.key| + |r.val| && b[0] == 0xA1
            && GetBE(b[1..5]) == crc(b[5..]) % 0x1_0000_0000
            && b[5] == r.op && GetBE(b[6..8]) == |r.key| && GetBE(b[8..12]) == |r.val|
            && b[12..12 + |r.key|] == r.key && b[12 + |r.key|..] == r.val
  {
    hide PutBE, GetBE, Fields;
    var b := Encode(crc, r);
    EncodeParts(crc, r);
    GetPut16(|r.key|);
    GetPut32(|r.val|);
    GetPut32(Sum32(crc, Fields(r) + r.key + r.val));
    assert b[5..] == b[5..12] + b[12..12 + |r.key|] + b[12 + |r.key|..|b|];
    hide Encode;
  }

  /**
   When Recover takes a record off the front: exactly when header and payload are there, the first byte is right and
   the stored checksum is that of the bytes behind it. What it takes is what the fields say.
   */
  lemma TakesExactly(crc: Checksum, b: Bytes)
    ensures Take(crc, b).BadMagic? <==> |b| >= 12 && b[0] != 0xA1
    ensures Take(crc, b).Whole? <==>
              && |b| >= 12 && b[0] == 0xA1
              && var n := 12 + GetBE(b[6..8]) + GetBE(b[8..12]);
                 |b| >= n && crc(b[5..n]) % 0x1_0000_0000 == GetBE(b[1..5])
    ensures Take(crc, b).Whole? ==>
              var k := 12 + GetBE(b[6..8]);
              var n := k + GetBE(b[8..12]);
              Take(crc, b) == Whole(Entry(b[5], b[12..k], b[k..n]), b[n..])
  {
    hide GetBE;
    if |b| >= 12 && |b| >= 12 + GetBE(b[6..8]) + GetBE(b[8..12]) {
      var k := 12 + GetBE(b[6..8]);
      var n := k + GetBE(b[8..12]);
      assert b[5..n] == b[5..12] + b[12..k] + b[k..n];
    }
  }

  /**
   Bytes whose stored checksum is not that of what follows end the reading, and nothing in or behind them is
   applied.
   */
  lemma MismatchStops(crc: Checksum, rs: seq<Entry>, tail: Bytes)
    requires AllFit(rs) && |tail| >= 12
    requires var n := 12 + GetBE(tail[6..8]) + GetBE(tail[8..12]);
             |tail| >= n ==> crc(tail[5..n]) % 0x1_0000_0000 != GetBE(tail[1..5])
    ensures Readable(crc, EncodeAll(crc, rs) + tail) == rs
  {
    TakesExactly(crc, tail);
    hide Take, GetBE;
    DamageStops(crc, rs, tail);
  }

  /** A record of op code 4 stores an empty value whatever payload it carries, any other its payload. */
  lemma EffectOfBytes(crc: Checksum, b: Bytes)
    requires Take(crc, b).Whole?
    ensures |b| >= 12
    ensures var k := 12 + GetBE(b[6..8]);
            var n := k + GetBE(b[8..12]);
            n <= |b| && Effect(Take(crc, b).r) == (b[12..k], if b[5] == 4 then [] else b[k..n])
  {
    TakesExactly(crc, b);
    hide Take, GetBE;
  }

  // --------------------------------------------------------------- appending

  const BUFFER_SIZE: nat := 4 * 1024 * 1024

  method CopyInto(a: array<byte>, at: nat, b: Bytes)
    requires at + |b| <= a.Length
    modifies a
    ensures a[..] == old(a[..at]) + b + old(a[at + |b|..]) && a[at..at + |b|] == b
    ensures forall j :: 0 <= j < a.Length && !(at <= j < at + |b|) ==> a[j] == old(a[j])
  {
    var i := 0;
    while i < |b|
      invariant i <= |b|
      invariant forall j :: 0 <= j < a.Length ==> a[j] == if at <= j < at + i then b[j - at] else old(a[j])
    {
      a[at + i] := b[i];
      i := i + 1;
    }
  }

  /** Append's header array, filled field by field; the checksum, over the rest of it and the payload, comes last. */
  method Header(crc: Checksum, op: byte, key: Bytes, val: Bytes) returns (header: array<byte>)
    ensures fresh(header) && header[..] + key + val == Encode(crc, Entry(op, key, val))
  {
    ghost var r := Entry(op, key, val);
    header := new byte[12](_ => 0);
    hide *;
    header[0] := MAGIC;
    header[5] := op;
    CopyInto(header, 6, PutBE(|key|, 2));
    CopyInto(header, 8, PutBE(|val|, 4));
    HeaderFields(r, header[..]);
    ghost var fields := header[..];
    CopyInto(header, 1, PutBE(Sum32(crc, header[5..12] + key + val), 4));
    HeaderDone(crc, r, fields, header[..]);
  }

  lemma HeaderFields(r: Entry, h: Bytes)
    requires |h| == 12 && h[0] == MAGIC && h[5] == r.op && h[6..8] == PutBE(|r.key|, 2) && h[8..12] == PutBE(|r.val|, 4)
    ensures h[5..12] == Fields(r)
  {
    assert h[5..12] == [h[5]] + h[6..8] + h[8..12];
  }

  lemma HeaderDone(crc: Checksum, r: Entry, h: Bytes, h': Bytes)
    requires |h| == 12 && h[0] == MAGIC && h[5..12] == Fields(r)
    requires h' == h[..1] + PutBE(Sum32(crc, h[5..12] + r.key + r.val), 4) + h[5..]
    ensures h' + r.key + r.val == Encode(crc, r)
  {
    hide PutBE, Sum32, Fields;
    assert h[..1] == [MAGIC] && h[5..] == h[5..12];
  }

  lemma AppendIs(was: Bytes, header: Bytes, crc: Checksum, r: Entry)
    requires header + r.key + r.val == Encode(crc, r)
    ensures |header| == HEADER == 12 && BUFFER_SIZE == 4 * 1024 * 1024
        && was + header + r.key + r.val == was + Encode(crc, r)
  {
    assert was + header + r.key + r.val == was + (header + r.key + r.val);
  }

  lemma Refill(file: Bytes, buffer: Bytes, rest: Bytes, n: nat)
    requires n <= |rest|
    ensures file + (buffer + rest[..n]) + [] + rest[n..] == file + buffer + rest
  {
  }

  /** The log: what has reached the file, and what waits in the write buffer. */
  class Log {
    const crc: Checksum
    var file: Bytes
    var buffer: Bytes

    /** Everything appended so far. */
    ghost function Contents(): Bytes
      reads this
    {
      file + buffer
    }

    /** NewWAL on a file with the given bytes (empty for a new one). */
    constructor (crc: Checksum, file: Bytes)
      ensures this.crc == crc && this.file == file && buffer == [] && Contents() == file
    {
      this.crc, this.file, buffer := crc, file, [];
    }

    /** bufio.Writer.Write: bytes reach the file only when the buffer overflows. */
    method Write(p: Bytes)
      requires |buffer| <= BUFFER_SIZE
      modifies this
      ensures |buffer| <= BUFFER_SIZE && Contents() == old(Contents()) + p
      ensures |old(file)| <= |file| && file[..|old(file)|] == old(file)
      ensures |old(buffer)| + |p| <= BUFFER_SIZE ==> file == old(file) && buffer == old(buffer) + p
      ensures |old(buffer)| + |p| > BUFFER_SIZE ==>
                var room := BUFFER_SIZE - |old(buffer)|;
                buffer == if old(buffer) == [] || |p| - room > BUFFER_SIZE then [] else p[room..]
    {
      var rest := p;
      ghost var room := BUFFER_SIZE - |buffer|;
      while |rest| > BUFFER_SIZE - |buffer|
        invariant |buffer| <= BUFFER_SIZE && file + buffer + rest == old(file + buffer) + p
        invariant |old(file)| <= |file| && file[..|old(file)|] == old(file)
        invariant |old(buffer)| + |p| <= BUFFER_SIZE ==> file == old(file) && buffer == old(buffer) && rest == p
        invariant (buffer == old(buffer) && rest == p) || (buffer == [] && old(buffer) != [] && rest == p[room..])
                  || (buffer == [] && rest == [] && (old(buffer) == [] || |p| - room > BUFFER_SIZE))
        decreases |rest|, |buffer|
      {
        if buffer == [] {
          assert file + rest + [] + [] == file + [] + rest;
          file, rest := file + rest, [];
        } else {
          var n := BUFFER_SIZE - |buffer|;
          Refill(file, buffer, rest, n);
          file, buffer, rest := file + (buffer + rest[..n]), [], rest[n..];
        }
      }
      assert file + buffer + rest == file + (buffer + rest);
      buffer := buffer + rest;
    }

    /** Append: the record joins the log; nothing forces it to the file, so returning promises no durability. */
    method Append(op: byte, key: Bytes, val: Bytes)
      requires |buffer| <= BUFFER_SIZE
      modifies this
      ensures |buffer| <= BUFFER_SIZE && Contents() == old(Contents()) + Encode(crc, Entry(op, key, val))
      ensures |old(file)| <= |file| && file[..|old(file)|] == old(file)
      ensures |old(buffer)| + 12 + |key| + |val| <= 4 * 1024 * 1024 ==> file == old(file)
    {
      var header := Header(crc, op, key, val);
      hide *;
      AppendIs(Contents(), header[..], crc, Entry(op, key, val));
      Write(header[..]);
      Write(key);
      Write(val);
    }

    /** flush: everything buffered reaches the file. */
    method Flush()
      modifies this
      ensures file == old(Contents()) && buffer == []
    {
      file, buffer := file + buffer, [];
    }
  }

  // ---------------------------------------------------------------- recovery

  datatype RecoverError = Corrupted | TableFrozen

  lemma TakeAt(crc: Checksum, b: Bytes, off: nat)
    requires off <= |b|
    ensures HEADER == 12
    ensures var n := |b| - off;
            if n < HEADER then Take(crc, b[off..]) == Torn
            else
              var header := b[off..off + HEADER];
              if header[0] != MAGIC then Take(crc, b[off..]) == BadMagic
              else
                var kl, vl := GetBE(header[6..8]), GetBE(header[8..12]);
                var key := off + HEADER;
                if n < HEADER + kl + vl then Take(crc, b[off..]) == Torn
                else if Sum32(crc, header[5..12] + b[key..key + kl] + b[key + kl..key + kl + vl]) != GetBE(header[1..5])
                then Take(crc, b[off..]) == Torn
                else Take(crc, b[off..]) == Whole(Entry(header[5], b[key..key + kl], b[key + kl..key + kl + vl]),
                    b[key + kl + vl..])
  {
    hide GetBE, Sum32;
    var s := b[off..];
    if |s| >= HEADER {
      var header := b[off..off + HEADER];
      assert header == s[0..HEADER];
      SubSlice(s, 0, HEADER, 1, 5);
      SubSlice(s, 0, HEADER, 5, 12);
      SubSlice(s, 0, HEADER, 6, 8);
      SubSlice(s, 0, HEADER, 8, 12);
      var kl, vl := GetBE(header[6..8]), GetBE(header[8..12]);
      var key := off + HEADER;
      if |s| >= HEADER + kl + vl {
        assert s == b[off..|b|];
        SubSlice(b, off, |b|, HEADER, HEADER + kl);
        SubSlice(b, off, |b|, HEADER + kl, HEADER + kl + vl);
        assert s[HEADER + kl + vl..] == b[key + kl + vl..];
      }
    }
  }

  /** The records `done` have been taken off the front of b, up to offset off. */
  ghost predicate Reading(crc: Checksum, b: Bytes, off: nat, done: seq<Entry>) {
    off <= |b| && done + Readable(crc, b[off..]) == Readable(crc, b) && Leftover(crc, b[off..]) == Leftover(crc, b)
  }

  lemma ReadingStarts(crc: Checksum, b: Bytes)
    ensures Reading(crc, b, 0, [])
  {
    assert b[0..] == b;
  }

  lemma ReadingStep(crc: Checksum, b: Bytes, off: nat, done: seq<Entry>, r: Entry, off': nat)
    requires Reading(crc, b, off, done) && off' <= |b| && Take(crc, b[off..]) == Whole(r, b[off'..])
    ensures Reading(crc, b, off', done + [r])
    ensures Readable(crc, b) != []
  {
    hide Take;
    assert done + [r] + Readable(crc, b[off'..]) == done + ([r] + Readable(crc, b[off'..]));
  }

  lemma ReadingEnds(crc: Checksum, b: Bytes, off: nat, done: seq<Entry>)
    requires Reading(crc, b, off, done) && !Take(crc, b[off..]).Whole?
    ensures Readable(crc, b) == done && Take(crc, Leftover(crc, b)) == Take(crc, b[off..])
  {
    hide Take;
    assert done + [] == done;
  }

  lemma NothingApplied(table: Contents)
    ensures table == table + Replay(Effects([]))
  {
  }

  lemma OneMoreApplied(table: Contents, done: seq<Entry>, r: Entry)
    ensures (table + Replay(Effects(done)))[r.key := if r.op == OP_DELETE then [] else r.val]
        == table + Replay(Effects(done + [r]))
  {
    var all := Effects(done + [r]);
    assert all[..|done|] == Effects(done);
    assert all[|done|] == Effect(r);
  }

  datatype Parsed = Got(r: Entry, next: nat) | EndOfLog | WrongMagic

  /** The reading half of Recover's loop: header, key, value and checksum at offset off. */
  method ReadRecord(crc: Checksum, b: Bytes, off: nat) returns (t: Parsed)
    requires off <= |b|
    ensures match Take(crc, b[off..])
            case Whole(r, rest) => t.Got? && t.r == r && off < t.next <= |b| && rest == b[t.next..]
            case Torn => t == EndOfLog
            case BadMagic => t == WrongMagic
  {
    hide *;
    TakeAt(crc, b, off);
    if |b| - off < HEADER {
      return EndOfLog;
    }
    var header := b[off..off + HEADER];
    if header[0] != MAGIC {
      return WrongMagic;
    }
    var expected, op, keyLen, valLen := GetBE(header[1..5]), header[5], GetBE(header[6..8]), GetBE(header[8..12]);
    var at := off + HEADER;
    if |b| < at + keyLen {
      return EndOfLog;
    }
    var key := b[at..at + keyLen];
    if |b| < at + keyLen + valLen {
      return EndOfLog;
    }
    var val := b[at + keyLen..at + keyLen + valLen];
    if Sum32(crc, header[5..12] + key + val) != expected {
      return EndOfLog;
    }
    t := Got(Entry(op, key, val), at + keyLen + valLen);
  }

  /**
   Recover: the records that can be read off the log are applied to the table, left to right; a missing file or
   a torn end is no error, a wrong magic byte is one.
   */
  method Recover(crc: Checksum, file: Option<Bytes>, m: MemTable) returns (res: Result<(), RecoverError>)
    requires m.Valid()
    modifies m
    ensures m.Valid() && m.frozen == old(m.frozen)
    ensures file == None ==> res == Ok(()) && m.Table() == old(m.Table())
    ensures file.Some? && !m.frozen ==>
              && m.Table() == old(m.Table()) + Replay(Effects(Readable(crc, file.value)))
              && res == if Take(crc, Leftover(crc, file.value)) == BadMagic then Err(Corrupted) else Ok(())
    ensures file.Some? && m.frozen ==>
              && m.Table() == old(m.Table())
              && res == if Readable(crc, file.value) != [] then Err(TableFrozen)
                  else if Take(crc, Leftover(crc, file.value)) == BadMagic then Err(Corrupted) else Ok(())
  {
    if file == None {
      return Ok(());
    }
    var b := file.value;
    hide *;
    var off: nat := 0;
    ghost var done: seq<Entry>, table := [], m.Table();
    ReadingStarts(crc, b);
    NothingApplied(table);
    while true
      invariant Reading(crc, b, off, done) && off <= |b|
      invariant m.Valid() && m.frozen == old(m.frozen) && m.Table() == table + Replay(Effects(done))
      invariant m.frozen ==> done == []
      decreases |b| - off
    {
      var t := ReadRecord(crc, b, off);
      if !t.Got? {
        ReadingEnds(crc, b, off, done);
        return if t == WrongMagic then Err(Corrupted) else Ok(());
      }
      var r := t.r;
      ReadingStep(crc, b, off, done, r, t.next);
      OneMoreApplied(table, done, r);
      var ok;
      if r.op == OP_DELETE {
        ok := m.Put(r.key, []);
      } else {
        ok := m.Put(r.key, r.val);
      }
      if !ok {
        return Err(TableFrozen);
      }
      done := done + [r];
      off := t.next;
    }
  }
}
