/**
 The request/response stream between a client and the server (pkg/client/client.go:116-385,
 internal/network/handler.go, protocol.go:59-83, server.go:237-257).
 */
module Session {
  import opened Options
  import opened ByteStrings
  import opened Layers
  import opened MemTables
  import opened DbReads
  import opened Db
  import opened Limits
  import Entries
  import Shots
  import TableFormat
  import TableReader

  const MAGIC: byte := 0xA1
  const HEADER_SIZE: nat := 8
  const PAYLOAD_BUFFER: nat := 4 * 1024 * 1024
  const NOT_FOUND: nat := 0xFFFF

  const ECHO: byte := 1
  const PUT: byte := Entries.OP_PUT
  const GET: byte := 3
  const DELETE: byte := Entries.OP_DELETE
  const SCAN: byte := 7

  // ------------------------------------------------------------------ frames

  /** Magic byte, op code, a 16-bit and a 32-bit length. */
  function Header(op: byte, a: nat, b: nat): (h: Bytes)
    ensures |h| == HEADER_SIZE
  {
    [MAGIC, op] + PutBE(a, 2) + PutBE(b, 4)
  }

  function Frame(op: byte, a: Bytes, b: Bytes): Bytes {
    Header(op, |a|, |b|) + a + b
  }

  function Ack(): Bytes {
    Header(0, 0, 0)
  }

  function NotFoundReply(): Bytes {
    Header(0, NOT_FOUND, 0)
  }

  function ItemBytes(it: KeyValue): Bytes {
    PutBE(|it.key|, 2) + PutBE(|it.val|, 4) + it.key + it.val
  }

  function ItemsBytes(items: seq<KeyValue>): Bytes {
    if items == [] then [] else ItemBytes(items[0]) + ItemsBytes(items[1..])
  }

  function TotalBytes(items: seq<KeyValue>): nat {
    if items == [] then 0 else (6 + |items[0].key| + |items[0].val| + TotalBytes(items[1..])) % 0x1_0000_0000
  }

  function ScanReply(items: seq<KeyValue>): Bytes {
    Header(SCAN, |items|, TotalBytes(items)) + ItemsBytes(items)
  }

  lemma HeaderFields(op: byte, a: nat, b: nat)
    requires a < 0x1_0000 && b < 0x1_0000_0000
    ensures var h := Header(op, a, b); h[0] == MAGIC && h[1] == op && GetBE(h[2..4]) == a && GetBE(h[4..8]) == b
  {
    hide PutBE, GetBE;
    var h := Header(op, a, b);
    assert h[2..4] == PutBE(a, 2) && h[4..8] == PutBE(b, 4);
    GetPut16(a);
    GetPut32(b);
  }

  /** The eight bytes every message starts with; lengths beyond a field are cut to it. */
  lemma HeaderBytes(op: byte, a: nat, b: nat, rest: Bytes)
    ensures var s := Header(op, a, b) + rest;
            && |s| == 8 + |rest| && s[0] == 0xA1 && s[1] == op && GetBE(s[2..4]) == a % 0x1_0000
            && GetBE(s[4..8]) == b % 0x1_0000_0000 && s[8..] == rest
  {
    hide PutBE, GetBE;
    var s := Header(op, a, b) + rest;
    assert s[2..4] == PutBE(a, 2) && s[4..8] == PutBE(b, 4);
    GetPut16(a);
    GetPut32(b);
  }

  lemma {:induction false} TotalIsLength(items: seq<KeyValue>)
    ensures TotalBytes(items) == |ItemsBytes(items)| % 0x1_0000_0000
  {
    if items != [] {
      var it, rest := items[0], ItemsBytes(items[1..]);
      TotalIsLength(items[1..]);
      assert |ItemsBytes(items)| == 6 + |it.key| + |it.val| + |rest|;
      AddMod(6 + |it.key| + |it.val|, |rest|, 0x1_0000_0000);
    }
  }

  /** A sum kept in a fixed width is the sum cut to the width. */
  lemma AddMod(a: nat, n: nat, m: nat)
    requires m > 0
    ensures (a + n % m) % m == (a + n) % m
  {
    var x := a + n % m;
    assert a + n == x + m * (n / m);
    assert x == m * (x / m) + x % m;
    assert a + n == m * (x / m + n / m) + x % m;
    ModUnique(a + n, m, x / m + n / m, x % m);
  }

  /** The length field of a scan reply counts the bytes behind the header, modulo 2^32. */
  lemma ScanLength(items: seq<KeyValue>)
    ensures var s := ScanReply(items);
            |s| >= 8 && GetBE(s[4..8]) == (|s| - 8) % 0x1_0000_0000 && GetBE(s[2..4]) == |items| % 0x1_0000
  {
    hide GetBE, Header;
    TotalIsLength(items);
    HeaderBytes(SCAN, |items|, TotalBytes(items), ItemsBytes(items));
  }

  // ------------------------------------------------------------------- pipes

  /** One direction of a connection: the bytes written and not yet read. */
  class Pipe {
    var bytes: Bytes

    constructor ()
      ensures bytes == []
    {
      bytes := [];
    }

    method Write(p: Bytes)
      modifies this
      ensures bytes == old(bytes) + p
    {
      bytes := bytes + p;
    }

    /** io.ReadFull: exactly n bytes, or nothing when the stream ends before. */
    method ReadFull(n: nat) returns (r: Option<Bytes>)
      modifies this
      ensures n <= |old(bytes)| ==> r == Some(old(bytes)[..n]) && bytes == old(bytes)[n..]
      ensures n > |old(bytes)| ==> r == None && bytes == []
    {
      if n <= |bytes| {
        r := Some(bytes[..n]);
        bytes := bytes[n..];
      } else {
        r := None;
        bytes := [];
      }
    }
  }

  // ------------------------------------------------------------------ server

  datatype RequestHeader = RequestHeader(op: byte, keyLen: nat, valueLen: nat)

  /** ParseHeader; None ends the connection. */
  method ParseHeader(up: Pipe) returns (h: Option<RequestHeader>)
    modifies up
    ensures |old(up.bytes)| < HEADER_SIZE || old(up.bytes)[0] != MAGIC ==> h == None
    ensures |old(up.bytes)| >= HEADER_SIZE && old(up.bytes)[0] == MAGIC ==>
              var b := old(up.bytes);
              up.bytes == b[8..] && h == Some(RequestHeader(b[1], GetBE(b[2..4]), GetBE(b[4..8])))
  {
    ghost var b := up.bytes;
    hide GetBE;
    var buf := up.ReadFull(HEADER_SIZE);
    if buf == None || buf.value[0] != MAGIC {
      return None;
    }
    SubSlice(b, 0, 8, 2, 4);
    SubSlice(b, 0, 8, 4, 8);
    assert b[0..8] == b[..8];
    h := Some(RequestHeader(buf.value[1], GetBE(buf.value[2..4]), GetBE(buf.value[4..8])));
  }

  /** A request the server can take: its lengths fit the header and its payload the buffer. */
  predicate Fits(a: Bytes, b: Bytes) {
    |a| < 0x1_0000 && |b| < 0x1_0000_0000 && |a| + |b| <= PAYLOAD_BUFFER
  }

  /** A request frame splits into header fields and payload. */
  lemma FrameParts(op: byte, a: Bytes, b: Bytes, rest: Bytes)
    requires Fits(a, b)
    ensures var f := Frame(op, a, b) + rest;
            && |f| >= HEADER_SIZE && f[0] == MAGIC && f[1] == op && GetBE(f[2..4]) == |a| && GetBE(f[4..8]) == |b|
            && |f[8..]| >= |a| + |b| && f[8..][..|a| + |b|] == a + b && f[8..][|a| + |b|..] == rest
            && (a + b)[..|a|] == a && (a + b)[|a|..] == b
  {
    HeaderFields(op, |a|, |b|);
    hide PutBE, GetBE, Header;
    var h := Header(op, |a|, |b|);
    var f := Frame(op, a, b) + rest;
    assert f == h + (a + b + rest);
    assert f[2..4] == h[2..4] && f[4..8] == h[4..8];
    assert f[8..] == a + b + rest;
  }

  /** What the server writes back for a Get. */
  function GetReply(k: Bytes, x: Option<Bytes>): Bytes {
    match x
    case None => NotFoundReply()
    case Some(v) => Frame(GET, k, v)
  }

  /** What the server writes back for a request, given what the storage says; `items` is the result of a Scan. */
  ghost predicate Answers(db: DB, op: byte, a: Bytes, b: Bytes, reply: Bytes, items: seq<KeyValue>)
    reads db, db.active, db.immutable
    requires db.active.Valid() && (db.immutable != null ==> db.immutable.Valid())
  {
    if op == ECHO then reply == Frame(ECHO, a, b)
    else if op == PUT || op == DELETE then reply == Ack()
    else if op == GET then reply == GetReply(a, db.View(a))
    else if op == SCAN then IsLiveRange(db.Layers(), a, b, items) && reply == ScanReply(items)
    else reply == NotFoundReply()
  }

  /** The bytes of every reply, by the op code of the request. */
  lemma ReplyBytes(db: DB, op: byte, a: Bytes, b: Bytes, reply: Bytes, items: seq<KeyValue>)
    requires db.active.Valid() && (db.immutable != null ==> db.immutable.Valid())
    requires Answers(db, op, a, b, reply, items)
    ensures |reply| >= 8 && reply[0] == 0xA1
    ensures var keyLen, valLen, payload := GetBE(reply[2..4]), GetBE(reply[4..8]), reply[8..];
            if op == 1 then
              reply[1] == 1 && keyLen == |a| % 0x1_0000 && valLen == |b| % 0x1_0000_0000 && payload == a + b
            else if op == 3 && db.View(a).Some? then
              && reply[1] == 3 && keyLen == |a| % 0x1_0000 && valLen == |db.View(a).value| % 0x1_0000_0000
              && payload == a + db.View(a).value
            else if op == 7 then
              && reply[1] == 7 && keyLen == |items| % 0x1_0000 && valLen == |payload| % 0x1_0000_0000
              && payload == ItemsBytes(items) && IsLiveRange(db.Layers(), a, b, items)
            else
              && reply[1] == 0 && valLen == 0 && payload == []
              && keyLen == if op == 2 || op == 4 then 0 else 0xFFFF
  {
    hide GetBE, Header, DB.View, DB.Layers, IsLiveRange, MemTable.Valid;
    if op == 7 {
      ScanLength(items);
      HeaderBytes(SCAN, |items|, TotalBytes(items), ItemsBytes(items));
    } else if op == 1 {
      HeaderBytes(ECHO, |a|, |b|, a + b);
      assert Frame(ECHO, a, b) == Header(ECHO, |a|, |b|) + (a + b);
    } else if op == 3 && db.View(a).Some? {
      var v := db.View(a).value;
      HeaderBytes(GET, |a|, |v|, a + v);
      assert Frame(GET, a, v) == Header(GET, |a|, |v|) + (a + v);
    } else {
      HeaderBytes(0, 0, 0, []);
      HeaderBytes(0, NOT_FOUND, 0, []);
      assert Ack() + [] == Ack() && NotFoundReply() + [] == NotFoundReply();
    }
  }

  /** Item i of a scan reply stands where the items before it end, with its two lengths in front. */
  lemma {:induction false} ItemAt(items: seq<KeyValue>, i: nat)
    requires i < |items|
    ensures var at, s := |ItemsBytes(items[..i])|, ItemsBytes(items);
            var KeyValue(k, v) := items[i];
            && at + 6 + |k| + |v| <= |s|
            && GetBE(s[at..at + 2]) == |k| % 0x1_0000 && GetBE(s[at + 2..at + 6]) == |v| % 0x1_0000_0000
            && s[at + 6..at + 6 + |k|] == k && s[at + 6 + |k|..at + 6 + |k| + |v|] == v
  {
    hide GetBE, PutBE;
    var KeyValue(k, v) := items[i];
    GetPut16(|k|);
    GetPut32(|v|);
    var front, back := ItemsBytes(items[..i]), ItemsBytes(items[i + 1..]);
    assert items == items[..i] + [items[i]] + items[i + 1..];
    ItemsConcat(items[..i], [items[i]] + items[i + 1..]);
    assert ([items[i]] + items[i + 1..])[1..] == items[i + 1..];
    assert items[..i] + ([items[i]] + items[i + 1..]) == items;
    var s := ItemsBytes(items);
    assert s == front + (ItemBytes(items[i]) + back);
    hide ItemsBytes;
    FieldsAt(front, PutBE(|k|, 2), PutBE(|v|, 4), k, v, back, s);
  }

  lemma FieldsAt(front: Bytes, kl: Bytes, vl: Bytes, k: Bytes, v: Bytes, back: Bytes, s: Bytes)
    requires |kl| == 2 && |vl| == 4 && s == front + (kl + vl + k + v + back)
    ensures var at := |front|;
            && s[at..at + 2] == kl && s[at + 2..at + 6] == vl
            && s[at + 6..at + 6 + |k|] == k && s[at + 6 + |k|..at + 6 + |k| + |v|] == v
  {
    assert s == front + kl + (vl + k + v + back) == (front + kl) + vl + (k + v + back);
    assert s == (front + kl + vl) + k + (v + back) == (front + kl + vl + k) + v + back;
    Middle(front, kl, vl + k + v + back);
    Middle(front + kl, vl, k + v + back);
    Middle(front + kl + vl, k, v + back);
    Middle(front + kl + vl + k, v, back);
  }

  lemma {:induction false} ItemsConcat(x: seq<KeyValue>, y: seq<KeyValue>)
    ensures ItemsBytes(x + y) == ItemsBytes(x) + ItemsBytes(y)
  {
    if x == [] {
      assert x + y == y;
    } else {
      assert (x + y)[1..] == x[1..] + y;
      ItemsConcat(x[1..], y);
    }
  }

  /** What a key reads as after a request. */
  function After(op: byte, a: Bytes, b: Bytes, k: Bytes, before: Option<Bytes>): Option<Bytes> {
    if op == PUT && k == a then Live(Some(b)) else if op == DELETE && k == a then None else before
  }

  /** A request to store something stores what fits every file's limits. */
  predicate Storing(op: byte, a: Bytes, b: Bytes) {
    (op == PUT ==> Storable(a, b)) && (op == DELETE ==> Storable(a, []))
  }

  /** The bytes of records a request adds to what is on its way to a file. */
  function Growth(op: byte, a: Bytes, b: Bytes): nat {
    if op == PUT then 7 + |a| + |b| else if op == DELETE then 7 + |a| else 0
  }

  /** HandleRequest: read the payload, call the storage, write the reply; an error ends the connection. */
  method HandleRequest(up: Pipe, down: Pipe, h: RequestHeader, db: DB, ghost a: Bytes, ghost b: Bytes,
                       ghost rest: Bytes)
    returns (open: bool, ghost items: seq<KeyValue>)
    requires db.Valid() && up != down
    modifies up, down, db, db.wal, db.active
    ensures db.Valid() && fresh(db.Repr() - old(db.Repr()))
    ensures db.l0 == old(db.l0) && db.l1 == old(db.l1) && db.tables == old(db.tables) && db.KeysOk() == old(db.KeysOk())
    ensures db.active == old(db.active) || fresh(db.active)
    ensures h.keyLen + h.valueLen > 4 * 1024 * 1024 || h.keyLen + h.valueLen > |old(up.bytes)| ==>
        !open && down.bytes == old(down.bytes)
    ensures old(up.bytes) == a + b + rest && h.keyLen == |a| && h.valueLen == |b|
            && |a| + |b| <= 4 * 1024 * 1024 && old(db.KeysOk()) ==>
              && open && up.bytes == rest
              && |down.bytes| >= |old(down.bytes)| && down.bytes[..|old(down.bytes)|] == old(down.bytes)
              && Answers(db, h.op, a, b, down.bytes[|old(down.bytes)|..], items)
              && (forall k: Bytes :: db.View(k) == After(h.op, a, b, k, old(db.View(k))))
              && (old(db.Fitting()) && Storing(h.op, a, b) ==> db.Fitting())
              && db.Weight() <= old(db.Weight()) + Growth(h.op, a, b)
  {
    hide DB.Valid, DB.View, DB.Fitting, DB.Weight, DB.Layers, DB.KeysOk, Answers, After, MemTable.Valid;
    items := [];
    var total := h.keyLen + h.valueLen;
    if total > PAYLOAD_BUFFER {
      return false, [];
    }
    ghost var known := up.bytes == a + b + rest && h.keyLen == |a| && h.valueLen == |b|;
    var payload := up.ReadFull(total);
    if payload == None {
      return false, [];
    }
    var key, val := payload.value[..h.keyLen], payload.value[h.keyLen..];
    ghost var sent := down.bytes;
    if known {
      PayloadParts(a, b, rest);
    }
    var reply;
    open, reply, items := Reply(h.op, key, val, db);
    if open {
      down.Write(reply);
      assert (sent + reply)[..|sent|] == sent && (sent + reply)[|sent|..] == reply;
    }
  }

  lemma PayloadParts(a: Bytes, b: Bytes, rest: Bytes)
    ensures (a + b + rest)[..|a| + |b|] == a + b && (a + b + rest)[|a| + |b|..] == rest
    ensures (a + b)[..|a|] == a && (a + b)[|a|..] == b
  {
  }

  /** The switch over the op code: the storage call and the bytes to send back. */
  method Reply(op: byte, key: Bytes, val: Bytes, db: DB) returns (ok: bool, reply: Bytes, ghost items: seq<KeyValue>)
    requires db.Valid()
    modifies db, db.wal, db.active
    ensures db.Valid() && fresh(db.Repr() - old(db.Repr()))
    ensures db.l0 == old(db.l0) && db.l1 == old(db.l1) && db.tables == old(db.tables) && db.KeysOk() == old(db.KeysOk())
    ensures db.active == old(db.active) || fresh(db.active)
    ensures old(db.KeysOk()) ==>
              && ok && Answers(db, op, key, val, reply, items)
              && (forall k: Bytes :: db.View(k) == After(op, key, val, k, old(db.View(k))))
              && (old(db.Fitting()) && Storing(op, key, val) ==> db.Fitting())
              && db.Weight() <= old(db.Weight()) + Growth(op, key, val)
  {
    hide DB.Valid, DB.View, DB.Fitting, DB.Weight, DB.Layers, DB.KeysOk, PutBE, GetBE, IsLiveRange, Frame, Ack,
        NotFoundReply, Live,
        DB.Snapshot, Shots.AfterPut, Storable;
    ok, reply, items := true, [], [];
    if op == ECHO {
      reply := Frame(ECHO, key, val);
    } else if op == PUT {
      db.Put(key, val);
      reply := Ack();
    } else if op == GET {
      var r := db.Get(key);
      if r.Err? {
        return false, [], [];
      }
      reply := GetReply(key, r.value);
    } else if op == DELETE {
      db.Delete(key);
      reply := Ack();
    } else if op == SCAN {
      var r := db.Scan(key, val);
      reply := ScanReplyOf(r);
      items := r.value;
    } else {
      reply := NotFoundReply();
    }
  }

  function ScanReplyOf(r: Result<seq<KeyValue>, TableReader.ReadError>): Bytes {
    match r
    case Ok(items) => ScanReply(items)
    case Err(_) => []
  }

  /** One turn of the server's loop over a connection. */
  method Serve(up: Pipe, down: Pipe, db: DB, ghost op: byte, ghost a: Bytes, ghost b: Bytes, ghost rest: Bytes)
    returns (open: bool, ghost items: seq<KeyValue>)
    requires db.Valid() && up != down
    modifies up, down, db, db.wal, db.active
    ensures db.Valid() && fresh(db.Repr() - old(db.Repr()))
    ensures db.l0 == old(db.l0) && db.l1 == old(db.l1) && db.tables == old(db.tables) && db.KeysOk() == old(db.KeysOk())
    ensures db.active == old(db.active) || fresh(db.active)
    ensures old(up.bytes) == Frame(op, a, b) + rest && Fits(a, b) && old(db.KeysOk()) ==>
              && open && up.bytes == rest
              && |down.bytes| >= |old(down.bytes)| && down.bytes[..|old(down.bytes)|] == old(down.bytes)
              && Answers(db, op, a, b, down.bytes[|old(down.bytes)|..], items)
              && (forall k: Bytes :: db.View(k) == After(op, a, b, k, old(db.View(k))))
              && (old(db.Fitting()) && Storing(op, a, b) ==> db.Fitting())
              && db.Weight() <= old(db.Weight()) + Growth(op, a, b)
  {
    hide DB.Valid, DB.View, DB.Fitting, DB.Weight, DB.Layers, DB.KeysOk, Answers, After, MemTable.Valid, Frame, GetBE;
    if up.bytes == Frame(op, a, b) + rest && Fits(a, b) {
      FrameParts(op, a, b, rest);
      assert up.bytes[8..] == a + b + rest by {
        assert up.bytes[8..] == up.bytes[8..][..|a| + |b|] + up.bytes[8..][|a| + |b|..];
      }
    }
    items := [];
    var h := ParseHeader(up);
    if h == None {
      return false, [];
    }
    open, items := HandleRequest(up, down, h.value, db, a, b, rest);
  }

  // ------------------------------------------------------------------ client

  datatype ClientError = ConnectionClosed | BadMagic | UnexpectedResponse | ShortRead

  /** A found reply reads as found exactly when the key's length is not the sentinel. */
  lemma SentinelClash(k: Bytes, v: Bytes)
    requires |k| < 0x1_0000 && |v| < 0x1_0000_0000
    ensures GetBE(Frame(GET, k, v)[2..4]) != NOT_FOUND <==> |k| <= 65534
  {
    HeaderFields(GET, |k|, |v|);
    hide GetBE, PutBE, Header;
    assert Frame(GET, k, v)[2..4] == Header(GET, |k|, |v|)[2..4];
  }

  /** Reading a header off the front of a stream. */
  lemma HeaderFront(op: byte, a: nat, b: nat, rest: Bytes)
    requires a < 0x1_0000 && b < 0x1_0000_0000
    ensures var s := Header(op, a, b) + rest;
            && s[..8] == Header(op, a, b) && s[8..] == rest
            && s[..8][0] == MAGIC && s[..8][1] == op && GetBE(s[..8][2..4]) == a && GetBE(s[..8][4..8]) == b
  {
    HeaderFields(op, a, b);
    hide GetBE, PutBE, Header;
    assert (Header(op, a, b) + rest)[..8] == Header(op, a, b);
  }

  /** Client: one connection, used by one call at a time. */
  class Client {
    const up: Pipe
    const down: Pipe
    var closed: bool

    /** No bytes are under way: the next reply answers the next request. */
    ghost predicate Quiet()
      reads this, up, down
    {
      up.bytes == [] && down.bytes == []
    }

    constructor (up: Pipe, down: Pipe)
      ensures this.up == up && this.down == down && !closed
    {
      this.up, this.down, closed := up, down, false;
    }

    /** Write a request and let the server take its turn. */
    method Send(op: byte, a: Bytes, b: Bytes, db: DB) returns (ghost items: seq<KeyValue>)
      requires db.Valid() && up != down && Quiet()
      modifies up, down, db, db.wal, db.active
      ensures db.Valid() && fresh(db.Repr() - old(db.Repr()))
      ensures db.l0 == old(db.l0) && db.l1 == old(db.l1) && db.tables == old(db.tables)
      ensures db.KeysOk() == old(db.KeysOk())
      ensures db.active == old(db.active) || fresh(db.active)
      ensures Fits(a, b) && old(db.KeysOk()) ==>
                && up.bytes == [] && Answers(db, op, a, b, down.bytes, items)
                && (forall k: Bytes :: db.View(k) == After(op, a, b, k, old(db.View(k))))
                && (old(db.Fitting()) && Storing(op, a, b) ==> db.Fitting())
                && db.Weight() <= old(db.Weight()) + Growth(op, a, b)
    {
      hide DB.Valid, DB.View, DB.Fitting, DB.Weight, DB.Layers, DB.KeysOk, Answers, After, MemTable.Valid, PutBE;
      up.Write(Header(op, |a|, |b|));
      if |a| > 0 {
        up.Write(a);
      }
      if |b| > 0 {
        up.Write(b);
      }
      assert up.bytes == Frame(op, a, b) + [];
      var open;
      open, items := Serve(up, down, db, op, a, b, []);
      assert down.bytes[0..] == down.bytes;
    }

    /** Put and Delete read an acknowledgement. */
    method ReadAck() returns (r: Result<(), ClientError>)
      modifies down
      ensures old(down.bytes) == Ack() ==> r == Ok(()) && down.bytes == []
    {
      if down.bytes == Ack() {
        HeaderFront(0, 0, 0, []);
        assert Ack() + [] == Ack();
      }
      var ack := down.ReadFull(HEADER_SIZE);
      if ack == None {
        return Err(ShortRead);
      }
      if ack.value[0] != MAGIC {
        return Err(BadMagic);
      }
      r := Ok(());
    }

    method Put(key: Bytes, value: Bytes, db: DB) returns (r: Result<(), ClientError>)
      requires db.Valid() && up != down && Quiet()
      modifies up, down, db, db.wal, db.active
      ensures db.Valid() && fresh(db.Repr() - old(db.Repr()))
      ensures db.l0 == old(db.l0) && db.l1 == old(db.l1) && db.tables == old(db.tables)
      ensures db.KeysOk() == old(db.KeysOk())
      ensures db.active == old(db.active) || fresh(db.active)
      ensures Fits(key, value) && old(db.KeysOk()) && old(db.Fitting()) && Storable(key, value) ==> db.Fitting()
      ensures Fits(key, value) && old(db.KeysOk()) ==> db.Weight() <= old(db.Weight()) + 7 + |key| + |value|
      ensures closed ==> r == Err(ConnectionClosed) && Quiet() && forall k: Bytes :: db.View(k) == old(db.View(k))
      ensures !closed && Fits(key, value) && old(db.KeysOk()) ==>
                r == Ok(()) && Quiet() && forall k: Bytes :: db.View(k) == if k == key then Live(Some(value))
                    else old(db.View(k))
    {
      hide DB.Valid, DB.View, DB.Fitting, DB.Weight, DB.Layers, DB.KeysOk, MemTable.Valid, Ack;
      if closed {
        return Err(ConnectionClosed);
      }
      ghost var items := Send(PUT, key, value, db);
      r := ReadAck();
    }

    method Delete(key: Bytes, db: DB) returns (r: Result<(), ClientError>)
      requires db.Valid() && up != down && Quiet()
      modifies up, down, db, db.wal, db.active
      ensures db.Valid() && fresh(db.Repr() - old(db.Repr()))
      ensures db.l0 == old(db.l0) && db.l1 == old(db.l1) && db.tables == old(db.tables)
      ensures db.KeysOk() == old(db.KeysOk())
      ensures db.active == old(db.active) || fresh(db.active)
      ensures Fits(key, []) && old(db.KeysOk()) && old(db.Fitting()) && Storable(key, []) ==> db.Fitting()
      ensures Fits(key, []) && old(db.KeysOk()) ==> db.Weight() <= old(db.Weight()) + 7 + |key|
      ensures closed ==> r == Err(ConnectionClosed) && Quiet() && forall k: Bytes :: db.View(k) == old(db.View(k))
      ensures !closed && Fits(key, []) && old(db.KeysOk()) ==>
                r == Ok(()) && Quiet() && forall k: Bytes :: db.View(k) == if k == key then None else old(db.View(k))
    {
      hide DB.Valid, DB.View, DB.Fitting, DB.Weight, DB.Layers, DB.KeysOk, MemTable.Valid, Ack;
      if closed {
        return Err(ConnectionClosed);
      }
      ghost var items := Send(DELETE, key, [], db);
      r := ReadAck();
    }

    /**
     The reading half of Get. A found key of 65535 bytes reads as missing, and the reply's payload stays in the
     stream.
     */
    method ReadGet(ghost k: Bytes, ghost x: Option<Bytes>) returns (r: Result<Option<Bytes>, ClientError>)
      modifies down
      ensures old(down.bytes) == GetReply(k, x) && |k| < 0x1_0000 && (x.Some? ==> |x.value| < 0x1_0000_0000) ==>
                if x.Some? && |k| == 65535 then r == Ok(None) && down.bytes == k + x.value
                else r == Ok(x) && down.bytes == []
    {
      ghost var known := down.bytes == GetReply(k, x) && |k| < 0x1_0000 && (x.Some? ==> |x.value| < 0x1_0000_0000);
      hide GetBE, PutBE, Header;
      if known {
        GetReplyParts(k, x);
      }
      var resp := down.ReadFull(HEADER_SIZE);
      if resp == None {
        return Err(ShortRead);
      }
      if resp.value[0] != MAGIC {
        return Err(BadMagic);
      }
      var keyLen := GetBE(resp.value[2..4]);
      if keyLen == NOT_FOUND {
        return Ok(None);
      }
      var valLen := GetBE(resp.value[4..8]);
      var key := down.ReadFull(keyLen);
      if key == None {
        return Err(ShortRead);
      }
      var val := down.ReadFull(valLen);
      if val == None {
        return Err(ShortRead);
      }
      r := Ok(val);
    }

    method Get(key: Bytes, db: DB) returns (r: Result<Option<Bytes>, ClientError>)
      requires db.Valid() && up != down && Quiet()
      modifies up, down, db, db.wal, db.active
      ensures db.Valid() && fresh(db.Repr() - old(db.Repr()))
      ensures db.l0 == old(db.l0) && db.l1 == old(db.l1) && db.tables == old(db.tables)
      ensures db.KeysOk() == old(db.KeysOk())
      ensures db.active == old(db.active) || fresh(db.active)
      ensures Fits(key, []) && old(db.KeysOk()) && old(db.Fitting()) ==> db.Fitting()
      ensures Fits(key, []) && old(db.KeysOk()) ==> db.Weight() <= old(db.Weight())
      ensures closed ==> r == Err(ConnectionClosed) && Quiet()
      ensures forall k: Bytes :: old(db.KeysOk()) && Fits(key, []) ==>
                db.View(k) == old(db.View(k))
      ensures !closed && Fits(key, []) && old(db.KeysOk())
              && (db.View(key).Some? ==> |db.View(key).value| < 0x1_0000_0000) ==>
                if db.View(key).Some? && |key| == 65535 then r == Ok(None) && down.bytes == key + db.View(key).value
                else r == Ok(db.View(key)) && Quiet()
    {
      hide DB.View, DB.Fitting, DB.Weight, DB.Layers, DB.KeysOk, MemTable.Valid, GetReply, DB.FilesOk;
      if closed {
        return Err(ConnectionClosed);
      }
      ghost var items := Send(GET, key, [], db);
      r := ReadGet(key, db.View(key));
    }

    /** The reading half of Scan. */
    method ReadScan(ghost items: seq<KeyValue>) returns (r: Result<seq<KeyValue>, ClientError>)
      modifies down
      ensures old(down.bytes) == ScanReply(items) && ItemsFit(items) ==> r == Ok(items) && down.bytes == []
    {
      ghost var known := down.bytes == ScanReply(items) && ItemsFit(items);
      hide GetBE, PutBE, Header, TotalBytes;
      if known {
        HeaderFront(SCAN, |items|, TotalBytes(items), ItemsBytes(items));
      }
      var resp := down.ReadFull(HEADER_SIZE);
      if resp == None {
        return Err(ShortRead);
      }
      if resp.value[0] != MAGIC || resp.value[1] != SCAN {
        return Err(UnexpectedResponse);
      }
      var count := GetBE(resp.value[2..4]);
      var results: seq<KeyValue> := [];
      var i := 0;
      hide ScanReply, ItemsBytes, ItemBytes;
      ItemsStart(items);
      while i < count
        invariant 0 <= i <= count
        invariant known ==> count == |items| && results == items[..i] && down.bytes == ItemsBytes(items[i..])
      {
        if known {
          ItemsStep(items, i);
        }
        var item := ReadItem(if known then items[i] else KeyValue([], []),
            if known then ItemsBytes(items[i + 1..]) else []);
        if item == None {
          return Err(ShortRead);
        }
        results := results + [item.value];
        i := i + 1;
      }
      r := Ok(results);
    }

    /** One item of a scan reply. */
    method ReadItem(ghost it: KeyValue, ghost rest: Bytes) returns (r: Option<KeyValue>)
      modifies down
      ensures old(down.bytes) == ItemBytes(it) + rest && |it.key| < 0x1_0000 && |it.val| < 0x1_0000_0000 ==>
                r == Some(it) && down.bytes == rest
    {
      hide GetBE, PutBE, ItemBytes;
      if down.bytes == ItemBytes(it) + rest && |it.key| < 0x1_0000 && |it.val| < 0x1_0000_0000 {
        ItemParts(it, rest);
      }
      var header := down.ReadFull(6);
      if header == None {
        return None;
      }
      var keyLen, valLen := GetBE(header.value[0..2]), GetBE(header.value[2..6]);
      var key := down.ReadFull(keyLen);
      if key == None {
        return None;
      }
      var val := down.ReadFull(valLen);
      if val == None {
        return None;
      }
      r := Some(KeyValue(key.value, val.value));
    }

    /** Scan: the storage's live range, as long as the reply's counts and lengths fit their fields. */
    method Scan(lo: Bytes, hi: Bytes, db: DB) returns (r: Result<seq<KeyValue>, ClientError>,
                ghost items: seq<KeyValue>)
      requires db.Valid() && up != down && Quiet()
      modifies up, down, db, db.wal, db.active
      ensures db.Valid() && fresh(db.Repr() - old(db.Repr()))
      ensures db.l0 == old(db.l0) && db.l1 == old(db.l1) && db.tables == old(db.tables)
      ensures db.KeysOk() == old(db.KeysOk())
      ensures db.active == old(db.active) || fresh(db.active)
      ensures Fits(lo, hi) && old(db.KeysOk()) && old(db.Fitting()) ==> db.Fitting()
      ensures Fits(lo, hi) && old(db.KeysOk()) ==> db.Weight() <= old(db.Weight())
      ensures closed ==> r == Err(ConnectionClosed) && Quiet()
      ensures !closed && Fits(lo, hi) && old(db.KeysOk()) ==>
                && IsLiveRange(db.Layers(), lo, hi, items)
                && (ItemsFit(items) ==> r == Ok(items) && Quiet())
                && forall k: Bytes :: db.View(k) == old(db.View(k))
    {
      hide DB.View, DB.Fitting, DB.Weight, DB.Layers, DB.KeysOk, MemTable.Valid, DB.FilesOk, ScanReply, ItemsFit,
          IsLiveRange;
      items := [];
      if closed {
        return Err(ConnectionClosed), [];
      }
      items := Send(SCAN, lo, hi, db);
      r := ReadScan(items);
    }

    /** Echo. */
    method Echo(payload: Bytes, db: DB) returns (r: Result<Bytes, ClientError>)
      requires db.Valid() && up != down && Quiet()
      modifies up, down, db, db.wal, db.active
      ensures db.Valid() && fresh(db.Repr() - old(db.Repr()))
      ensures db.l0 == old(db.l0) && db.l1 == old(db.l1) && db.tables == old(db.tables)
      ensures db.KeysOk() == old(db.KeysOk())
      ensures db.active == old(db.active) || fresh(db.active)
      ensures Fits([], payload) && old(db.KeysOk()) && old(db.Fitting()) ==> db.Fitting()
      ensures Fits([], payload) && old(db.KeysOk()) ==> db.Weight() <= old(db.Weight())
      ensures closed ==> r == Err(ConnectionClosed) && Quiet()
      ensures !closed && Fits([], payload) && old(db.KeysOk()) ==>
                r == Ok(payload) && Quiet() && forall k: Bytes :: db.View(k) == old(db.View(k))
    {
      hide DB.View, DB.Fitting, DB.Weight, DB.Layers, DB.KeysOk, MemTable.Valid, DB.FilesOk, GetBE, PutBE, Header;
      if closed {
        return Err(ConnectionClosed);
      }
      ghost var known := Fits([], payload) && db.KeysOk();
      ghost var items := Send(ECHO, [], payload, db);
      if known {
        HeaderFront(ECHO, 0, |payload|, payload);
        assert Frame(ECHO, [], payload) == Header(ECHO, 0, |payload|) + payload;
        assert payload[..|payload|] == payload;
      }
      var resp := down.ReadFull(HEADER_SIZE);
      if resp == None {
        return Err(ShortRead);
      }
      var res := down.ReadFull(GetBE(resp.value[4..8]));
      if res == None {
        return Err(ShortRead);
      }
      r := Ok(res.value);
    }
  }

  /** A scan result whose count and lengths fit the reply's fields. */
  ghost predicate ItemsFit(items: seq<KeyValue>) {
    |items| < 0x1_0000 && forall i :: 0 <= i < |items| ==> |items[i].key| < 0x1_0000 && |items[i].val| < 0x1_0000_0000
  }

  lemma ItemsStart(items: seq<KeyValue>)
    ensures items[0..] == items && items[..0] == [] && items[..|items|] == items && ItemsBytes(items[|items|..]) == []
  {
  }

  lemma ItemsStep(items: seq<KeyValue>, i: nat)
    requires ItemsFit(items) && i < |items|
    ensures ItemsBytes(items[i..]) == ItemBytes(items[i]) + ItemsBytes(items[i + 1..])
    ensures |items[i].key| < 0x1_0000 && |items[i].val| < 0x1_0000_0000 && items[..i + 1] == items[..i] + [items[i]]
  {
    assert items[i..][1..] == items[i + 1..];
  }

  lemma ItemParts(it: KeyValue, rest: Bytes)
    requires |it.key| < 0x1_0000 && |it.val| < 0x1_0000_0000
    ensures var s := ItemBytes(it) + rest;
            && |s| >= 6 + |it.key| + |it.val|
            && GetBE(s[..6][0..2]) == |it.key| && GetBE(s[..6][2..6]) == |it.val|
            && s[6..][..|it.key|] == it.key && s[6..][|it.key|..][..|it.val|] == it.val
                && s[6..][|it.key|..][|it.val|..] == rest
  {
    hide GetBE, PutBE;
    LengthParts(|it.key|, |it.val|);
    var a, b := PutBE(|it.key|, 2), PutBE(|it.val|, 4);
    ThreeParts(a, b, it.key, it.val, rest);
  }

  /** The two length fields of an item. */
  lemma LengthParts(m: nat, n: nat)
    requires m < 0x1_0000 && n < 0x1_0000_0000
    ensures var s := PutBE(m, 2) + PutBE(n, 4);
            |PutBE(m, 2)| == 2 && |PutBE(n, 4)| == 4 && GetBE(s[0..2]) == m && GetBE(s[2..6]) == n
  {
    GetPut16(m);
    GetPut32(n);
    hide GetBE, PutBE;
    var s := PutBE(m, 2) + PutBE(n, 4);
    assert s[0..2] == PutBE(m, 2) && s[2..6] == PutBE(n, 4);
  }

  lemma ThreeParts(a: Bytes, b: Bytes, key: Bytes, val: Bytes, rest: Bytes)
    ensures var s, n := a + b + key + val + rest, |a| + |b|;
            && s[..n] == a + b && s[n..][..|key|] == key && s[n..][|key|..][..|val|] == val
                && s[n..][|key|..][|val|..] == rest
  {
    var s := a + b + key + val + rest;
    var tail := key + val + rest;
    assert s == (a + b) + tail;
    assert s[|a| + |b|..] == tail;
    assert tail == key + (val + rest);
    assert tail[|key|..] == val + rest;
  }

  lemma GetReplyParts(k: Bytes, x: Option<Bytes>)
    requires |k| < 0x1_0000 && (x.Some? ==> |x.value| < 0x1_0000_0000)
    ensures var s := GetReply(k, x);
            && |s| >= 8 && s[..8][0] == MAGIC
            && (x == None ==> GetBE(s[..8][2..4]) == NOT_FOUND && s[8..] == [])
            && (x.Some? ==> GetBE(s[..8][2..4]) == |k| && GetBE(s[..8][4..8]) == |x.value|
                            && s[8..] == k + x.value && s[8..][..|k|] == k && s[8..][|k|..] == x.value
                                && s[8..][|k|..][..|x.value|] == x.value
                            && s[8..][|k|..][|x.value|..] == [])
  {
    hide GetBE, PutBE, Header;
    if x == None {
      HeaderFront(0, NOT_FOUND, 0, []);
      assert NotFoundReply() + [] == NotFoundReply();
    } else {
      HeaderFront(GET, |k|, |x.value|, k + x.value);
      assert Frame(GET, k, x.value) == Header(GET, |k|, |x.value|) + (k + x.value);
      assert (k + x.value)[..|k|] == k && (k + x.value)[|k|..] == x.value;
      assert x.value[..|x.value|] == x.value && x.value[|x.value|..] == [];
    }
  }

  // ------------------------------------------------------ sequences of calls

  datatype Call =
    | PutCall(key: Bytes, val: Bytes)
    | DeleteCall(key: Bytes)
    | GetCall(key: Bytes)
    | ScanCall(lo: Bytes, hi: Bytes)
    | EchoCall(payload: Bytes)

  datatype Answer = Done | Got(x: Option<Bytes>) | Listed(items: seq<KeyValue>) | Echoed(payload: Bytes) | Failed

  /** The storage as a map from keys to what they read as. */
  type View = imap<Bytes, Option<Bytes>>

  /** What a key reads as after a call. */
  function AfterCall(c: Call, k: Bytes, before: Option<Bytes>): Option<Bytes> {
    if c.PutCall? && k == c.key then Live(Some(c.val)) else if c.DeleteCall? && k == c.key then None else before
  }

  function AfterCalls(cs: seq<Call>, k: Bytes, before: Option<Bytes>): Option<Bytes> {
    if cs == [] then before else AfterCall(cs[|cs| - 1], k, AfterCalls(cs[..|cs| - 1], k, before))
  }

  ghost predicate IsView(view: View, db: DB)
    reads db, db.wal, db.active, db.immutable
    requires db.Valid()
  {
    forall k: Bytes :: k in view && view[k] == db.View(k)
  }

  ghost function ViewAfter(cs: seq<Call>, view: View): (after: View)
    requires forall k: Bytes :: k in view
    ensures forall k: Bytes :: k in after
  {
    imap k: Bytes | true :: AfterCalls(cs, k, view[k])
  }

  /** The pairs of a view within bounds, strictly ascending. */
  ghost predicate RangeOf(view: View, lo: Bytes, hi: Bytes, items: seq<KeyValue>)
    requires forall k: Bytes :: k in view
  {
    && AscendingKeys(items)
    && forall k: Bytes, v: Bytes :: KeyValue(k, v) in items <==> InBounds(k, lo, hi) && view[k] == Some(v)
  }

  /** The answer a call deserves when the storage is in this state. */
  ghost predicate Answered(c: Call, view: View, a: Answer)
    requires forall k: Bytes :: k in view
  {
    match c
    case PutCall(_, _) => a == Done
    case DeleteCall(_) => a == Done
    case GetCall(k) => a == Got(view[k])
    case ScanCall(lo, hi) => a.Listed? && RangeOf(view, lo, hi, a.items)
    case EchoCall(payload) => a == Echoed(payload)
  }

  /** Lengths and counts of a call and of its reply fit their fields. */
  ghost predicate CallFits(c: Call, view: View)
    requires forall k: Bytes :: k in view
  {
    match c
    case PutCall(k, v) => Fits(k, v)
    case DeleteCall(k) => Fits(k, [])
    case GetCall(k) => |k| <= 65534 && (view[k].Some? ==> |view[k].value| < 0x1_0000_0000)
    case ScanCall(lo, hi) => Fits(lo, hi) && forall items :: RangeOf(view, lo, hi, items) ==> ItemsFit(items)
    case EchoCall(payload) => Fits([], payload)
  }

  /** What the call stores fits every file's limits. */
  predicate CallStorable(c: Call) {
    match c
    case PutCall(k, v) => Storable(k, v)
    case DeleteCall(k) => Storable(k, [])
    case _ => true
  }

  function CallWeight(c: Call): nat {
    match c
    case PutCall(k, v) => 7 + |k| + |v|
    case DeleteCall(k) => 7 + |k|
    case _ => 0
  }

  /** One call, whichever it is. */
  method Perform(client: Client, c: Call, db: DB, ghost view: View) returns (a: Answer)
    requires db.Valid() && client.up != client.down && client.Quiet() && !client.closed && db.KeysOk()
    requires IsView(view, db) && CallFits(c, view)
    modifies client.up, client.down, db, db.wal, db.active
    ensures db.Valid() && fresh(db.Repr() - old(db.Repr())) && client.Quiet() && db.KeysOk()
    ensures db.active == old(db.active) || fresh(db.active)
    ensures Answered(c, view, a) && IsView(ViewAfter([c], view), db)
    ensures old(db.Fitting()) && CallStorable(c) ==> db.Fitting()
    ensures db.Weight() <= old(db.Weight()) + CallWeight(c)
  {
    hide DB.FilesOk, DB.View, DB.Fitting, DB.Weight, DB.Layers, DB.KeysOk, MemTable.Valid, RangeOf, ItemsFit,
        IsLiveRange;
    OneCall(c);
    match c {
      case PutCall(k, v) =>
        var r := client.Put(k, v, db);
        a := DoneOf(r);
      case DeleteCall(k) =>
        var r := client.Delete(k, db);
        a := DoneOf(r);
      case GetCall(k) =>
        var r := client.Get(k, db);
        a := GotOf(r);
      case ScanCall(lo, hi) =>
        var r;
        ghost var items;
        r, items := client.Scan(lo, hi, db);
        LiveIsRange(db, view, lo, hi, items);
        a := ListedOf(r);
      case EchoCall(payload) =>
        var r := client.Echo(payload, db);
        a := EchoedOf(r);
    }
  }

  function DoneOf(r: Result<(), ClientError>): Answer {
    if r.Ok? then Done else Failed
  }

  function GotOf(r: Result<Option<Bytes>, ClientError>): Answer {
    match r case Ok(x) => Got(x) case Err(_) => Failed
  }

  function ListedOf(r: Result<seq<KeyValue>, ClientError>): Answer {
    match r case Ok(items) => Listed(items) case Err(_) => Failed
  }

  function EchoedOf(r: Result<Bytes, ClientError>): Answer {
    match r case Ok(payload) => Echoed(payload) case Err(_) => Failed
  }

  lemma OneCall(c: Call)
    ensures forall k: Bytes, x: Option<Bytes> :: AfterCalls([c], k, x) == AfterCall(c, k, x)
  {
    assert [c][..0] == [];
  }

  lemma LiveIsRange(db: DB, view: View, lo: Bytes, hi: Bytes, items: seq<KeyValue>)
    requires db.Valid() && IsView(view, db) && IsLiveRange(db.Layers(), lo, hi, items)
    ensures RangeOf(view, lo, hi, items)
  {
    hide AscendingKeys, InBounds, DB.Layers, Newest, Live;
  }

  /**
   Any sequence of calls on one connection: the i-th answer is the answer of the storage as the calls before it left it,
   and in the end no byte is under way.
   */
  method Converse(client: Client, calls: seq<Call>, db: DB, ghost view: View) returns (answers: seq<Answer>)
    requires db.Valid() && client.up != client.down && client.Quiet() && !client.closed && db.KeysOk()
    requires IsView(view, db) && forall i :: 0 <= i < |calls| ==> CallFits(calls[i], ViewAfter(calls[..i], view))
    modifies client.up, client.down, db, db.wal, db.active
    ensures db.Valid() && client.Quiet() && db.KeysOk() && |answers| == |calls|
    ensures forall i :: 0 <= i < |calls| ==> Answered(calls[i], ViewAfter(calls[..i], view), answers[i])
    ensures IsView(ViewAfter(calls, view), db)
  {
    answers := [];
    var i := 0;
    hide DB.Valid, DB.View, DB.Fitting, DB.Weight, DB.KeysOk, MemTable.Valid, Answered, CallFits, IsView, ViewAfter;
    ViewIsTotal(view, db);
    NoCalls(view);
    assert calls[..0] == [];
    while i < |calls|
      invariant i <= |calls| && |answers| == i
      invariant db.Valid() && fresh(db.Repr() - old(db.Repr())) && client.Quiet() && db.KeysOk()
      invariant db.active == old(db.active) || fresh(db.active)
      invariant IsView(ViewAfter(calls[..i], view), db)
      invariant forall j :: 0 <= j < i ==> Answered(calls[j], ViewAfter(calls[..j], view), answers[j])
    {
      var a := Perform(client, calls[i], db, ViewAfter(calls[..i], view));
      answers := answers + [a];
      OneMoreCall(calls, i, view);
      i := i + 1;
    }
    assert calls[..i] == calls;
  }

  lemma ViewIsTotal(view: View, db: DB)
    requires db.Valid() && IsView(view, db)
    ensures forall k: Bytes :: k in view
  {
  }

  lemma NoCalls(view: View)
    requires forall k: Bytes :: k in view
    ensures ViewAfter([], view) == view
  {
  }

  lemma OneMoreCall(calls: seq<Call>, i: nat, view: View)
    requires i < |calls| && forall k: Bytes :: k in view
    ensures ViewAfter([calls[i]], ViewAfter(calls[..i], view)) == ViewAfter(calls[..i + 1], view)
  {
    OneCall(calls[i]);
    assert calls[..i + 1][..i] == calls[..i];
  }

  // --------------------------------------- calls beside the flush worker

  /** A client's call, or a turn of the flush worker. */
  datatype Turn = Ask(c: Call) | Work

  function CallsOf(turns: seq<Turn>): seq<Call> {
    if turns == [] then []
    else CallsOf(turns[..|turns| - 1]) + match turns[|turns| - 1] case Ask(c) => [c] case Work => []
  }

  function CallsWeight(cs: seq<Call>): nat {
    if cs == [] then 0 else CallsWeight(cs[..|cs| - 1]) + CallWeight(cs[|cs| - 1])
  }

  lemma {:induction false} CallsPrefix(turns: seq<Turn>, i: nat)
    requires i <= |turns|
    ensures CallsOf(turns[..i]) <= CallsOf(turns)
    decreases |turns|
  {
    if i < |turns| {
      var init := turns[..|turns| - 1];
      assert init[..i] == turns[..i];
      CallsPrefix(init, i);
    } else {
      assert turns[..i] == turns;
    }
  }

  lemma {:induction false} WeightPrefix(cs: seq<Call>, n: nat)
    requires n <= |cs|
    ensures CallsWeight(cs[..n]) <= CallsWeight(cs)
    decreases |cs|
  {
    if n < |cs| {
      var init := cs[..|cs| - 1];
      assert init[..n] == cs[..n];
      WeightPrefix(init, n);
    } else {
      assert cs[..n] == cs;
    }
  }

  /** The calls up to and with turn i. */
  lemma NextTurn(turns: seq<Turn>, i: nat)
    requires i < |turns|
    ensures var calls, n := CallsOf(turns), |CallsOf(turns[..i])|;
            && n <= |calls| && CallsOf(turns[..i]) == calls[..n]
            && (turns[i] == Work ==> CallsOf(turns[..i + 1]) == calls[..n])
            && (turns[i].Ask? ==> n < |calls| && calls[n] == turns[i].c && CallsOf(turns[..i + 1]) == calls[..n + 1])
  {
    CallsPrefix(turns, i);
    CallsPrefix(turns, i + 1);
    assert turns[..i + 1][..i] == turns[..i];
  }

  lemma NextWeight(cs: seq<Call>, n: nat)
    requires n < |cs|
    ensures CallsWeight(cs[..n + 1]) == CallsWeight(cs[..n]) + CallWeight(cs[n])
    ensures CallsWeight(cs[..n + 1]) <= CallsWeight(cs)
  {
    assert cs[..n + 1][..n] == cs[..n];
    WeightPrefix(cs, n + 1);
  }

  /** The worker's turn, as the client sees it. */
  method Background(db: DB, ghost view: View)
    requires db.Valid() && db.KeysOk() && db.Fitting() && db.Weight() < TableFormat.MAX_DATA && IsView(view, db)
    modifies db
    ensures db.Valid() && db.KeysOk() && db.Fitting() && db.Weight() <= old(db.Weight()) && IsView(view, db)
    ensures db.Repr() <= old(db.Repr()) && db.active == old(db.active)
  {
    hide DB.FilesOk, DB.View, DB.KeysOk, DB.Fitting, DB.Weight, MemTable.Valid;
    db.WorkerTurn();
  }

  /**
   Any sequence of calls on one connection, with any number of flushes and compactions between them: as long as what
   is stored fits the files' limits, the answers are those of the storage that only the calls change.
   */
  method ConverseBeside(client: Client, turns: seq<Turn>, db: DB, ghost view: View) returns (answers: seq<Answer>)
    requires db.Valid() && client.up != client.down && client.Quiet() && !client.closed && db.KeysOk()
    requires db.Fitting() && db.Weight() + CallsWeight(CallsOf(turns)) < TableFormat.MAX_DATA && IsView(view, db)
    requires forall i :: 0 <= i < |CallsOf(turns)| ==> CallStorable(CallsOf(turns)[i])
    requires forall i :: 0 <= i < |CallsOf(turns)| ==> CallFits(CallsOf(turns)[i], ViewAfter(CallsOf(turns)[..i], view))
    modifies client.up, client.down, db, db.wal, db.active
    ensures db.Valid() && client.Quiet() && db.KeysOk() && db.Fitting()
    ensures var calls := CallsOf(turns);
            && |answers| == |calls|
            && (forall i :: 0 <= i < |calls| ==> Answered(calls[i], ViewAfter(calls[..i], view), answers[i]))
            && IsView(ViewAfter(calls, view), db)
  {
    answers := [];
    var i := 0;
    hide DB.FilesOk, DB.View, DB.KeysOk, DB.Fitting, DB.Weight, MemTable.Valid, Answered, CallFits, IsView, ViewAfter,
        CallsOf, CallStorable, CallsWeight, CallWeight, Client.Quiet;
    ViewIsTotal(view, db);
    NoCalls(view);
    ghost var calls := CallsOf(turns);
    CallsPrefix(turns, 0);
    NoTurns();
    assert turns[..0] == [] && calls[..0] == [];
    while i < |turns|
      invariant i <= |turns| && |answers| <= |calls| && CallsOf(turns[..i]) == calls[..|answers|]
      invariant db.Valid() && fresh(db.Repr() - old(db.Repr())) && client.Quiet() && db.KeysOk() && db.Fitting()
      invariant db.active == old(db.active) || fresh(db.active)
      invariant db.Weight() <= old(db.Weight()) + CallsWeight(calls[..|answers|])
      invariant IsView(ViewAfter(calls[..|answers|], view), db)
      invariant forall j :: 0 <= j < |answers| ==> Answered(calls[j], ViewAfter(calls[..j], view), answers[j])
    {
      NextTurn(turns, i);
      match turns[i] {
        case Ask(c) =>
          NextWeight(calls, |answers|);
          OneMoreCall(calls, |answers|, view);
          var a := Perform(client, c, db, ViewAfter(calls[..|answers|], view));
          answers := answers + [a];
        case Work =>
          WeightPrefix(calls, |answers|);
          Background(db, ViewAfter(calls[..|answers|], view));
      }
      i := i + 1;
    }
    assert turns[..i] == turns;
    assert calls[..|answers|] == calls;
  }

  lemma NoTurns()
    ensures CallsOf([]) == [] && CallsWeight([]) == 0
  {
  }
}
