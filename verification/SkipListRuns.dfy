/**
 The MemTable under concurrency (internal/engine/memtable.go:62-205): one writer holds the lock, any number of
 readers run without it. Every step makes one access to shared memory, and a run is any interleaving of steps.

 `log` is history: the writes in the order in which they took effect. `finished` counts the Puts that returned nil.
 A Put that finds the table frozen before it asks for the lock returns its error without touching anything and is no
 step.
 */
module SkipListRuns {
  import opened Options
  import opened ByteStrings
  import opened Layers
  import opened SkipList
  import opened SkipListSearch

  /** MemTable.Put while it holds the lock, by the statement that comes next. */
  datatype WriterPc =
    | CheckFrozen
    | Search(i: nat, curr: nat)
    | Candidate
    | Overwrite(n: nat)
    | Grow
    | Wire(n: nat, height: nat, i: nat)
    | Publish(n: nat, height: nat, i: nat)
    | Finish
    | Refuse

  /** The holder of the write lock. */
  datatype Holder =
    | Free
    | Putting(key: Bytes, val: Bytes, preds: seq<nat>, pc: WriterPc)
    | Freezing(stored: bool)

  /** One MemTable.Get call. `since` is history: the length of `log` when it began. */
  datatype Reader = Reader(key: Bytes, pc: ReaderPc, since: nat)

  datatype ReaderPc =
    | Load(i: nat, curr: nat)
    | LoadVal(n: nat)
    | Reload(curr: nat)
    | Returned(res: Option<Bytes>)

  datatype State = State(
    t: SkipList,
    size: nat,
    frozen: bool,
    mu: Holder,
    readers: map<nat, Reader>,
    log: seq<(Bytes, Bytes)>,
    finished: nat)

  datatype Action =
    | BeginPut(key: Bytes, val: Bytes)
    | StepPut(height: nat)
    | BeginFreeze
    | StepFreeze
    | BeginGet(r: nat, key: Bytes)
    | StepGet(r: nat)

  function Init(): State {
    State(Empty(), 0, false, Free, map[], [], 0)
  }

  predicate Enabled(s: State, a: Action) {
    match a
    case BeginPut(_, _) => s.mu == Free
    case StepPut(h) => s.mu.Putting? && 1 <= h <= MAX_LEVEL
    case BeginFreeze => s.mu == Free
    case StepFreeze => s.mu.Freezing?
    case BeginGet(r, _) => r !in s.readers
    case StepGet(r) => r in s.readers && !s.readers[r].pc.Returned?
  }

  // ------------------------------------------------------------- the steps

  predicate PointerOk(t: SkipList, n: nat, i: nat) {
    n < |t.nodes| && i < |t.nodes[n].nexts| && (t.nodes[n].nexts[i].Some? ==> t.nodes[n].nexts[i].value < |t.nodes|)
  }

  /** The pointers a program counter follows exist. */
  predicate WriterInRange(t: SkipList, preds: seq<nat>, pc: WriterPc) {
    && Wf(t) && |preds| == MAX_LEVEL
    && match pc
       case Search(i, c) => i < MAX_LEVEL && PointerOk(t, c, i)
       case Candidate => PointerOk(t, preds[0], 0)
       case Overwrite(n) => n < |t.nodes|
       case Wire(n, h, i) => n < |t.nodes| && i <= h <= MAX_LEVEL && (i < h ==> preds[i] < |t.nodes|)
       case Publish(n, h, i) => n < |t.nodes| && i <= h <= MAX_LEVEL && (i < h ==> preds[i] < |t.nodes|)
       case _ => true
  }

  /** One statement of Put. */
  function PutStep(s: State, h: nat): State
    requires s.mu.Putting? && WriterInRange(s.t, s.mu.preds, s.mu.pc)
  {
    var Putting(k, v, preds, pc) := s.mu;
    var t := s.t;
    match pc
    case CheckFrozen => s.(mu := s.mu.(pc := if s.frozen then Refuse else Search(MAX_LEVEL - 1, 0)))
    case Search(i, c) =>
      var o := t.nodes[c].nexts[i];
      if o.Some? && Less(t.nodes[o.value].key, k) then s.(mu := s.mu.(pc := Search(i, o.value)))
      else s.(mu := Putting(k, v, preds[i := c], if i == 0 then Candidate else Search(i - 1, c)))
    case Candidate =>
      var o := t.nodes[preds[0]].nexts[0];
      s.(mu := s.mu.(pc := if o.Some? && t.nodes[o.value].key == k then Overwrite(o.value) else Grow))
    case Overwrite(n) => s.(t := StoreVal(t, n, v), log := s.log + [(k, v)], mu := s.mu.(pc := Finish))
    case Grow => s.(t := Alloc(t, k, v), size := s.size + |k| + |v|, mu := s.mu.(pc := Wire(|t.nodes|, h, 0)))
    case Wire(n, height, i) =>
      if i == height then s.(mu := s.mu.(pc := Publish(n, height, 0)))
      else s.(t := StoreNext(t, n, i, t.nodes[preds[i]].nexts[i]), mu := s.mu.(pc := Wire(n, height, i + 1)))
    case Publish(n, height, i) =>
      if i == height then s.(mu := s.mu.(pc := Finish))
      else
        s.(t := Link(t, preds[i], i, n), mu := s.mu.(pc := Publish(n, height, i + 1)),
           log := if i == 0 then s.log + [(k, v)] else s.log)
    case Finish => s.(mu := Free, finished := s.finished + 1)
    case Refuse => s.(mu := Free)
  }

  function FreezeStep(s: State): State
    requires s.mu.Freezing?
  {
    if s.mu.stored then s.(mu := Free) else s.(frozen := true, mu := Freezing(true))
  }

  predicate ReaderInRange(t: SkipList, pc: ReaderPc) {
    && Wf(t)
    && match pc
       case Load(i, c) => PointerOk(t, c, i)
       case LoadVal(n) => n < |t.nodes|
       case Reload(c) => PointerOk(t, c, 0)
       case Returned(_) => true
  }

  /** One statement of Get. */
  function GetStep(t: SkipList, x: Reader): Reader
    requires ReaderInRange(t, x.pc)
  {
    match x.pc
    case Load(i, c) =>
      var o := t.nodes[c].nexts[i];
      x.(pc := if o.Some? && Less(t.nodes[o.value].key, x.key) then Load(i, o.value)
               else if o.Some? && t.nodes[o.value].key == x.key then LoadVal(o.value)
               else if i == 0 then Reload(c) else Load(i - 1, c))
    case LoadVal(n) => x.(pc := Returned(t.nodes[n].val))
    case Reload(c) =>
      var o := t.nodes[c].nexts[0];
      x.(pc := if o.Some? && t.nodes[o.value].key == x.key then LoadVal(o.value) else Returned(None))
    case Returned(_) => x
  }

  predicate InRange(s: State) {
    && (s.mu.Putting? ==> WriterInRange(s.t, s.mu.preds, s.mu.pc))
    && forall r :: r in s.readers ==> ReaderInRange(s.t, s.readers[r].pc)
  }

  function Apply(s: State, a: Action): State
    requires InRange(s) && Enabled(s, a)
  {
    match a
    case BeginPut(k, v) => s.(mu := Putting(k, v, seq(MAX_LEVEL, _ => 0), CheckFrozen))
    case StepPut(h) => PutStep(s, h)
    case BeginFreeze => s.(mu := Freezing(false))
    case StepFreeze => FreezeStep(s)
    case BeginGet(r, k) => s.(readers := s.readers[r := Reader(k, Load(MAX_LEVEL - 1, 0), |s.log|)])
    case StepGet(r) => s.(readers := s.readers[r := GetStep(s.t, s.readers[r])])
  }

  predicate Steps(s: State, a: Action, s': State) {
    InRange(s) && Enabled(s, a) && s' == Apply(s, a)
  }

  ghost predicate IsRun(run: seq<State>, acts: seq<Action>) {
    && |run| == |acts| + 1 && run[0] == Init()
    && forall i :: 0 <= i < |acts| ==> Steps(run[i], acts[i], run[i + 1])
  }

  // ------------------------------------------------------------- invariant

  /** The table says what replaying the writes that took effect says. */
  ghost predicate Agrees(t: SkipList, log: seq<(Bytes, Bytes)>) {
    forall k: Bytes :: Value(t, k) == At(Replay(log), k)
  }

  ghost predicate AllStop(t: SkipList, preds: seq<nat>, from: nat, k: Bytes)
    requires Wf(t) && |preds| == MAX_LEVEL
  {
    forall l :: from <= l < MAX_LEVEL ==> Stops(t, preds[l], l, k)
  }

  ghost predicate AllGaps(t: SkipList, preds: seq<nat>, from: nat, k: Bytes)
    requires Wf(t) && |preds| == MAX_LEVEL
  {
    forall l :: from <= l < MAX_LEVEL ==> Gap(t, preds[l], l, k)
  }

  /** Node n holds the write in hand and is on the levels below i. */
  ghost predicate InHand(t: SkipList, n: nat, k: Bytes, v: Bytes, i: nat)
    requires Wf(t)
  {
    0 < n < |t.nodes| && t.linked[n] == i && t.nodes[n].key == k && t.nodes[n].val == Some(v)
  }

  /** Levels from .. upto - 1 of node n are wired like those of its predecessors. */
  ghost predicate Wired(t: SkipList, preds: seq<nat>, n: nat, from: nat, upto: nat)
    requires Wf(t) && |preds| == MAX_LEVEL && upto <= MAX_LEVEL
  {
    && n < |t.nodes|
    && forall l :: from <= l < upto ==> preds[l] < |t.nodes| && t.nodes[n].nexts[l] == t.nodes[preds[l]].nexts[l]
  }

  ghost predicate OnlyAt(t: SkipList, n: nat, k: Bytes) {
    forall m: nat :: Holds(t, m, k) ==> m == n
  }

  ghost predicate WriterOk(t: SkipList, k: Bytes, v: Bytes, preds: seq<nat>, pc: WriterPc)
    requires Wf(t)
  {
    && |preds| == MAX_LEVEL
    && match pc
       case Search(i, c) => i < MAX_LEVEL && Stands(t, c, i, k) && AllStop(t, preds, i + 1, k)
       case Candidate => AllStop(t, preds, 0, k)
       case Overwrite(n) => Holds(t, n, k)
       case Grow => Absent(t, k) && AllGaps(t, preds, 0, k)
       case Wire(n, h, i) =>
         1 <= h <= MAX_LEVEL && i <= h && InHand(t, n, k, v, 0) && Absent(t, k) && AllGaps(t, preds, 0, k)
             && Wired(t, preds, n, 0, i)
       case Publish(n, h, i) =>
         1 <= h <= MAX_LEVEL && i <= h && InHand(t, n, k, v, i) && OnlyAt(t, n, k) && AllGaps(t, preds, i, k)
             && Wired(t, preds, n, i, h)
       case _ => true
  }

  /** The Put in hand has taken effect. */
  predicate Effective(mu: Holder) {
    mu.Putting? && (mu.pc == Finish || (mu.pc.Publish? && mu.pc.i > 0))
  }

  /** The writer in the critical section is past its check of the frozen flag. */
  predicate Writing(mu: Holder) {
    mu.Putting? && mu.pc != CheckFrozen && mu.pc != Refuse
  }

  ghost predicate WriterInv(s: State) {
    && Wf(s.t)
    && (s.mu.Putting? ==> WriterOk(s.t, s.mu.key, s.mu.val, s.mu.preds, s.mu.pc))
    && (s.frozen ==> !Writing(s.mu))
    && (s.mu.Freezing? && s.mu.stored ==> s.frozen)
    && |s.log| == s.finished + (if Effective(s.mu) then 1 else 0)
    && (Effective(s.mu) ==> s.log[|s.log| - 1] == (s.mu.key, s.mu.val))
  }

  /** At some instant after `since` writes the table said `res` of k. */
  ghost predicate WasSaid(log: seq<(Bytes, Bytes)>, since: nat, k: Bytes, res: Option<Bytes>) {
    exists j :: since <= j <= |log| && At(Replay(log[..j]), k) == res
  }

  ghost predicate ReaderInv(t: SkipList, log: seq<(Bytes, Bytes)>, x: Reader) {
    && x.since <= |log|
    && match x.pc
       case Load(i, c) => Stands(t, c, i, x.key)
       case LoadVal(n) => Holds(t, n, x.key)
       case Reload(c) => Stands(t, c, 0, x.key) && WasSaid(log, x.since, x.key, None)
       case Returned(res) => WasSaid(log, x.since, x.key, res)
  }

  ghost predicate Inv(s: State) {
    && Ordered(s.t) && Agrees(s.t, s.log) && WriterInv(s)
    && forall r :: r in s.readers ==> ReaderInv(s.t, s.log, s.readers[r])
  }

  // ------------------------------------------------------- what a step keeps

  lemma StandsPointer(t: SkipList, n: nat, i: nat, k: Bytes)
    requires Ordered(t) && Stands(t, n, i, k)
    ensures PointerOk(t, n, i)
  {
    Forward(t, n, i, k);
  }

  /** Every step of a reachable state is defined: no thread ever follows a dangling pointer. */
  lemma InvInRange(s: State)
    requires Inv(s)
    ensures InRange(s)
  {
    hide Distinct, Links, Below, Agrees, WasSaid;
    if s.mu.Putting? {
      match s.mu.pc
      case Search(i, c) => StandsPointer(s.t, c, i, s.mu.key);
      case Candidate => StandsPointer(s.t, s.mu.preds[0], 0, s.mu.key);
      case Wire(n, h, i) => assert i < h ==> Gap(s.t, s.mu.preds[i], i, s.mu.key);
      case Publish(n, h, i) => assert i < h ==> Gap(s.t, s.mu.preds[i], i, s.mu.key);
      case _ =>
    }
    forall r | r in s.readers ensures ReaderInRange(s.t, s.readers[r].pc) {
      ReaderPointer(s.t, s.log, s.readers[r]);
    }
  }

  lemma ReaderPointer(t: SkipList, log: seq<(Bytes, Bytes)>, x: Reader)
    requires Ordered(t) && ReaderInv(t, log, x)
    ensures ReaderInRange(t, x.pc)
  {
    match x.pc
    case Load(i, c) => StandsPointer(t, c, i, x.key);
    case Reload(c) => StandsPointer(t, c, 0, x.key);
    case _ =>
  }

  lemma ReplaySnoc(log: seq<(Bytes, Bytes)>, k: Bytes, v: Bytes, x: Bytes)
    ensures At(Replay(log + [(k, v)]), x) == if x == k then Some(v) else At(Replay(log), x)
  {
    assert (log + [(k, v)])[..|log|] == log;
  }

  lemma AgreesSnoc(t: SkipList, t': SkipList, log: seq<(Bytes, Bytes)>, k: Bytes, v: Bytes)
    requires Agrees(t, log) && Value(t', k) == Some(v) && forall x: Bytes :: x != k ==> Value(t', x) == Value(t, x)
    ensures Agrees(t', log + [(k, v)])
  {
    forall x: Bytes ensures Value(t', x) == At(Replay(log + [(k, v)]), x) {
      ReplaySnoc(log, k, v, x);
    }
  }

  lemma AgreesSame(t: SkipList, t': SkipList, log: seq<(Bytes, Bytes)>)
    requires Agrees(t, log) && forall x: Bytes :: Value(t', x) == Value(t, x)
    ensures Agrees(t', log)
  {
  }

  lemma SearchKeeps(t: SkipList, k: Bytes, v: Bytes, preds: seq<nat>, i: nat, c: nat)
    requires Ordered(t) && WriterOk(t, k, v, preds, Search(i, c)) && PointerOk(t, c, i)
    ensures var o := t.nodes[c].nexts[i];
            if o.Some? && Less(t.nodes[o.value].key, k) then WriterOk(t, k, v, preds, Search(i, o.value))
            else WriterOk(t, k, v, preds[i := c], if i == 0 then Candidate else Search(i - 1, c))
  {
    Forward(t, c, i, k);
    hide Ordered, Less;
    var o := t.nodes[c].nexts[i];
    if !(o.Some? && Less(t.nodes[o.value].key, k)) {
      var preds' := preds[i := c];
      forall l | i <= l < MAX_LEVEL ensures Stops(t, preds'[l], l, k) {
        assert l > i ==> Stops(t, preds[l], l, k);
      }
      if i > 0 {
        StandsLower(t, c, i, k);
      }
    }
  }

  lemma CandidateKeeps(t: SkipList, k: Bytes, v: Bytes, preds: seq<nat>)
    requires Ordered(t) && WriterOk(t, k, v, preds, Candidate) && PointerOk(t, preds[0], 0)
    ensures var o := t.nodes[preds[0]].nexts[0];
            WriterOk(t, k, v, preds, if o.Some? && t.nodes[o.value].key == k then Overwrite(o.value) else Grow)
  {
    SearchEnds(t, preds[0], k);
    var o := t.nodes[preds[0]].nexts[0];
    if !(o.Some? && t.nodes[o.value].key == k) {
      forall l | 0 <= l < MAX_LEVEL ensures Gap(t, preds[l], l, k) {
        assert Stops(t, preds[l], l, k);
        StopsAtGap(t, preds[l], l, k);
      }
    }
  }

  lemma GapStays(t: SkipList, t': SkipList, p: nat, l: nat, k: Bytes)
    requires Wf(t) && Wf(t') && Extends(t, t') && Gap(t, p, l, k) && t'.nodes[p].nexts[l] == t.nodes[p].nexts[l]
    ensures Gap(t', p, l, k)
  {
  }

  lemma AbsentStays(t: SkipList, t': SkipList, k: Bytes)
    requires Wf(t) && Wf(t') && SameLinks(t, t') && Absent(t, k)
    ensures Absent(t', k)
  {
    forall m: nat ensures !Holds(t', m, k) {
      assert On(t', m, 0) <==> On(t, m, 0);
      assert !Holds(t, m, k);
    }
  }

  lemma GrowKeeps(t: SkipList, k: Bytes, v: Bytes, preds: seq<nat>, h: nat)
    requires Ordered(t) && WriterOk(t, k, v, preds, Grow) && 1 <= h <= MAX_LEVEL
    ensures var t' := Alloc(t, k, v); Ordered(t') && WriterOk(t', k, v, preds, Wire(|t.nodes|, h, 0))
  {
    var t' := Alloc(t, k, v);
    AllocKeeps(t, k, v);
    AbsentStays(t, t', k);
    hide Ordered, SameLinks;
    assert Wf(t) && Wf(t');
    forall l | 0 <= l < MAX_LEVEL ensures Gap(t', preds[l], l, k) {
      assert Gap(t, preds[l], l, k);
      GapStays(t, t', preds[l], l, k);
    }
  }

  lemma WireStepKeeps(t: SkipList, k: Bytes, v: Bytes, preds: seq<nat>, n: nat, h: nat, i: nat)
    requires Ordered(t) && WriterOk(t, k, v, preds, Wire(n, h, i)) && i < h && preds[i] < |t.nodes|
    ensures var t' := StoreNext(t, n, i, t.nodes[preds[i]].nexts[i]);
            Ordered(t') && Extends(t, t') && (forall x: Bytes :: Value(t', x) == Value(t, x))
            && WriterOk(t', k, v, preds, Wire(n, h, i + 1))
  {
    var t' := StoreNext(t, n, i, t.nodes[preds[i]].nexts[i]);
    WireKeeps(t, n, i, t.nodes[preds[i]].nexts[i]);
    AbsentStays(t, t', k);
    assert Wf(t) && Wf(t');
    hide Ordered, SameLinks, Value, Less;
    forall l | 0 <= l < MAX_LEVEL ensures Gap(t', preds[l], l, k) && preds[l] != n {
      assert Gap(t, preds[l], l, k);
      GapStays(t, t', preds[l], l, k);
    }
  }

  lemma PublishStart(t: SkipList, k: Bytes, v: Bytes, preds: seq<nat>, n: nat, h: nat)
    requires Ordered(t) && WriterOk(t, k, v, preds, Wire(n, h, h))
    ensures WriterOk(t, k, v, preds, Publish(n, h, 0))
  {
    hide Less;
    assert OnlyAt(t, n, k);
  }

  lemma PublishLinkable(t: SkipList, k: Bytes, v: Bytes, preds: seq<nat>, n: nat, h: nat, i: nat)
    requires Ordered(t) && WriterOk(t, k, v, preds, Publish(n, h, i)) && i < h
    ensures Linkable(t, preds[i], i, n)
  {
    assert Gap(t, preds[i], i, k);
  }

  lemma PublishAgrees(t: SkipList, k: Bytes, v: Bytes, preds: seq<nat>, n: nat, h: nat, i: nat,
                      log: seq<(Bytes, Bytes)>)
    requires Ordered(t) && WriterOk(t, k, v, preds, Publish(n, h, i)) && i < h && preds[i] < |t.nodes| && Agrees(t, log)
    ensures Agrees(Link(t, preds[i], i, n), if i == 0 then log + [(k, v)] else log)
  {
    var t' := Link(t, preds[i], i, n);
    PublishLinkable(t, k, v, preds, n, h, i);
    LinkKeeps(t, preds[i], i, n);
    hide Ordered, Value, Less, Link, Linkable, Extends, Agrees;
    if i == 0 {
      AgreesSnoc(t, t', log, k, v);
    } else {
      AgreesSame(t, t', log);
    }
  }

  lemma PublishKeeps(t: SkipList, k: Bytes, v: Bytes, preds: seq<nat>, n: nat, h: nat, i: nat)
    requires Ordered(t) && WriterOk(t, k, v, preds, Publish(n, h, i)) && i < h && preds[i] < |t.nodes|
    ensures var t' := Link(t, preds[i], i, n);
            Ordered(t') && Extends(t, t') && WriterOk(t', k, v, preds, Publish(n, h, i + 1))
  {
    var t' := Link(t, preds[i], i, n);
    PublishLinkable(t, k, v, preds, n, h, i);
    LinkKeeps(t, preds[i], i, n);
    LinkPointers(t, preds[i], i, n);
    LinkKeys(t, preds[i], i, n);
    assert Wf(t) && Wf(t');
    assert Wired(t, preds, n, i, h) && AllGaps(t, preds, i, k) && OnlyAt(t, n, k);
    hide Ordered, Value, Less, Link, Linkable, Distinct, Links, Wf, On, Below, Gap, Extends, Wired, AllGaps, OnlyAt;
    GapsAfter(t, t', preds, i, k);
    OnlyAfter(t, t', n, i, k);
    WiredAfter(t, t', preds, n, i, h);
  }

  lemma GapsAfter(t: SkipList, t': SkipList, preds: seq<nat>, i: nat, k: Bytes)
    requires Wf(t) && Wf(t') && |preds| == MAX_LEVEL && Extends(t, t') && AllGaps(t, preds, i, k)
    requires forall x, l :: 0 <= x < |t.nodes| && 0 <= l < MAX_LEVEL && l != i ==>
        t'.nodes[x].nexts[l] == t.nodes[x].nexts[l]
    ensures AllGaps(t', preds, i + 1, k)
  {
    hide Less, Extends;
    forall l | i + 1 <= l < MAX_LEVEL ensures Gap(t', preds[l], l, k) {
      assert Gap(t, preds[l], l, k);
      GapStays(t, t', preds[l], l, k);
    }
  }

  lemma OnlyAfter(t: SkipList, t': SkipList, n: nat, i: nat, k: Bytes)
    requires Wf(t) && Wf(t') && OnlyAt(t, n, k) && |t'.nodes| == |t.nodes|
    requires forall m: nat, j: nat :: On(t', m, j) <==> On(t, m, j) || (m == n && j == i)
    requires forall x :: 0 <= x < |t.nodes| ==> t'.nodes[x].key == t.nodes[x].key
    ensures OnlyAt(t', n, k)
  {
    forall m: nat | Holds(t', m, k) ensures m == n {
      assert On(t', m, 0);
      assert m != n ==> Holds(t, m, k);
    }
  }

  lemma WiredAfter(t: SkipList, t': SkipList, preds: seq<nat>, n: nat, i: nat, h: nat)
    requires Wf(t) && Wf(t') && |preds| == MAX_LEVEL && h <= MAX_LEVEL && Wired(t, preds, n, i, h)
        && |t'.nodes| == |t.nodes|
    requires forall x, l :: 0 <= x < |t.nodes| && 0 <= l < MAX_LEVEL && l != i ==>
        t'.nodes[x].nexts[l] == t.nodes[x].nexts[l]
    ensures Wired(t', preds, n, i + 1, h)
  {
    forall l | i + 1 <= l < h ensures preds[l] < |t'.nodes| && t'.nodes[n].nexts[l] == t'.nodes[preds[l]].nexts[l] {
      assert t.nodes[n].nexts[l] == t.nodes[preds[l]].nexts[l];
    }
  }

  lemma LinkPointers(t: SkipList, p: nat, i: nat, n: nat)
    requires Wf(t) && Linkable(t, p, i, n)
    ensures var t' := Link(t, p, i, n);
            && t'.linked[n] == i + 1 && t'.nodes[n].val == t.nodes[n].val
            && |t'.nodes| == |t.nodes|
            && (forall x :: 0 <= x < |t.nodes| ==> |t'.nodes[x].nexts| == |t.nodes[x].nexts| == MAX_LEVEL)
            && forall x, l :: 0 <= x < |t.nodes| && 0 <= l < MAX_LEVEL && l != i ==>
                t'.nodes[x].nexts[l] == t.nodes[x].nexts[l]
  {
  }

  lemma AllocExtends(t: SkipList, k: Bytes, v: Bytes)
    requires Ordered(t)
    ensures Extends(t, Alloc(t, k, v)) && forall x: Bytes :: Value(Alloc(t, k, v), x) == Value(t, x)
  {
    AllocKeeps(t, k, v);
  }

  /** The writes that have taken effect only grow, and the heap a reader walks only grows under it. */
  ghost predicate Grows(s: State, s': State) {
    && Extends(s.t, s'.t) && |s.log| <= |s'.log| && s'.log[..|s.log|] == s.log
  }

  lemma ExtendsSelf(t: SkipList)
    ensures Extends(t, t)
  {
  }

  ghost predicate PutReady(s: State, h: nat) {
    Ordered(s.t) && Agrees(s.t, s.log) && WriterInv(s) && InRange(s) && s.mu.Putting? && 1 <= h <= MAX_LEVEL
  }

  ghost predicate Kept(s: State, s': State) {
    Ordered(s'.t) && Agrees(s'.t, s'.log) && WriterInv(s') && Grows(s, s')
  }

  lemma LookKeeps(s: State, h: nat)
    requires PutReady(s, h) && (s.mu.pc.CheckFrozen? || s.mu.pc.Search? || s.mu.pc.Candidate? || s.mu.pc.Finish?
        || s.mu.pc.Refuse?)
    ensures Kept(s, PutStep(s, h))
  {
    hide Ordered, Agrees, Extends, Less, InRange, WriterInRange, PointerOk, WriterOk, Holds, Value, SameLinks, Wf,
      Alloc, Link, StoreVal, StoreNext;
    var Putting(k, v, preds, pc) := s.mu;
    WriterFacts(s.t, k, v, preds, pc);
    StepInRange(s);
    var s' := PutStep(s, h);
    ExtendsSelf(s.t);
    match pc {
      case CheckFrozen => SearchStarts(s.t, k, v, preds);
      case Search(i, c) => SearchKeeps(s.t, k, v, preds, i, c);
      case Candidate => CandidateKeeps(s.t, k, v, preds);
      case _ =>
    }
    OrderedWf(s'.t, k, v, preds);
  }

  lemma OverwriteStepKeeps(s: State, h: nat)
    requires PutReady(s, h) && s.mu.pc.Overwrite?
    ensures Kept(s, PutStep(s, h))
  {
    hide Ordered, Agrees, Extends, Less, InRange, WriterInRange, PointerOk, WriterOk, Holds, Value, SameLinks, Wf,
      Alloc, Link, StoreVal, StoreNext;
    var Putting(k, v, preds, pc) := s.mu;
    WriterFacts(s.t, k, v, preds, pc);
    StepInRange(s);
    var s' := PutStep(s, h);
    OverwriteKeeps(s.t, pc.n, k, v);
    AgreesSnoc(s.t, s'.t, s.log, k, v);
    OrderedWf(s'.t, k, v, preds);
  }

  lemma GrowStepKeeps(s: State, h: nat)
    requires PutReady(s, h) && s.mu.pc.Grow?
    ensures Kept(s, PutStep(s, h))
  {
    hide Ordered, Agrees, Extends, Less, InRange, WriterInRange, PointerOk, WriterOk, Holds, Value, SameLinks, Wf,
      Alloc, Link, StoreVal, StoreNext;
    var Putting(k, v, preds, pc) := s.mu;
    WriterFacts(s.t, k, v, preds, pc);
    StepInRange(s);
    var s' := PutStep(s, h);
    GrowKeeps(s.t, k, v, preds, h);
    AllocExtends(s.t, k, v);
    AgreesSame(s.t, s'.t, s.log);
    OrderedWf(s'.t, k, v, preds);
  }

  lemma WiringKeeps(s: State, h: nat)
    requires PutReady(s, h) && s.mu.pc.Wire?
    ensures Kept(s, PutStep(s, h))
  {
    hide Ordered, Agrees, Extends, Less, InRange, WriterInRange, PointerOk, WriterOk, Holds, Value, SameLinks, Wf,
      Alloc, Link, StoreVal, StoreNext;
    var Putting(k, v, preds, pc) := s.mu;
    WriterFacts(s.t, k, v, preds, pc);
    StepInRange(s);
    var s' := PutStep(s, h);
    ExtendsSelf(s.t);
    if pc.i == pc.height {
      PublishStart(s.t, k, v, preds, pc.n, pc.height);
    } else {
      WireStepKeeps(s.t, k, v, preds, pc.n, pc.height, pc.i);
      AgreesSame(s.t, s'.t, s.log);
    }
    OrderedWf(s'.t, k, v, preds);
  }

  lemma PublishStepKeeps(s: State, h: nat)
    requires PutReady(s, h) && s.mu.pc.Publish?
    ensures Kept(s, PutStep(s, h))
  {
    hide Ordered, Agrees, Extends, Less, InRange, WriterInRange, PointerOk, WriterOk, Holds, Value, SameLinks, Wf,
      Alloc, Link, StoreVal, StoreNext;
    var Putting(k, v, preds, pc) := s.mu;
    WriterFacts(s.t, k, v, preds, pc);
    StepInRange(s);
    var s' := PutStep(s, h);
    ExtendsSelf(s.t);
    if pc.i < pc.height {
      PublishKeeps(s.t, k, v, preds, pc.n, pc.height, pc.i);
      PublishAgrees(s.t, k, v, preds, pc.n, pc.height, pc.i, s.log);
    }
    OrderedWf(s'.t, k, v, preds);
  }

  lemma PutStepKeeps(s: State, h: nat)
    requires PutReady(s, h)
    ensures Kept(s, PutStep(s, h))
  {
    assert InRange(s) && s.mu.Putting? && WriterInRange(s.t, s.mu.preds, s.mu.pc);
    hide *;
    match s.mu.pc {
      case Overwrite(_) => OverwriteStepKeeps(s, h);
      case Grow => GrowStepKeeps(s, h);
      case Wire(_, _, _) => WiringKeeps(s, h);
      case Publish(_, _, _) => PublishStepKeeps(s, h);
      case _ => LookKeeps(s, h);
    }
  }

  lemma OverwriteKeeps(t: SkipList, n: nat, k: Bytes, v: Bytes)
    requires Ordered(t) && Holds(t, n, k)
    ensures var t' := StoreVal(t, n, v);
            Ordered(t') && Extends(t, t') && Value(t', k) == Some(v) && forall x: Bytes :: x != k ==>
                Value(t', x) == Value(t, x)
  {
    StoreValKeeps(t, n, v);
  }

  lemma SearchStarts(t: SkipList, k: Bytes, v: Bytes, preds: seq<nat>)
    requires Wf(t) && |preds| == MAX_LEVEL
    ensures WriterOk(t, k, v, preds, Search(MAX_LEVEL - 1, 0)) && WriterOk(t, k, v, preds, Refuse)
  {
  }

  lemma WriterFacts(t: SkipList, k: Bytes, v: Bytes, preds: seq<nat>, pc: WriterPc)
    requires Ordered(t) && WriterOk(t, k, v, preds, pc)
    ensures Wf(t) && |preds| == MAX_LEVEL && WriterOk(t, k, v, preds, Finish)
    ensures pc.Overwrite? ==> Holds(t, pc.n, k)
    ensures pc.Publish? ==> 1 <= pc.height
  {
  }

  lemma StepInRange(s: State)
    requires InRange(s) && s.mu.Putting?
    ensures WriterInRange(s.t, s.mu.preds, s.mu.pc)
    ensures var preds, pc := s.mu.preds, s.mu.pc;
            && (pc.Search? ==> PointerOk(s.t, pc.curr, pc.i))
            && (pc.Candidate? ==> |preds| == MAX_LEVEL && PointerOk(s.t, preds[0], 0))
            && (pc.Overwrite? ==> pc.n < |s.t.nodes|)
            && (pc.Wire? && pc.i < pc.height ==> pc.i < |preds| && preds[pc.i] < |s.t.nodes|)
            && (pc.Publish? && pc.i < pc.height ==> pc.i < |preds| && preds[pc.i] < |s.t.nodes|)
  {
  }

  /** A writer about to return asks nothing of the list but its structure. */
  lemma OrderedWf(t: SkipList, k: Bytes, v: Bytes, preds: seq<nat>)
    requires Ordered(t) && |preds| == MAX_LEVEL
    ensures Wf(t) && WriterOk(t, k, v, preds, Finish)
  {
  }

  // --------------------------------------------------------------- readers

  lemma SaidNow(t: SkipList, log: seq<(Bytes, Bytes)>, since: nat, k: Bytes)
    requires Agrees(t, log) && since <= |log|
    ensures WasSaid(log, since, k, Value(t, k))
  {
    assert log[..|log|] == log;
    assert At(Replay(log[..|log|]), k) == Value(t, k);
  }

  lemma GetStepKeeps(t: SkipList, log: seq<(Bytes, Bytes)>, x: Reader)
    requires Ordered(t) && Agrees(t, log) && ReaderInv(t, log, x) && ReaderInRange(t, x.pc)
    ensures ReaderInv(t, log, GetStep(t, x))
  {
    SaidNow(t, log, x.since, x.key);
    match x.pc {
      case Load(i, c) =>
        Forward(t, c, i, x.key);
        hide Ordered, Less, Agrees, WasSaid, Value;
        var o := t.nodes[c].nexts[i];
        if !(o.Some? && (Less(t.nodes[o.value].key, x.key) || t.nodes[o.value].key == x.key)) {
          if i == 0 {
            SearchEnds(t, c, x.key);
          } else {
            StandsLower(t, c, i, x.key);
          }
        }
      case LoadVal(n) =>
        ValueIs(t, n, x.key);
      case Reload(c) =>
        Forward(t, c, 0, x.key);
        hide Ordered, Less, Agrees, WasSaid, Value;
      case Returned(_) =>
    }
  }

  lemma SaidStays(log: seq<(Bytes, Bytes)>, log': seq<(Bytes, Bytes)>, since: nat, k: Bytes, res: Option<Bytes>)
    requires |log| <= |log'| && log'[..|log|] == log && WasSaid(log, since, k, res)
    ensures WasSaid(log', since, k, res)
  {
    var j :| since <= j <= |log| && At(Replay(log[..j]), k) == res;
    assert log'[..j] == log[..j];
  }

  lemma ReaderStays(s: State, s': State, x: Reader)
    requires ReaderInv(s.t, s.log, x) && Grows(s, s')
    ensures ReaderInv(s'.t, s'.log, x)
  {
    match x.pc {
      case Load(i, c) => StandsStays(s.t, s'.t, c, i, x.key);
      case LoadVal(n) => assert On(s'.t, n, 0);
      case Reload(c) =>
        StandsStays(s.t, s'.t, c, 0, x.key);
        SaidStays(s.log, s'.log, x.since, x.key, None);
      case Returned(res) => SaidStays(s.log, s'.log, x.since, x.key, res);
    }
  }

  // ------------------------------------------------------------ whole runs

  lemma InvInit()
    ensures Inv(Init())
  {
    EmptyOrdered();
    assert Replay([]) == map[];
  }

  lemma KeptSelf(s: State, s': State)
    requires Inv(s) && s'.t == s.t && s'.log == s.log && WriterInv(s')
    ensures Kept(s, s')
  {
    ExtendsSelf(s.t);
  }

  lemma OtherSteps(s: State, a: Action)
    requires Inv(s) && InRange(s) && Enabled(s, a) && !a.StepPut?
    ensures Kept(s, Apply(s, a))
  {
    hide Ordered, Less, Agrees, ReaderInv, GetStep, WriterInRange, ReaderInRange;
    assert WriterInv(Apply(s, a));
    KeptSelf(s, Apply(s, a));
  }

  /** Every step of every thread keeps the invariant. */
  lemma StepKeeps(s: State, a: Action)
    requires Inv(s) && InRange(s) && Enabled(s, a)
    ensures Inv(Apply(s, a)) && Kept(s, Apply(s, a))
  {
    var s' := Apply(s, a);
    if a.StepPut? {
      PutStepKeeps(s, a.height);
    } else {
      OtherSteps(s, a);
    }
    ReadersAfter(s, a);
    hide Ordered, Agrees, WriterInv, Grows, ReaderInv, Apply, Enabled, InRange;
  }

  lemma PutReaders(s: State, h: nat)
    requires InRange(s) && s.mu.Putting?
    ensures PutStep(s, h).readers == s.readers
  {
  }

  lemma ReadersAfter(s: State, a: Action)
    requires Inv(s) && InRange(s) && Enabled(s, a) && Grows(s, Apply(s, a))
    ensures var s' := Apply(s, a); forall r :: r in s'.readers ==> ReaderInv(s'.t, s'.log, s'.readers[r])
  {
    var s' := Apply(s, a);
    if a.StepPut? {
      PutReaders(s, a.height);
    }
    hide Ordered, Agrees, WriterInv, Grows, ReaderInv, PutStep, GetStep, WriterInRange, Less;
    forall r | r in s'.readers ensures ReaderInv(s'.t, s'.log, s'.readers[r]) {
      if a == StepGet(r) {
        GetStepKeeps(s.t, s.log, s.readers[r]);
      } else if a.BeginGet? && a.r == r {
        ReaderStarts(s.t, s.log, a.key);
      } else {
        ReaderStays(s, s', s.readers[r]);
      }
    }
  }

  lemma ReaderStarts(t: SkipList, log: seq<(Bytes, Bytes)>, k: Bytes)
    requires Ordered(t)
    ensures ReaderInv(t, log, Reader(k, Load(MAX_LEVEL - 1, 0), |log|))
  {
    SearchStarts(t, k, [], seq(MAX_LEVEL, _ => 0));
  }

  lemma RunParts(run: seq<State>, acts: seq<Action>, i: nat)
    requires IsRun(run, acts) && i <= |acts|
    ensures |run| == |acts| + 1 && run[0] == Init()
    ensures i < |acts| ==> InRange(run[i]) && Enabled(run[i], acts[i]) && run[i + 1] == Apply(run[i], acts[i])
  {
    assert i < |acts| ==> Steps(run[i], acts[i], run[i + 1]);
    hide InRange, Enabled, Apply;
  }

  lemma {:induction false} RunInv(run: seq<State>, acts: seq<Action>, i: nat)
    requires IsRun(run, acts) && i < |run|
    ensures Inv(run[i])
  {
    hide *;
    InvInit();
    RunParts(run, acts, 0);
    RunParts(run, acts, if i == 0 then 0 else i - 1);
    if i > 0 {
      RunInv(run, acts, i - 1);
      StepKeeps(run[i - 1], acts[i - 1]);
    }
  }

  // -------------------------------------------------------- what it means

  /** Level l is strictly sorted, and below it lies a level that contains it. */
  ghost predicate LevelSound(t: SkipList, l: nat)
    requires Ordered(t)
  {
    && On(t, 0, l) && Ascending(t, Walk(t, 0, l))
    && (l > 0 ==> On(t, 0, l - 1) && forall x :: x in Walk(t, 0, l) ==> x in Walk(t, 0, l - 1))
  }

  /**
   At every store of every run each level is strictly sorted and contained in the level below, and the table says
   what replaying the writes that took effect says: one for each Put that returned, in lock order, and at most
   one more for the Put in hand.
   */
  lemma ListsAlwaysSound(run: seq<State>, acts: seq<Action>, i: nat)
    requires IsRun(run, acts) && i < |run|
    ensures var s := run[i];
            && Ordered(s.t)
            && (forall l: nat :: l < MAX_LEVEL ==> LevelSound(s.t, l))
            && (forall k: Bytes :: Value(s.t, k) == At(Replay(s.log), k))
            && |s.log| == s.finished + (if Effective(s.mu) then 1 else 0)
  {
    RunInv(run, acts, i);
    var s := run[i];
    forall l: nat | l < MAX_LEVEL ensures LevelSound(s.t, l) {
      LevelSorted(s.t, 0, l);
      if l > 0 {
        LevelsNest(s.t, 0, l);
      }
    }
  }

  /**
   A write takes effect at one store: the value store of an update, or the level-0 link of an insert. No other
   step changes the table.
   */
  lemma OneStoreTakesEffect(run: seq<State>, acts: seq<Action>, i: nat)
    requires IsRun(run, acts) && i < |acts|
    ensures var s, s' := run[i], run[i + 1];
            if s'.log == s.log
            then forall k: Bytes :: Value(s'.t, k) == Value(s.t, k)
            else
              && acts[i].StepPut? && s.mu.Putting? && s'.log == s.log + [(s.mu.key, s.mu.val)]
              && (s.mu.pc.Overwrite? || (s.mu.pc.Publish? && s.mu.pc.i == 0))
              && Value(s'.t, s.mu.key) == Some(s.mu.val)
              && forall k: Bytes :: k != s.mu.key ==> Value(s'.t, k) == Value(s.t, k)
  {
    var s, s' := run[i], run[i + 1];
    RunInv(run, acts, i);
    RunInv(run, acts, i + 1);
    assert Steps(s, acts[i], s');
    assert Agrees(s.t, s.log) && Agrees(s'.t, s'.log);
    StepLog(s, acts[i]);
    hide Inv, Steps, Ordered;
    if s'.log != s.log {
      forall k: Bytes ensures Value(s'.t, k) == if k == s.mu.key then Some(s.mu.val) else Value(s.t, k) {
        ReplaySnoc(s.log, s.mu.key, s.mu.val, k);
      }
    }
  }

  lemma StepLog(s: State, a: Action)
    requires InRange(s) && Enabled(s, a)
    ensures var s' := Apply(s, a);
            s'.log == s.log ||
            (a.StepPut? && s.mu.Putting? && s'.log == s.log + [(s.mu.key, s.mu.val)]
             && (s.mu.pc.Overwrite? || (s.mu.pc.Publish? && s.mu.pc.i == 0)))
  {
    hide Less, Wf, On, Below;
  }

  lemma {:induction false} LogPrefix(run: seq<State>, acts: seq<Action>, b: nat, e: nat)
    requires IsRun(run, acts) && b <= e < |run|
    ensures |run[b].log| <= |run[e].log| && run[e].log[..|run[b].log|] == run[b].log
  {
    if b < e {
      LogPrefix(run, acts, b, e - 1);
      assert Steps(run[e - 1], acts[e - 1], run[e]);
      StepLog(run[e - 1], acts[e - 1]);
    }
  }

  /**
   Every prefix of the write order that is at least as long as at state b was the whole of it at some state
   between b and e.
   */
  lemma {:induction false} LogAttained(run: seq<State>, acts: seq<Action>, b: nat, e: nat, j: nat) returns (c: nat)
    requires IsRun(run, acts) && b <= e < |run| && |run[b].log| <= j <= |run[e].log|
    ensures b <= c <= e && run[c].log == run[e].log[..j]
  {
    if j == |run[e].log| {
      return e;
    }
    LogPrefix(run, acts, b, e);
    assert Steps(run[e - 1], acts[e - 1], run[e]);
    StepLog(run[e - 1], acts[e - 1]);
    c := LogAttained(run, acts, b, e - 1, j);
    assert run[e].log[..j] == run[e - 1].log[..j];
  }

  lemma {:induction false} ReaderSame(run: seq<State>, acts: seq<Action>, b: nat, e: nat, r: nat, key: Bytes)
    requires IsRun(run, acts) && b < e < |run| && acts[b] == BeginGet(r, key)
    ensures r in run[e].readers && run[e].readers[r].key == key && run[e].readers[r].since == |run[b].log|
  {
    var a := acts[e - 1];
    assert Steps(run[e - 1], a, run[e]);
    if b < e - 1 {
      ReaderSame(run, acts, b, e - 1, r, key);
      if a.StepPut? {
        PutReaders(run[e - 1], a.height);
      }
    }
    hide PutStep, Less;
  }

  /** What a lock-free Get returns is what the table said of the key at some instant of the call. */
  lemma TableGetIsLinearizable(run: seq<State>, acts: seq<Action>, b: nat, e: nat, r: nat, key: Bytes)
    requires IsRun(run, acts) && b < e < |run| && acts[b] == BeginGet(r, key)
    ensures r in run[e].readers && run[e].readers[r].pc.Returned? ==>
              exists c :: b <= c <= e && Value(run[c].t, key) == run[e].readers[r].pc.res
  {
    ReaderSame(run, acts, b, e, r, key);
    RunInv(run, acts, e);
    var x := run[e].readers[r];
    if x.pc.Returned? {
      assert ReaderInv(run[e].t, run[e].log, x);
      var j :| x.since <= j <= |run[e].log| && At(Replay(run[e].log[..j]), key) == x.pc.res;
      var c := LogAttained(run, acts, b, e, j);
      RunInv(run, acts, c);
      assert Value(run[c].t, key) == At(Replay(run[c].log), key);
    }
  }

  lemma {:induction false} ReplayGrows(log: seq<(Bytes, Bytes)>, i: nat, j: nat, k: Bytes)
    requires i <= j <= |log| && k in Replay(log[..i])
    ensures k in Replay(log[..j])
  {
    if i < j {
      ReplayGrows(log, i, j - 1, k);
      assert log[..j][..j - 1] == log[..j - 1];
    }
  }

  /** A key that is in the table when Get starts is found. */
  lemma PresentIsFound(run: seq<State>, acts: seq<Action>, b: nat, e: nat, r: nat, key: Bytes)
    requires IsRun(run, acts) && b < e < |run| && acts[b] == BeginGet(r, key)
    requires Value(run[b].t, key).Some?
    ensures r in run[e].readers && run[e].readers[r].pc.Returned? ==> run[e].readers[r].pc.res.Some?
  {
    if r in run[e].readers && run[e].readers[r].pc.Returned? {
      TableGetIsLinearizable(run, acts, b, e, r, key);
      var c :| b <= c <= e && Value(run[c].t, key) == run[e].readers[r].pc.res;
      RunInv(run, acts, b);
      RunInv(run, acts, c);
      LogPrefix(run, acts, b, c);
      var log := run[c].log;
      assert log[..|log|] == log;
      assert Value(run[b].t, key) == At(Replay(run[b].log), key);
      assert Value(run[c].t, key) == At(Replay(log), key);
      ReplayGrows(log, |run[b].log|, |log|, key);
    }
  }

  lemma InvWriter(s: State)
    requires Inv(s)
    ensures WriterInv(s)
  {
  }

  /** Once the frozen flag is set nothing in the table ever changes again. */
  lemma {:induction false} FrozenStays(run: seq<State>, acts: seq<Action>, i: nat, j: nat)
    requires IsRun(run, acts) && i <= j < |run| && run[i].frozen
    ensures run[j].frozen && run[j].t == run[i].t && run[j].log == run[i].log && run[j].size == run[i].size
  {
    assert |run| == |acts| + 1;
    hide *;
    RunParts(run, acts, if i < j then j - 1 else 0);
    if i < j {
      FrozenStays(run, acts, i, j - 1);
      RunInv(run, acts, j - 1);
      InvWriter(run[j - 1]);
      FrozenStep(run[j - 1], acts[j - 1]);
    }
  }

  lemma FrozenStep(s: State, a: Action)
    requires InRange(s) && Enabled(s, a) && s.frozen && WriterInv(s)
    ensures var s' := Apply(s, a); s'.frozen && s'.t == s.t && s'.log == s.log && s'.size == s.size
  {
    hide Less;
  }

  // ------------------------------------------------------ the atomic table

  /** A table of one map and one flag, whose Put and Freeze are single steps; `w` is the write, if the step is one. */
  datatype AtomicTable = AtomicTable(m: Contents, frozen: bool)

  ghost predicate AtomicStep(a: AtomicTable, w: Option<(Bytes, Bytes)>, a': AtomicTable) {
    if w.Some? then !a.frozen && a' == a.(m := a.m[w.value.0 := w.value.1])
    else a'.m == a.m && (a.frozen ==> a'.frozen)
  }

  /** What a state is as an atomic table. */
  function Abstract(s: State): AtomicTable {
    AtomicTable(Replay(s.log), s.frozen)
  }

  /** The write a step makes, if it is a store that takes effect. */
  function WriteOf(s: State, a: Action): Option<(Bytes, Bytes)> {
    if a.StepPut? && s.mu.Putting? && (s.mu.pc.Overwrite? || (s.mu.pc.Publish? && s.mu.pc.i == 0 < s.mu.pc.height))
    then Some((s.mu.key, s.mu.val)) else None
  }

  /**
   Every run is a run of the atomic table: each step is one write of the Put in hand on a table that is not frozen, or
   leaves the map alone and at most sets the flag; a Put is refused exactly when it finds the flag set.
   */
  lemma StepsAreAtomic(run: seq<State>, acts: seq<Action>, i: nat)
    requires IsRun(run, acts) && i < |acts|
    ensures var s, s' := run[i], run[i + 1];
            && AtomicStep(Abstract(s), WriteOf(s, acts[i]), Abstract(s'))
            && (s.mu.Putting? && s.mu.pc == CheckFrozen && acts[i].StepPut? ==>
                  (s'.mu.Putting? && s'.mu.pc == Refuse <==> s.frozen))
            && (s'.frozen && !s.frozen ==> acts[i] == StepFreeze)
  {
    RunInv(run, acts, i);
    RunParts(run, acts, i);
    AtomicParts(run[i], acts[i]);
    hide IsRun, Inv, Apply, InRange, Enabled;
  }

  lemma AtomicParts(s: State, a: Action)
    requires Inv(s) && InRange(s) && Enabled(s, a)
    ensures var s' := Apply(s, a);
            && AtomicStep(Abstract(s), WriteOf(s, a), Abstract(s'))
            && (s.mu.Putting? && s.mu.pc == CheckFrozen && a.StepPut? ==>
                  (s'.mu.Putting? && s'.mu.pc == Refuse <==> s.frozen))
            && (s'.frozen && !s.frozen ==> a == StepFreeze)
  {
    hide Ordered, Agrees, ReaderInv, Less, Wf, On, Below, GetStep, StoreVal, StoreNext, Link, Alloc;
    if WriteOf(s, a).Some? {
      var w := WriteOf(s, a).value;
      assert (s.log + [w])[..|s.log|] == s.log;
    }
  }

  /** And the Gets fit in: each returned what the atomic table held at some instant of the call. */
  lemma GetsAreAtomic(run: seq<State>, acts: seq<Action>, b: nat, e: nat, r: nat, key: Bytes)
    requires IsRun(run, acts) && b < e < |run| && acts[b] == BeginGet(r, key)
    ensures r in run[e].readers && run[e].readers[r].pc.Returned? ==>
              exists c :: b <= c <= e && At(Abstract(run[c]).m, key) == run[e].readers[r].pc.res
  {
    ReaderSame(run, acts, b, e, r, key);
    if run[e].readers[r].pc.Returned? {
      TableGetIsLinearizable(run, acts, b, e, r, key);
      var c :| b <= c <= e && Value(run[c].t, key) == run[e].readers[r].pc.res;
      RunInv(run, acts, c);
      assert Value(run[c].t, key) == At(Replay(run[c].log), key);
    }
  }

  /**
   When the last look at level 0 misses a key that is in the table by then: exactly when a smaller key has been linked
   between the node the search stands at and the key.
   */
  lemma LateMissExactly(s: State, x: Reader, c: nat)
    requires Inv(s) && ReaderInv(s.t, s.log, x) && x.pc == Reload(c) && Value(s.t, x.key).Some?
    ensures ReaderInRange(s.t, x.pc)
    ensures GetStep(s.t, x).pc == Returned(None) <==>
            exists n: nat :: Data(s.t, n, 0) && Below(s.t, c, s.t.nodes[n].key) && Less(s.t.nodes[n].key, x.key)
  {
    ReaderPointer(s.t, s.log, x);
    var t, k := s.t, x.key;
    var p: nat :| Holds(t, p, k);
    var o := t.nodes[c].nexts[0];
    assert Follows(t, c, 0, o) && Data(t, p, 0) && Below(t, c, k);
    LessIrreflexive(k);
    hide Less, Links, Agrees, WriterInv, ReaderInv;
    if n: nat :| Data(t, n, 0) && Below(t, c, t.nodes[n].key) && Less(t.nodes[n].key, k) {
      if n != o.value {
        LessTransitive(t.nodes[o.value].key, t.nodes[n].key, k);
      }
    }
  }

  /** The level-0 load that ends the descent without a hit: the key is absent at that instant. */
  lemma DescentEndsAbsent(run: seq<State>, acts: seq<Action>, m: nat, r: nat, c: nat)
    requires IsRun(run, acts) && m < |acts| && acts[m] == StepGet(r)
    requires r in run[m].readers && run[m].readers[r].pc == Load(0, c)
    requires r in run[m + 1].readers && run[m + 1].readers[r].pc.Reload?
    ensures Value(run[m].t, run[m].readers[r].key) == None
  {
    RunInv(run, acts, m);
    RunParts(run, acts, m);
    var s, x := run[m], run[m].readers[r];
    assert ReaderInv(s.t, s.log, x);
    Forward(s.t, c, 0, x.key);
    hide Less, Ordered, IsRun;
    assert Stops(s.t, c, 0, x.key);
    SearchEnds(s.t, c, x.key);
  }

  /** Step m is reader r's level-0 load that ends its descent, and the key is absent at that instant. */
  ghost predicate AbsentAtDescent(run: seq<State>, acts: seq<Action>, m: nat, r: nat, key: Bytes)
    requires |run| == |acts| + 1
  {
    && m < |acts| && acts[m] == StepGet(r)
    && r in run[m].readers && run[m].readers[r].pc.Load? && run[m].readers[r].pc.i == 0
    && r in run[m + 1].readers && run[m + 1].readers[r].pc.Reload?
    && Value(run[m].t, key) == None
  }

  ghost predicate Missing(s: State, r: nat) {
    r in s.readers && (s.readers[r].pc.Reload? || s.readers[r].pc == Returned(None))
  }

  /** A Get that misses has made such a load: the miss is as of that load, whatever its last look found. */
  lemma {:induction false} MissIsAsOfDescent(run: seq<State>, acts: seq<Action>, b: nat, e: nat, r: nat, key: Bytes)
    requires IsRun(run, acts) && b < e < |run| && acts[b] == BeginGet(r, key) && Missing(run[e], r)
    ensures exists m :: b < m < e && AbsentAtDescent(run, acts, m, r, key)
  {
    hide Missing, AbsentAtDescent, Steps, Init;
    MissStep(run, acts, b, e, r, key);
    if AbsentAtDescent(run, acts, e - 1, r, key) {
    } else {
      MissIsAsOfDescent(run, acts, b, e - 1, r, key);
    }
  }

  /** The reader has made the load that ends its descent. */
  ghost predicate EndsDescent(s: State, a: Action, r: nat) {
    a == StepGet(r) && r in s.readers && s.readers[r].pc.Load? && s.readers[r].pc.i == 0
  }

  lemma MissBack(s: State, a: Action, r: nat)
    requires Inv(s) && InRange(s) && Enabled(s, a) && r in s.readers && Missing(Apply(s, a), r)
    ensures Missing(s, r) || (EndsDescent(s, a, r) && Apply(s, a).readers[r].pc.Reload?)
  {
    hide Inv, InRange, Apply, GetStep, Enabled, ReaderInRange;
    ReaderMoves(s, a, r);
    if a == StepGet(r) && s.readers[r].pc.Load? {
      LastLoad(s, s.readers[r]);
    } else {
      MissComesFrom(s, a, r);
    }
  }

  lemma MissStep(run: seq<State>, acts: seq<Action>, b: nat, e: nat, r: nat, key: Bytes)
    requires IsRun(run, acts) && b < e < |run| && acts[b] == BeginGet(r, key) && Missing(run[e], r)
    ensures b < e - 1 && (AbsentAtDescent(run, acts, e - 1, r, key) || Missing(run[e - 1], r))
  {
    hide Steps, Init, Inv, Missing, EndsDescent, AbsentAtDescent;
    ReaderStarted(run, acts, b, e, r, key);
    ReaderSame(run, acts, b, e - 1, r, key);
    RunInv(run, acts, e - 1);
    RunParts(run, acts, e - 1);
    MissBack(run[e - 1], acts[e - 1], r);
    if !Missing(run[e - 1], r) {
      DescentAbsent(run, acts, e - 1, r, key);
    }
  }

  lemma DescentAbsent(run: seq<State>, acts: seq<Action>, m: nat, r: nat, key: Bytes)
    requires IsRun(run, acts) && m < |acts| && EndsDescent(run[m], acts[m], r) && run[m].readers[r].key == key
    requires r in run[m + 1].readers && run[m + 1].readers[r].pc.Reload?
    ensures AbsentAtDescent(run, acts, m, r, key)
  {
    hide Steps, Init;
    DescentEndsAbsent(run, acts, m, r, run[m].readers[r].pc.curr);
  }

  lemma LastLoad(s: State, x: Reader)
    requires x.pc.Load? && ReaderInRange(s.t, x.pc)
    requires GetStep(s.t, x).pc.Reload? || GetStep(s.t, x).pc == Returned(None)
    ensures x.pc.i == 0 && x.pc == Load(0, x.pc.curr) && GetStep(s.t, x).pc.Reload?
  {
  }

  /** A Get that has only begun is at its first load. */
  lemma ReaderStarted(run: seq<State>, acts: seq<Action>, b: nat, e: nat, r: nat, key: Bytes)
    requires IsRun(run, acts) && b < e < |run| && acts[b] == BeginGet(r, key) && Missing(run[e], r)
    ensures b < e - 1
  {
    RunParts(run, acts, b);
    hide PutStep, Less;
  }

  lemma ReaderMoves(s: State, a: Action, r: nat)
    requires InRange(s) && Enabled(s, a) && r in s.readers
    ensures r in Apply(s, a).readers && ReaderInRange(s.t, s.readers[r].pc)
    ensures Apply(s, a).readers[r] == if a == StepGet(r) then GetStep(s.t, s.readers[r]) else s.readers[r]
  {
    if a.StepPut? {
      PutReaders(s, a.height);
    }
    hide PutStep, GetStep, WriterInRange, ReaderInRange;
  }

  /** A reader reaches its last look, or a miss, from a level-0 load or from the last look. */
  lemma MissComesFrom(s: State, a: Action, r: nat)
    requires Inv(s) && InRange(s) && Enabled(s, a) && r in s.readers && r in Apply(s, a).readers
    requires Apply(s, a).readers[r] == if a == StepGet(r) then GetStep(s.t, s.readers[r]) else s.readers[r]
    requires Apply(s, a).readers[r].pc.Reload? || Apply(s, a).readers[r].pc == Returned(None)
    requires !(a == StepGet(r) && s.readers[r].pc.Load?)
    ensures s.readers[r].pc.Reload? || s.readers[r].pc == Returned(None)
  {
    FoundHasValue(s.t, s.log, s.readers[r]);
    hide PutStep, Less, Ordered, Agrees, WriterInv, ReaderInv;
  }

  lemma FoundHasValue(t: SkipList, log: seq<(Bytes, Bytes)>, x: Reader)
    requires Ordered(t) && ReaderInv(t, log, x)
    ensures x.pc.LoadVal? ==> x.pc.n < |t.nodes| && t.nodes[x.pc.n].val.Some?
  {
  }
}
