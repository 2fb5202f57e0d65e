/**
 A run in which a lock-free Get misses a key that is in the table at its last load
 (internal/engine/memtable.go:181-190).
 */
module SkipListLimits {
  import opened Options
  import opened ByteStrings
  import opened SkipList
  import opened SkipListRuns

  ghost predicate Reachable(s: State) {
    exists run: seq<State>, acts: seq<Action> :: IsRun(run, acts) && run[|acts|] == s
  }

  lemma ReachInit()
    ensures Reachable(Init())
  {
    var acts: seq<Action> := [];
    assert IsRun([Init()], acts) && [Init()][|acts|] == Init();
  }

  lemma LongerRun(run: seq<State>, acts: seq<Action>, a: Action, s': State)
    requires IsRun(run, acts) && Steps(run[|acts|], a, s')
    ensures IsRun(run + [s'], acts + [a])
  {
    hide Steps, Init;
    var run', acts' := run + [s'], acts + [a];
    forall i | 0 <= i < |acts'| ensures Steps(run'[i], acts'[i], run'[i + 1]) {
      assert i < |acts| ==> Steps(run[i], acts[i], run[i + 1]);
    }
  }

  /** One step to a state given outright. */
  lemma Go(s: State, a: Action, s': State)
    requires Reachable(s) && Enabled(s, a) && (InRange(s) ==> s' == Apply(s, a))
    ensures Reachable(s')
  {
    hide Enabled, Inv, InRange, Apply;
    var run: seq<State>, acts: seq<Action> :| IsRun(run, acts) && run[|acts|] == s;
    hide IsRun;
    RunInv(run, acts, |acts|);
    InvInRange(s);
    LongerRun(run, acts, a, s');
    assert (run + [s'])[|acts + [a]|] == s';
  }

  // ---------------------------------------------------------- empty levels

  /** The head has no successor on the levels lo .. hi. */
  predicate EmptyLevels(t: SkipList, lo: nat, hi: nat) {
    && |t.nodes| > 0 && |t.nodes[0].nexts| == MAX_LEVEL
    && forall l :: lo <= l <= hi && l < MAX_LEVEL ==> t.nodes[0].nexts[l] == None
  }

  function Zeros(): (p: seq<nat>)
    ensures |p| == MAX_LEVEL && forall l :: 0 <= l < MAX_LEVEL ==> p[l] == 0
  {
    seq(MAX_LEVEL, _ => 0)
  }

  lemma ReaderGoes(s: State, r: nat, x: Reader)
    requires Reachable(s) && r in s.readers && !s.readers[r].pc.Returned?
    requires InRange(s) && ReaderInRange(s.t, s.readers[r].pc) ==> x == GetStep(s.t, s.readers[r])
    ensures Reachable(s.(readers := s.readers[r := x]))
  {
    assert InRange(s) ==> ReaderInRange(s.t, s.readers[r].pc);
    hide Reachable, InRange, GetStep, ReaderInRange;
    Go(s, StepGet(r), s.(readers := s.readers[r := x]));
  }

  /** A reader descends over empty levels to its last look. */
  lemma {:induction false} Descends(s: State, key: Bytes, i: nat)
    requires Reachable(s.(readers := map[0 := Reader(key, Load(i, 0), 0)])) && i < MAX_LEVEL && EmptyLevels(s.t, 0, i)
    ensures Reachable(s.(readers := map[0 := Reader(key, Reload(0), 0)]))
  {
    hide Reachable, InRange;
    var x := Reader(key, if i == 0 then Reload(0) else Load(i - 1, 0), 0);
    var s0 := s.(readers := map[0 := Reader(key, Load(i, 0), 0)]);
    ReaderGoes(s0, 0, x);
    assert s0.readers[0 := x] == map[0 := x];
    if i > 0 {
      Descends(s, key, i - 1);
    }
  }

  function Writing(s: State, k: Bytes, v: Bytes, pc: WriterPc): State {
    s.(mu := Putting(k, v, Zeros(), pc))
  }

  lemma WriterGoes(s: State, s': State)
    requires Reachable(s) && s.mu.Putting?
    requires WriterInRange(s.t, s.mu.preds, s.mu.pc) ==> s' == PutStep(s, 1)
    ensures Reachable(s')
  {
    assert InRange(s) ==> WriterInRange(s.t, s.mu.preds, s.mu.pc);
    hide Reachable, InRange, PutStep, WriterInRange;
    Go(s, StepPut(1), s');
  }

  /** A writer's search passes the empty levels down to level j. */
  lemma {:induction false} SearchesDown(s: State, k: Bytes, v: Bytes, i: nat, j: nat)
    requires Reachable(Writing(s, k, v, Search(i, 0))) && j <= i < MAX_LEVEL && EmptyLevels(s.t, j + 1, i)
    ensures Reachable(Writing(s, k, v, Search(j, 0)))
  {
    if j < i {
      hide Reachable;
      assert Zeros()[i := 0] == Zeros();
      WriterGoes(Writing(s, k, v, Search(i, 0)), Writing(s, k, v, Search(i - 1, 0)));
      SearchesDown(s, k, v, i - 1, j);
    }
  }

  lemma PutBegins(s: State, k: Bytes, v: Bytes)
    requires Reachable(s) && s.mu == Free && !s.frozen
    ensures Reachable(Writing(s, k, v, Search(MAX_LEVEL - 1, 0)))
  {
    hide Reachable, InRange;
    assert seq(MAX_LEVEL, _ => 0) == Zeros();
    Go(s, BeginPut(k, v), Writing(s, k, v, CheckFrozen));
    WriterGoes(Writing(s, k, v, CheckFrozen), Writing(s, k, v, Search(MAX_LEVEL - 1, 0)));
  }

  // --------------------------------------------------------------- the run

  const K1: Bytes := [1]
  const K2: Bytes := [2]

  /** The list with K1 alone, and with K1 and K2, each one level high. */
  function One(v: Bytes): SkipList {
    SkipList([Node([], None, NilNexts()[0 := Some(1)]), Node(K1, Some(v), NilNexts())], [MAX_LEVEL, 1])
  }

  function Two(v: Bytes): SkipList {
    SkipList(
      [Node([], None, NilNexts()[0 := Some(1)]), Node(K1, Some(v), NilNexts()[0 := Some(2)]),
          Node(K2, Some(v), NilNexts())],
      [MAX_LEVEL, 1, 1])
  }

  /** A table `t` with a Get of K2 at its last look, standing at the head. */
  function Waiting(t: SkipList, size: nat, log: seq<(Bytes, Bytes)>): State {
    State(t, size, false, Free, map[0 := Reader(K2, Reload(0), 0)], log, |log|)
  }

  lemma ReachWaiting()
    ensures Reachable(Waiting(Empty(), 0, []))
  {
    hide Reachable, InRange;
    ReachInit();
    var s := Init();
    Go(s, BeginGet(0, K2), s.(readers := map[0 := Reader(K2, Load(MAX_LEVEL - 1, 0), 0)]));
    Descends(s, K2, MAX_LEVEL - 1);
  }

  lemma ReachOne(v: Bytes)
    ensures Reachable(Waiting(One(v), 1 + |v|, [(K1, v)]))
  {
    hide Reachable, Less;
    ReachWaiting();
    var s := Waiting(Empty(), 0, []);
    PutBegins(s, K1, v);
    SearchesDown(s, K1, v, MAX_LEVEL - 1, 0);
    assert Zeros()[0 := 0] == Zeros();
    WriterGoes(Writing(s, K1, v, Search(0, 0)), Writing(s, K1, v, Candidate));
    WriterGoes(Writing(s, K1, v, Candidate), Writing(s, K1, v, Grow));
    var t := Alloc(Empty(), K1, v);
    var s1 := s.(t := t, size := 1 + |v|);
    WriterGoes(Writing(s, K1, v, Grow), Writing(s1, K1, v, Wire(1, 1, 0)));
    LinkOne(s1, v);
  }

  lemma LinkOne(s: State, v: Bytes)
    requires s == Waiting(Alloc(Empty(), K1, v), 1 + |v|, []) && Reachable(Writing(s, K1, v, Wire(1, 1, 0)))
    ensures Reachable(Waiting(One(v), 1 + |v|, [(K1, v)]))
  {
    hide Reachable, Less;
    assert NilNexts()[0 := None] == NilNexts();
    assert StoreNext(s.t, 1, 0, None) == s.t;
    WriterGoes(Writing(s, K1, v, Wire(1, 1, 0)), Writing(s, K1, v, Wire(1, 1, 1)));
    WriterGoes(Writing(s, K1, v, Wire(1, 1, 1)), Writing(s, K1, v, Publish(1, 1, 0)));
    var s2 := s.(t := One(v), log := [(K1, v)]);
    assert Link(s.t, 0, 0, 1) == One(v) && [] + [(K1, v)] == [(K1, v)];
    WriterGoes(Writing(s, K1, v, Publish(1, 1, 0)), Writing(s2, K1, v, Publish(1, 1, 1)));
    WriterGoes(Writing(s2, K1, v, Publish(1, 1, 1)), Writing(s2, K1, v, Finish));
    WriterGoes(Writing(s2, K1, v, Finish), Waiting(One(v), 1 + |v|, [(K1, v)]));
  }

  /** The second Put, whose search stops behind K1. */
  function Behind(s: State, v: Bytes, pc: WriterPc): State {
    s.(mu := Putting(K2, v, Zeros()[0 := 1], pc))
  }

  lemma ReachTwo(v: Bytes)
    ensures Reachable(Waiting(Two(v), 2 + |v| + |v|, [(K1, v), (K2, v)]))
  {
    hide Reachable;
    ReachOne(v);
    var s := Waiting(One(v), 1 + |v|, [(K1, v)]);
    assert Less(K1, K2);
    PutBegins(s, K2, v);
    SearchesDown(s, K2, v, MAX_LEVEL - 1, 0);
    WriterGoes(Writing(s, K2, v, Search(0, 0)), Writing(s, K2, v, Search(0, 1)));
    WriterGoes(Writing(s, K2, v, Search(0, 1)), Behind(s, v, Candidate));
    WriterGoes(Behind(s, v, Candidate), Behind(s, v, Grow));
    var s1 := s.(t := Alloc(One(v), K2, v), size := 2 + |v| + |v|);
    WriterGoes(Behind(s, v, Grow), Behind(s1, v, Wire(2, 1, 0)));
    LinkTwo(s1, v);
  }

  lemma LinkTwo(s: State, v: Bytes)
    requires s == Waiting(Alloc(One(v), K2, v), 2 + |v| + |v|, [(K1, v)]) && Reachable(Behind(s, v, Wire(2, 1, 0)))
    ensures Reachable(Waiting(Two(v), 2 + |v| + |v|, [(K1, v), (K2, v)]))
  {
    hide Reachable, Less;
    assert NilNexts()[0 := None] == NilNexts();
    assert StoreNext(s.t, 2, 0, None) == s.t;
    WriterGoes(Behind(s, v, Wire(2, 1, 0)), Behind(s, v, Wire(2, 1, 1)));
    WriterGoes(Behind(s, v, Wire(2, 1, 1)), Behind(s, v, Publish(2, 1, 0)));
    var s2 := s.(t := Two(v), log := [(K1, v), (K2, v)]);
    assert Link(s.t, 1, 0, 2) == Two(v) && [(K1, v)] + [(K2, v)] == [(K1, v), (K2, v)];
    WriterGoes(Behind(s, v, Publish(2, 1, 0)), Behind(s2, v, Publish(2, 1, 1)));
    WriterGoes(Behind(s2, v, Publish(2, 1, 1)), Behind(s2, v, Finish));
    WriterGoes(Behind(s2, v, Finish), Waiting(Two(v), 2 + |v| + |v|, [(K1, v), (K2, v)]));
  }

  /**
   A Get of K2 descends over the empty list; then K1 and K2 are put, by two Puts that both return; then the Get takes
   its last look, meets K1 and returns a miss, although K2 is in the table.
   */
  lemma GetMissesPresentKey(v: Bytes) returns (s: State, s': State)
    ensures Reachable(s) && Steps(s, StepGet(0), s') && Reachable(s')
    ensures 0 in s.readers && s.readers[0].pc.Reload? && Value(s.t, s.readers[0].key) == Some(v) && s.finished == 2
    ensures 0 in s'.readers && s'.readers[0].pc == Returned(None)
  {
    hide Reachable, InRange, Inv, Less;
    s := Waiting(Two(v), 2 + |v| + |v|, [(K1, v), (K2, v)]);
    ReachTwo(v);
    ReachedInv(s);
    HasK2(s, v);
    var x := Reader(K2, Returned(None), 0);
    s' := s.(readers := s.readers[0 := x]);
    ReaderGoes(s, 0, x);
  }

  lemma ReachedInv(s: State)
    requires Reachable(s)
    ensures Inv(s) && InRange(s)
  {
    var run: seq<State>, acts: seq<Action> :| IsRun(run, acts) && run[|acts|] == s;
    hide IsRun, Inv, InRange;
    RunInv(run, acts, |acts|);
    InvInRange(s);
  }

  lemma HasK2(s: State, v: Bytes)
    requires Inv(s) && s.t == Two(v)
    ensures Value(s.t, K2) == Some(v)
  {
    hide Agrees, WriterInv, ReaderInv, Links;
    assert Holds(s.t, 2, K2);
    ValueIs(s.t, 2, K2);
  }
}
