/** What a finished Put or Freeze leaves behind (internal/engine/memtable.go:65-146, 201-205). */
module SkipListEnds {
  import opened ByteStrings
  import opened Layers
  import opened SkipList
  import opened SkipListRuns

  // ---------------------------------------------------------- the size estimate

  /** Key and value lengths of the first write of every key. */
  function FirstSizes(log: seq<(Bytes, Bytes)>): nat {
    if log == [] then 0
    else
      var init, w := log[..|log| - 1], log[|log| - 1];
      FirstSizes(init) + if w.0 in Replay(init) then 0 else |w.0| + |w.1|
  }

  /** The insert in hand has been counted and is not linked yet. */
  predicate Counted(mu: Holder) {
    mu.Putting? && (mu.pc.Wire? || (mu.pc.Publish? && mu.pc.i == 0))
  }

  ghost predicate SizeInv(s: State) {
    s.size == FirstSizes(s.log) + if Counted(s.mu) then |s.mu.key| + |s.mu.val| else 0
  }

  /** What a statement of Put does to log and size. */
  lemma PutSizes(s: State, h: nat)
    requires s.mu.Putting? && WriterInRange(s.t, s.mu.preds, s.mu.pc) && 1 <= h
    requires s.mu.pc.Wire? || s.mu.pc.Publish? ==> s.mu.pc.height > 0
    ensures var s', w := PutStep(s, h), (s.mu.key, s.mu.val);
            if s.mu.pc.Overwrite? then s'.log == s.log + [w] && s'.size == s.size && !Counted(s'.mu)
            else if s.mu.pc.Grow? then s'.log == s.log && s'.size == s.size + |w.0| + |w.1| && Counted(s'.mu)
                && s'.mu.key == w.0 && s'.mu.val == w.1
            else if s.mu.pc.Publish? && s.mu.pc.i == 0 then s'.log == s.log + [w] && s'.size == s.size
                && !Counted(s'.mu)
            else
              && s'.log == s.log && s'.size == s.size && Counted(s'.mu) == Counted(s.mu)
              && (Counted(s.mu) ==> s'.mu.key == w.0 && s'.mu.val == w.1)
  {
    hide Less, Wf, StoreVal, StoreNext, Link, Alloc;
  }

  lemma FirstSizesSnoc(log: seq<(Bytes, Bytes)>, w: (Bytes, Bytes))
    ensures FirstSizes(log + [w]) == FirstSizes(log) + if w.0 in Replay(log) then 0 else |w.0| + |w.1|
  {
    assert (log + [w])[..|log|] == log;
  }

  /** A key is counted when it was absent, and only then. */
  lemma CountedIsNew(s: State)
    requires Inv(s) && s.mu.Putting?
    ensures s.mu.pc.Overwrite? ==> s.mu.key in Replay(s.log)
    ensures s.mu.pc.Publish? && s.mu.pc.i == 0 ==> s.mu.key !in Replay(s.log)
    ensures s.mu.pc.Wire? || s.mu.pc.Publish? ==> s.mu.pc.height > 0
  {
    var k := s.mu.key;
    assert Value(s.t, k) == At(Replay(s.log), k);
    hide Less, Links;
  }

  lemma SizeStep(s: State, a: Action)
    requires Inv(s) && InRange(s) && Enabled(s, a) && SizeInv(s)
    ensures SizeInv(Apply(s, a))
  {
    hide Inv, PutStep, Replay, FirstSizes;
    if a.StepPut? {
      CountedIsNew(s);
      PutSizes(s, a.height);
      FirstSizesSnoc(s.log, (s.mu.key, s.mu.val));
    }
    hide WriterInRange, ReaderInRange, GetStep;
  }

  lemma {:induction false} SizeRun(run: seq<State>, acts: seq<Action>, i: nat)
    requires IsRun(run, acts) && i < |run|
    ensures SizeInv(run[i])
  {
    hide IsRun, Inv, InRange, Enabled, Apply, SizeInv;
    RunParts(run, acts, 0);
    if i == 0 {
      EmptySize();
    } else {
      SizeRun(run, acts, i - 1);
      RunParts(run, acts, i - 1);
      RunInv(run, acts, i - 1);
      SizeStep(run[i - 1], acts[i - 1]);
    }
  }

  lemma EmptySize()
    ensures SizeInv(Init())
  {
  }

  /** Between two writers the size estimate is the sum of key and value lengths at each key's first write. */
  lemma SizeIsSum(run: seq<State>, acts: seq<Action>, i: nat)
    requires IsRun(run, acts) && i < |run| && !run[i].mu.Putting?
    ensures run[i].size == FirstSizes(run[i].log)
  {
    SizeRun(run, acts, i);
  }

  // ----------------------------------------------------- Freeze and the levels

  /** A Freeze that returns has set the flag. */
  lemma FreezeTakes(run: seq<State>, acts: seq<Action>, i: nat)
    requires IsRun(run, acts) && i < |acts| && run[i].mu.Freezing? && run[i + 1].mu == SkipListRuns.Free
    ensures run[i + 1].frozen
  {
    RunInv(run, acts, i);
    RunParts(run, acts, i);
    hide IsRun, Ordered, Agrees, ReaderInv, InRange, WriterInRange, ReaderInRange, PutStep, GetStep, WriterOk;
  }

  /** The publication loop ends only when the new node is on every level up to its height. */
  lemma LinkedInFull(run: seq<State>, acts: seq<Action>, i: nat)
    requires IsRun(run, acts) && i < |acts|
    requires run[i].mu.Putting? && run[i].mu.pc.Publish? && run[i + 1].mu != run[i].mu
    requires run[i + 1].mu.Putting? ==> !run[i + 1].mu.pc.Publish?
    ensures var n, t := run[i].mu.pc.n, run[i + 1].t;
            && n < |t.nodes| && t.nodes[n].key == run[i].mu.key
            && forall l :: 0 <= l < run[i].mu.pc.height ==> On(t, n, l)
  {
    RunInv(run, acts, i);
    RunParts(run, acts, i);
    hide IsRun, Ordered, Agrees, ReaderInv, GetStep, Link, StoreVal, StoreNext, Alloc, Less;
  }
}
