/**
 The write-ahead log and the layers: when replaying the one gives what the other holds
 (internal/engine/db.go:306-347).
 */
module EngineLog {
  import opened Options
  import opened ByteStrings
  import opened Layers
  import opened Engine
  import opened EngineSafety
  import opened EngineVersions
  import opened EngineLinear
  import opened EngineProtocol

  /** The step is the log append of a Put or Delete of key k. */
  ghost predicate AppendsKey(s: State, a: Action, k: Bytes) {
    a.StepPut? && a.w in s.core.writers && s.core.writers[a.w].pc == AppendWal && s.core.writers[a.w].key == k
  }

  /** The value of the last log append of k before state i, or what the log said of k when the run began. */
  ghost function LastAppended(run: seq<State>, acts: seq<Action>, i: nat, k: Bytes): Option<Bytes>
    requires i < |run| <= |acts| + 1
  {
    if i == 0 then At(Replay(run[0].core.wal), k)
    else if AppendsKey(run[i - 1], acts[i - 1], k) then Some(run[i - 1].core.writers[acts[i - 1].w].val)
    else LastAppended(run, acts, i - 1, k)
  }

  /** The value of the last MemTable insert of k before state i, or what recovery put there when the run began. */
  ghost function LastInserted(run: seq<State>, acts: seq<Action>, i: nat, k: Bytes): Option<Bytes>
    requires i < |run| <= |acts| + 1
  {
    if i == 0 then At(Replay(run[0].core.wal), k)
    else if InsertsKey(run[i - 1], acts[i - 1], k) then Some(run[i - 1].core.writers[acts[i - 1].w].val)
    else LastInserted(run, acts, i - 1, k)
  }

  // ------------------------------------------------------- what a step appends

  lemma PutAppends(s: State, w: nat, k: Bytes)
    requires Inv(s) && InRange(s) && Enabled(s, StepPut(w))
    ensures var c, c' := s.core, Apply(s, StepPut(w)).core;
            At(Replay(c'.wal), k) == if AppendsKey(s, StepPut(w), k) then Some(c.writers[w].val)
                else At(Replay(c.wal), k)
  {
    PutLog(s, w);
    var x := s.core.writers[w];
    assert (s.core.wal + [(x.key, x.val)])[..|s.core.wal|] == s.core.wal;
    hide Inv, InRange, CoreInv, Store;
  }

  lemma OtherAppends(s: State, a: Action)
    requires InRange(s) && Enabled(s, a) && !a.StepPut?
    ensures Apply(s, a).core.wal == s.core.wal
    ensures !a.BeginPut? ==> Apply(s, a).core.writers == s.core.writers
    ensures a.BeginPut? ==>
              && a.w !in s.core.writers
              && Apply(s, a).core.writers == s.core.writers[a.w := Writer(a.key, a.val, AppendWal)]
  {
    if a == StepWorker {
      WorkerAppends(s);
    }
    hide InRange, Look, Count, WorkerCore;
  }

  lemma WorkerAppends(s: State)
    requires InRange(s) && Enabled(s, StepWorker)
    ensures Apply(s, StepWorker).core.wal == s.core.wal && Apply(s, StepWorker).core.writers == s.core.writers
  {
    hide InRange;
  }

  lemma AppendStep(s: State, a: Action, k: Bytes)
    requires Inv(s) && InRange(s) && Enabled(s, a)
    ensures At(Replay(Apply(s, a).core.wal), k) ==
            if AppendsKey(s, a, k) then Some(s.core.writers[a.w].val) else At(Replay(s.core.wal), k)
  {
    hide Inv, InRange, Apply, Replay;
    if a.StepPut? {
      PutAppends(s, a.w, k);
    } else {
      OtherAppends(s, a);
    }
  }

  /** AppendStep along a run. */
  lemma LogStep(run: seq<State>, acts: seq<Action>, m: nat, k: Bytes)
    requires IsRun(run, acts) && m < |acts|
    ensures |run| == |acts| + 1
    ensures At(Replay(run[m + 1].core.wal), k) ==
            if AppendsKey(run[m], acts[m], k) then Some(run[m].core.writers[acts[m].w].val)
            else At(Replay(run[m].core.wal), k)
  {
    RunParts(run, acts, m);
    RunStep(run, acts, m);
    AppendStep(run[m], acts[m], k);
    hide IsRun, Inv, InRange, Enabled, Apply, Init, Replay;
  }

  /** Replaying the log gives the last append. */
  lemma {:induction false} LogIsLastAppended(run: seq<State>, acts: seq<Action>, i: nat, k: Bytes)
    requires IsRun(run, acts) && i < |run|
    ensures |run| == |acts| + 1 && At(Replay(run[i].core.wal), k) == LastAppended(run, acts, i, k)
  {
    hide Steps, Init, Replay, AppendsKey, InsertsKey;
    assert |run| == |acts| + 1;
    hide IsRun;
    if i > 0 {
      LogIsLastAppended(run, acts, i - 1, k);
      LogStep(run, acts, i - 1, k);
    }
  }

  lemma StartsAlike(s: State, k: Bytes)
    requires Init(s) && k != []
    ensures WellFormed(s.core) && Stored(s.core, k) == At(Replay(s.core.wal), k)
  {
  }

  /** The layers hold the last insert. */
  lemma {:induction false} ViewIsLastInserted(run: seq<State>, acts: seq<Action>, i: nat, k: Bytes)
    requires IsRun(run, acts) && i < |run| && k != []
    ensures |run| == |acts| + 1 && WellFormed(run[i].core) && Stored(run[i].core, k) == LastInserted(run, acts, i, k)
  {
    hide Steps, Replay, AppendsKey, InsertsKey, WellFormed, Stored;
    if i == 0 {
      StartsAlike(run[0], k);
    } else {
      ViewIsLastInserted(run, acts, i - 1, k);
      ViewStep(run, acts, i - 1, k);
    }
  }

  /**
   When log and memory agree on a key, for any number of writers: exactly when its last append and its last insert
   carry the same value.
   */
  lemma LogAgreesExactly(run: seq<State>, acts: seq<Action>, i: nat, k: Bytes)
    requires IsRun(run, acts) && i < |run| && k != []
    ensures |run| == |acts| + 1 && WellFormed(run[i].core)
    ensures At(Replay(run[i].core.wal), k) == Stored(run[i].core, k) <==>
            LastAppended(run, acts, i, k) == LastInserted(run, acts, i, k)
  {
    LogIsLastAppended(run, acts, i, k);
    ViewIsLastInserted(run, acts, i, k);
    hide *;
  }

  // -------------------------------------------------- writers serialized by key

  /** The call has appended its record and not yet inserted it. */
  predicate Logged(x: Writer) {
    x.pc == LoadTable || x.pc.Insert?
  }

  ghost predicate LoggedOf(c: Core, w: nat, k: Bytes) {
    w in c.writers && Logged(c.writers[w]) && c.writers[w].key == k
  }

  /** At most one call on k lies between its append and its insert. */
  ghost predicate OneOf(c: Core, k: Bytes) {
    forall w: nat, x: nat :: LoggedOf(c, w, k) && LoggedOf(c, x, k) ==> w == x
  }

  ghost predicate NoneOf(c: Core, k: Bytes) {
    forall w: nat :: !LoggedOf(c, w, k)
  }

  /**
   A writer of k between append and insert carries the last append; without one, last append and last insert
   agree.
   */
  ghost predicate InStep(c: Core, k: Bytes, appended: Option<Bytes>, inserted: Option<Bytes>) {
    && (forall w: nat :: LoggedOf(c, w, k) ==> appended == Some(c.writers[w].val))
    && (NoneOf(c, k) ==> appended == inserted)
  }

  /** How one step changes who lies between append and insert. */
  lemma LoggedStep(s: State, a: Action, k: Bytes, w: nat)
    requires Inv(s) && InRange(s) && Enabled(s, a)
    ensures var c, c' := s.core, Apply(s, a).core;
            && (LoggedOf(c', w, k) <==>
                  (LoggedOf(c, w, k) && !(InsertsKey(s, a, k) && a.w == w)) || (AppendsKey(s, a, k) && a.w == w))
            && (LoggedOf(c', w, k) ==> w in c.writers && c'.writers[w].val == c.writers[w].val)
    ensures InsertsKey(s, a, k) ==> LoggedOf(s.core, a.w, k)
  {
    if a.StepPut? {
      LoggedPut(s, a.w, k, w);
    } else {
      OtherAppends(s, a);
    }
    hide Inv, InRange, Apply;
  }

  lemma LoggedPut(s: State, p: nat, k: Bytes, w: nat)
    requires Inv(s) && InRange(s) && Enabled(s, StepPut(p))
    ensures var c, c', a := s.core, Apply(s, StepPut(p)).core, StepPut(p);
            && (LoggedOf(c', w, k) <==>
                  (LoggedOf(c, w, k) && !(InsertsKey(s, a, k) && p == w)) || (AppendsKey(s, a, k) && p == w))
            && (LoggedOf(c', w, k) ==> w in c.writers && c'.writers[w].val == c.writers[w].val)
    ensures InsertsKey(s, StepPut(p), k) ==> LoggedOf(s.core, p, k)
  {
    PutTables(s.core, p);
    hide Inv, InRange, CoreInv, Store, Inserted;
  }

  lemma InStepKeeps(s: State, a: Action, k: Bytes, appended: Option<Bytes>, inserted: Option<Bytes>)
    requires Inv(s) && InRange(s) && Enabled(s, a) && InStep(s.core, k, appended, inserted)
    requires OneOf(s.core, k) && OneOf(Apply(s, a).core, k)
    ensures InStep(Apply(s, a).core, k,
                   if AppendsKey(s, a, k) then Some(s.core.writers[a.w].val) else appended,
                   if InsertsKey(s, a, k) then Some(s.core.writers[a.w].val) else inserted)
  {
    forall w: nat
      ensures var c, c' := s.core, Apply(s, a).core;
              && (LoggedOf(c', w, k) <==>
                    (LoggedOf(c, w, k) && !(InsertsKey(s, a, k) && a.w == w)) || (AppendsKey(s, a, k) && a.w == w))
              && (LoggedOf(c', w, k) ==> w in c.writers && c'.writers[w].val == c.writers[w].val)
              && (InsertsKey(s, a, k) ==> LoggedOf(c, a.w, k))
    {
      LoggedStep(s, a, k, w);
    }
    assert AppendsKey(s, a, k) ==> LoggedOf(Apply(s, a).core, a.w, k);
    assert !(AppendsKey(s, a, k) && InsertsKey(s, a, k));
    hide Inv, InRange, Apply, Enabled, AppendsKey, InsertsKey, LoggedOf;
  }

  lemma StartInStep(s: State, k: Bytes, x: Option<Bytes>)
    requires Init(s)
    ensures InStep(s.core, k, x, x)
  {
  }

  lemma {:induction false} SerialRun(run: seq<State>, acts: seq<Action>, i: nat, k: Bytes)
    requires IsRun(run, acts) && i < |run| == |acts| + 1
    requires forall m :: 0 <= m <= i ==> OneOf(run[m].core, k)
    ensures InStep(run[i].core, k, LastAppended(run, acts, i, k), LastInserted(run, acts, i, k))
  {
    hide Steps, Inv, InRange, Apply, Enabled, AppendsKey, InsertsKey, OneOf, InStep, Replay;
    if i == 0 {
      StartInStep(run[0], k, At(Replay(run[0].core.wal), k));
    } else {
      SerialRun(run, acts, i - 1, k);
      RunStep(run, acts, i - 1);
      InStepKeeps(run[i - 1], acts[i - 1], k, LastAppended(run, acts, i - 1, k), LastInserted(run, acts, i - 1, k));
    }
  }

  /**
   As long as no two calls on k have lain between append and insert at once, whatever calls on other keys do, and none
   does now: replaying the whole log gives for k exactly what the layers hold, tombstones included, however many
   rotations, flushes and compactions lie behind, before as well as after Close.
   */
  lemma LogReplaysTheView(run: seq<State>, acts: seq<Action>, i: nat, k: Bytes)
    requires IsRun(run, acts) && i < |run| && k != []
    requires (forall m :: 0 <= m <= i ==> OneOf(run[m].core, k)) && NoneOf(run[i].core, k)
    ensures WellFormed(run[i].core) && At(Replay(run[i].core.wal), k) == Stored(run[i].core, k)
  {
    LogAgreesExactly(run, acts, i, k);
    SerialRun(run, acts, i, k);
    hide Inv, IsRun, OneOf, WellFormed, Stored, Replay, LastAppended, LastInserted;
  }

  /** A restart on the same log starts from the entries the last run ended with. */
  lemma RestartKeepsTheView(run: seq<State>, acts: seq<Action>, i: nat, s: State, k: Bytes)
    requires IsRun(run, acts) && i < |run| && k != []
    requires (forall m :: 0 <= m <= i ==> OneOf(run[m].core, k)) && NoneOf(run[i].core, k)
    requires Init(s) && s.core.wal == run[i].core.wal
    ensures WellFormed(run[i].core) && WellFormed(s.core) && Stored(s.core, k) == Stored(run[i].core, k)
  {
    LogReplaysTheView(run, acts, i, k);
    StartsAlike(s, k);
    hide IsRun, OneOf, NoneOf, WellFormed, Stored, Init;
  }
}
