/** The shape two-phase locking gives the log, and runs that show where recovery fails. */
module EngineLogShape {
  import opened Base
  import opened Locks
  import opened Log
  import opened Recovery
  import opened Engine
  import opened EngineInvariant
  import opened EngineSteps
  import opened EngineTheorems

  predicate SameKeyWrites(a: Record, b: Record) {
    a.kind == WRITE && WritesKey(b, a.key)
  }

  /** A transaction's writes of one key are not interrupted by another's. */
  ghost predicate Contiguous(log: seq<Record>) {
    forall i, j, l ::
      (0 <= i < j < l < |log| && SameKeyWrites(log[i], log[j]) && SameKeyWrites(log[i], log[l])
       && log[i].txn == log[l].txn)
      ==> log[j].txn == log[i].txn
  }

  /** Record `i` carries the value its key had in the store committed when it was logged. */
  ghost predicate CarriesCommitted(base: Store, log: seq<Record>, i: nat)
    requires i < |log|
  {
    match LastWrite(log[..i], Discarded(log[..i]), log[i].key)
    case None => Before(log[i]) == Lookup(base, log[i].key)
    case Some(w) => Norm(Before(log[i])) == After(w)
  }

  ghost predicate ImagesOk(base: Store, log: seq<Record>) {
    forall i :: 0 <= i < |log| && log[i].kind == WRITE ==> CarriesCommitted(base, log, i)
  }

  /** An unfinished writer of a key wrote the last record on it. */
  ghost predicate UnfinishedLast(s: State) {
    forall t, k :: Unfinished(s, t) && k in s.txns[t].writes ==>
                     LastWrite(s.log, {}, k).Some? && LastWrite(s.log, {}, k).value.txn == t
  }

  ghost predicate LogShaped(s: State) {
    Contiguous(s.log) && ImagesOk(s.base, s.log) && UnfinishedLast(s)
  }

  lemma {:induction false} LastWriteAt(log: seq<Record>, k: Key) returns (p: nat)
    requires LastWrite(log, {}, k).Some?
    ensures p < |log| && log[p] == LastWrite(log, {}, k).value && WritesKey(log[p], k)
    ensures forall q :: p < q < |log| ==> !WritesKey(log[q], k)
  {
    p := |log| - 1;
    if !WritesKey(log[p], k) {
      p := LastWriteAt(log[..p], k);
    }
  }

  lemma ContiguousAppend(log: seq<Record>, r: Record)
    requires Contiguous(log)
    requires r.kind == WRITE && (exists i :: 0 <= i < |log| && WritesKey(log[i], r.key) && log[i].txn == r.txn) ==>
               LastWrite(log, {}, r.key).Some? && LastWrite(log, {}, r.key).value.txn == r.txn
    ensures Contiguous(log + [r])
  {
    var log' := log + [r];
    forall i, j, l | 0 <= i < j < l < |log'| && SameKeyWrites(log'[i], log'[j])
                     && SameKeyWrites(log'[i], log'[l]) && log'[i].txn == log'[l].txn
      ensures log'[j].txn == log'[i].txn
    {
      assert log'[i] == log[i] && log'[j] == log[j];
      if l == |log| {
        var p := LastWriteAt(log, r.key);
        assert j <= p;
        if j < p { assert SameKeyWrites(log[i], log[p]); }
      } else {
        assert log'[l] == log[l];
      }
    }
  }

  lemma ImagesAppend(base: Store, log: seq<Record>, r: Record)
    requires ImagesOk(base, log)
    requires r.kind == WRITE ==> match LastWrite(log, Discarded(log), r.key)
                                 case None => Before(r) == Lookup(base, r.key)
                                 case Some(w) => Norm(Before(r)) == After(w)
    ensures ImagesOk(base, log + [r])
  {
    var log' := log + [r];
    forall i | 0 <= i < |log'| && log'[i].kind == WRITE ensures CarriesCommitted(base, log', i) {
      if i < |log| {
        assert log'[..i] == log[..i] && log'[i] == log[i];
        assert CarriesCommitted(base, log, i);
      } else {
        assert log'[..i] == log && log'[i] == r;
      }
    }
  }

  lemma ShapeWrite(s: State, t: TxnId, k: Key, e: WriteEntry, op: Op, v: Option<Value>)
    requires WriteReady(s, t, k, e, op, v) && LogShaped(s)
    ensures LogShaped(AfterWrite(s, t, k, e, op, v))
  {
    hide LastWrite, Losers, EndedBy, Contiguous, ImagesOk;
    var s' := AfterWrite(s, t, k, e, op, v);
    var r := WriteRecord(s.nextLsn, t, k, e);
    assert Unfinished(s, t);
    if i :| 0 <= i < |s.log| && WritesKey(s.log[i], k) && s.log[i].txn == t {
      assert s.log[i] in s.log;
    }
    ContiguousAppend(s.log, r);
    assert ViewOk(s, t);
    if k !in s.txns[t].writes {
      forall u ensures !Dirty(s, u, k) { if u != t { OnlyWriter(s, t, k, u); } }
    }
    assert Before(r) == Lookup(CommittedStore(s), k);
    ImagesAppend(s.base, s.log, r);
    forall u, j | Unfinished(s', u) && j in s'.txns[u].writes
      ensures LastWrite(s'.log, {}, j).Some? && LastWrite(s'.log, {}, j).value.txn == u
    {
      AppendFacts(s.log, r, {}, j);
      assert Unfinished(s, u);
      if j == k && u != t { OnlyWriter(s, t, k, u); }
    }
  }

  /** A step that logs no write of its own. */
  lemma ShapeOther(s: State, s': State)
    requires LogShaped(s) && s'.base == s.base
    requires s'.log == s.log || (|s'.log| == |s.log| + 1 && s'.log[..|s.log|] == s.log && s'.log[|s.log|].kind != WRITE)
    requires forall t :: Unfinished(s', t) ==> s'.txns[t].writes == map[] || (Unfinished(s, t) && s'.txns[t].writes == s.txns[t].writes)
    ensures LogShaped(s')
  {
    if s'.log != s.log {
      var r := s'.log[|s.log|];
      assert s'.log == s.log + [r];
      ContiguousAppend(s.log, r);
      ImagesAppend(s.base, s.log, r);
      forall k ensures LastWrite(s'.log, {}, k) == LastWrite(s.log, {}, k) { AppendFacts(s.log, r, {}, k); }
    }
  }

  lemma QuietStep(s: State, step: Step)
    requires Enabled(s, step) && !step.Put? && !step.Delete? && !step.Checkpoint? && !step.CrashAndRecover?
    ensures Next(s, step).base == s.base
    ensures var log' := Next(s, step).log;
            log' == s.log || (|log'| == |s.log| + 1 && log'[..|s.log|] == s.log && log'[|s.log|].kind != WRITE)
    ensures forall t :: Unfinished(Next(s, step), t) ==>
                          Next(s, step).txns[t].writes == map[]
                          || (Unfinished(s, t) && Next(s, step).txns[t].writes == s.txns[t].writes)
  {
  }

  lemma FreshShape(s: State)
    requires s.log == [] && s.txns == map[]
    ensures LogShaped(s)
  {
  }

  lemma ShapeStep(s: State, step: Step)
    requires Inv(s) && LogShaped(s) && Enabled(s, step)
    ensures LogShaped(Next(s, step))
  {
    hide Inv, Contiguous, ImagesOk, LastWrite;
    if step.Put? {
      var Put(t, k, v) := step;
      ShapeWrite(s, t, k, PutEntry(s.tree, s.txns[t].writes, k, v), Stored(k, v), Some(v));
    } else if step.Delete? {
      ShapeDelete(s, step.t, step.key);
    } else if step.Checkpoint? || step.CrashAndRecover? {
      FreshShape(Next(s, step));
    } else {
      QuietStep(s, step);
      ShapeOther(s, Next(s, step));
    }
  }

  lemma ShapeDelete(s: State, t: TxnId, k: Key)
    requires Inv(s) && LogShaped(s) && Enabled(s, Delete(t, k))
    ensures LogShaped(Next(s, Delete(t, k)))
  {
    hide LastWrite, Losers, EndedBy, ViewsOk, LogOk, ReplayOk, DiskOk, Contiguous, ImagesOk;
    if k in s.tree {
      ShapeWrite(s, t, k, DeleteEntry(s.tree, s.txns[t].writes, k), Deleted(k), None);
    } else {
      var s' := Next(s, Delete(t, k));
      assert forall u :: Unfinished(s', u) ==> Unfinished(s, u);
      ShapeOther(s, s');
    }
  }

  lemma {:induction false} ShapeRun(s: State, steps: seq<Step>)
    requires Inv(s) && LogShaped(s) && ValidRun(s, steps)
    ensures LogShaped(Run(s, steps))
    decreases |steps|
  {
    if steps != [] {
      StepKeeps(s, steps[0]);
      ShapeStep(s, steps[0]);
      ShapeRun(Next(s, steps[0]), steps[1..]);
    }
  }

  /** Log shape. In every run each transaction's writes of a key form one block, every record
      carries the value committed when it was logged, and at most one unfinished transaction
      wrote a key, namely the writer of its last record. */
  lemma LogShape(m: Store, steps: seq<Step>)
    requires ValidRun(Opened(m), steps)
    ensures LogShaped(Run(Opened(m), steps))
  {
    OpenedInv(m);
    ShapeRun(Opened(m), steps);
  }

  // -------------------------------------------------------- failing recoveries

  const KEY_A: Key := [1]

  lemma {:induction false} RunSnoc(s: State, steps: seq<Step>, step: Step)
    requires ValidRun(s, steps) && Enabled(Run(s, steps), step)
    ensures ValidRun(s, steps + [step]) && Run(s, steps + [step]) == Next(Run(s, steps), step)
    decreases |steps|
  {
    var all := steps + [step];
    if steps == [] {
      assert all == [step] && all[1..] == [];
      assert ValidRun(Next(s, step), []);
    } else {
      assert all[0] == steps[0] && all[1..] == steps[1..] + [step];
      RunSnoc(Next(s, steps[0]), steps[1..], step);
    }
  }

  /** A single transaction stores `v` under KEY_A. */
  function PutSteps(v: Value): seq<Step> {
    [Begin, Lock(1, KEY_A, Exclusive), Put(1, KEY_A, v)]
  }

  function PutLog(v: Value): seq<Record> {
    [EndRecord(1, 1, BEGIN), WriteRecord(2, 1, KEY_A, WriteEntry(false, [], v))]
  }

  function PutTxn(v: Value, status: Status): Txn {
    Txn(status, map[KEY_A := WriteEntry(false, [], v)], [Stored(KEY_A, v)])
  }

  lemma AfterPutSteps(v: Value)
    ensures ValidRun(Opened(map[]), PutSteps(v))
    ensures Run(Opened(map[]), PutSteps(v)) ==
            State(map[KEY_A := v], map[], PutLog(v), 3, 2,
                  LockTable(map[KEY_A := LockState({}, 1)], map[1 := [KEY_A]]),
                  map[1 := PutTxn(v, Active)], map[], [])
  {
    var s := Opened(map[]);
    assert ValidRun(s, []);
    RunSnoc(s, [], Begin);
    assert [] + [Begin] == [Begin];
    var s1 := Run(s, [Begin]);
    RunSnoc(s, [Begin], Lock(1, KEY_A, Exclusive));
    assert [Begin] + [Lock(1, KEY_A, Exclusive)] == [Begin, Lock(1, KEY_A, Exclusive)];
    var s2 := Run(s, [Begin, Lock(1, KEY_A, Exclusive)]);
    var nobody: set<TxnId> := {};
    assert nobody - {1} == nobody;
    var noKeys: seq<Key> := [];
    assert noKeys + [KEY_A] == [KEY_A];
    var noOps: seq<Op> := [];
    assert noOps + [Stored(KEY_A, v)] == [Stored(KEY_A, v)];
    assert s2.locks.table == map[KEY_A := LockState({}, 1)];
    assert s2.locks.held == map[1 := [KEY_A]];
    RunSnoc(s, [Begin, Lock(1, KEY_A, Exclusive)], Put(1, KEY_A, v));
    assert [Begin, Lock(1, KEY_A, Exclusive)] + [Put(1, KEY_A, v)] == PutSteps(v);
    var s3 := Run(s, PutSteps(v));
    assert s3.log == PutLog(v);
    assert s3.txns == map[1 := PutTxn(v, Active)];
    assert s3.tree == map[KEY_A := v];
  }

  /** A write that reached the disk and was rolled back only in memory comes back after a
      crash, because recovery skips aborted transactions. */
  lemma AbortedWriteResurfaces(v: Value)
    ensures var steps := PutSteps(v) + [WriteBack({KEY_A})] + [Undo(1)] + [LogAbort(1)];
            && ValidRun(Opened(map[]), steps)
            && var s := Run(Opened(map[]), steps);
               CommittedStore(s) == map[] && Lookup(Recovered(s.disk, DecodedLog(s.log)), KEY_A) == Some(v)
  {
    var s := Opened(map[]);
    AfterPutSteps(v);
    RunSnoc(s, PutSteps(v), WriteBack({KEY_A}));
    RunSnoc(s, PutSteps(v) + [WriteBack({KEY_A})], Undo(1));
    var steps := PutSteps(v) + [WriteBack({KEY_A})] + [Undo(1)];
    RunSnoc(s, steps, LogAbort(1));
    var end := Run(s, steps + [LogAbort(1)]);
    OpenedInv(map[]);
    RunKeeps(s, steps + [LogAbort(1)]);
    AppendFacts(PutLog(v), EndRecord(3, 1, ABORT), {}, KEY_A);
    OnlyOneWriter(end.log, EndedBy(end.log, ABORT), 1);
    RecoveryPerKey(end, KEY_A);
  }

  /** Skipping the only transaction in a log leaves no write. */
  lemma OnlyOneWriter(log: seq<Record>, skip: set<TxnId>, t: TxnId)
    requires t in skip && forall r :: r in log ==> r.txn == t
    ensures LastWrite(log, skip, KEY_A).None?
  {
    LastWriteFound(log, skip, KEY_A);
  }

  /** A committed empty value is read back from the log as a deletion. */
  lemma EmptyValueIsLost()
    ensures var steps := PutSteps([]) + [LogCommit(1)];
            && ValidRun(Opened(map[]), steps)
            && var s := Run(Opened(map[]), steps);
               Lookup(CommittedStore(s), KEY_A) == Some([]) && Lookup(Recovered(s.disk, DecodedLog(s.log)), KEY_A) == None
  {
    hide Recovered, Losers, Inv;
    var s := Opened(map[]);
    AfterPutSteps([]);
    var before := Run(s, PutSteps([]));
    RunSnoc(s, PutSteps([]), LogCommit(1));
    var end := Run(s, PutSteps([]) + [LogCommit(1)]);
    OpenedInv(map[]);
    RunKeeps(s, PutSteps([]));
    RunKeeps(s, PutSteps([]) + [LogCommit(1)]);
    CommitOverlay(before, 1, KEY_A);
    AppendFacts(PutLog([]), EndRecord(3, 1, COMMIT), {}, KEY_A);
    LastWriteFound(end.log, EndedBy(end.log, ABORT), KEY_A);
    assert end.log[1] in end.log && WritesKey(end.log[1], KEY_A);
    RecoveryPerKey(end, KEY_A);
  }
}
