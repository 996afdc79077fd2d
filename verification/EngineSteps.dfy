/** Each step of the engine keeps the invariant. */
module EngineSteps {
  import opened Base
  import opened Locks
  import opened Log
  import opened Recovery
  import opened Engine
  import opened EngineInvariant

  lemma OpenedInv(m: Store)
    ensures Inv(Opened(m))
  {
  }

  // ------------------------------------------------------------ steps on locks

  lemma LockKeeps(s: State, t: TxnId, k: Key, mode: Mode)
    requires Inv(s) && Enabled(s, Lock(t, k, mode))
    ensures Inv(Next(s, Lock(t, k, mode)))
  {
    hide ViewsOk, LogOk, NewestOk, ReplayOk;
    GrantIsSafe(s.locks, t, k, mode);
    var s' := Next(s, Lock(t, k, mode));
    assert LocksOk(s') by {
      forall u, i | Running(s', u) && 0 <= i < |s'.txns[u].ops|
        ensures Holds(s'.locks, u, s'.txns[u].ops[i].key)
      {
        assert Running(s, u);
        assert Holds(s.locks, u, s.txns[u].ops[i].key);
      }
      forall u, j | Running(s', u) && j in s'.txns[u].writes ensures HoldsExclusive(s'.locks, u, j) {
        assert Running(s, u);
      }
    }
    SameViews(s, s');
    SameLedger(s, s');
  }

  lemma TimeoutKeeps(s: State, t: TxnId, k: Key, mode: Mode)
    requires Inv(s) && Enabled(s, LockTimeout(t, k, mode))
    ensures Next(s, LockTimeout(t, k, mode)) == s
  {
    if k in s.locks.table { assert EntrySafe(s.locks.table[k]); }
  }

  // ------------------------------------------------------------ begin and read

  lemma BeginKeeps(s: State)
    requires Inv(s)
    ensures Inv(Next(s, Begin))
  {
    hide ViewsOk, LogOk, NewestOk, ReplayOk, DiskOk;
    var s' := Next(s, Begin);
    assert IdsOk(s') && LocksOk(s');
    BeginKeepsViews(s);
    BeginKeepsLog(s);
    BeginKeepsReplay(s);
  }

  lemma BeginKeepsViews(s: State)
    requires Inv(s)
    ensures ViewsOk(Next(s, Begin))
  {
    hide Losers, EndedBy, LastWrite, Serial, LocksOk, LogOk, NewestOk, ReplayOk, DiskOk;
    var s' := Next(s, Begin);
    assert forall t, k :: Dirty(s', t, k) <==> Dirty(s, t, k);
    forall t | t in s'.txns ensures ViewOk(s', t) {
      if t != s.nextTxn { assert ViewOk(s, t); }
    }
  }

  lemma BeginKeepsLog(s: State)
    requires IdsOk(s) && LogOk(s)
    ensures LogOk(Next(s, Begin))
  {
    hide Losers, EndedBy, LastWrite;
    var s' := Next(s, Begin);
    var r := EndRecord(s.nextLsn, s.nextTxn, BEGIN);
    AppendFacts(s.log, r, {}, []);
    assert forall x :: x in s'.log <==> x in s.log || x == r;
    assert forall t :: t != s.nextTxn ==> (Unfinished(s', t) <==> Unfinished(s, t));
  }

  lemma BeginKeepsReplay(s: State)
    requires Inv(s)
    ensures NewestOk(Next(s, Begin)) && ReplayOk(Next(s, Begin)) && DiskOk(Next(s, Begin))
  {
    hide Losers, EndedBy, LastWrite, ViewsOk, LocksOk;
    var s' := Next(s, Begin);
    var r := EndRecord(s.nextLsn, s.nextTxn, BEGIN);
    forall k ensures LastWrite(s'.log, {}, k) == LastWrite(s.log, {}, k)
             ensures LastWrite(s'.log, Discarded(s'.log), k) == LastWrite(s.log, Discarded(s.log), k)
    {
      AppendFacts(s.log, r, {}, k);
      AppendFacts(s.log, r, Discarded(s'.log), k);
      SkipIrrelevant(s.log, Discarded(s.log), Discarded(s'.log), k);
    }
    assert forall t, k :: Dirty(s', t, k) <==> Dirty(s, t, k);
  }

  lemma GetKeeps(s: State, t: TxnId, k: Key)
    requires Inv(s) && Enabled(s, Get(t, k))
    ensures Inv(Next(s, Get(t, k)))
  {
    var x := s.txns[t];
    var c := CommittedStore(s);
    assert ViewOk(s, t);
    if k !in x.writes {
      forall u ensures !Dirty(s, u, k) {
        if Dirty(s, u, k) {
          assert Unfinished(s, u);
          Conflict(s.locks, u, t, k);
        }
      }
    }
    FaithfulSnoc(c, x.ops, Got(k, Lookup(s.tree, k)));
    ReadOnlyKeeps(s, t, Got(k, Lookup(s.tree, k)));
  }

  function Recorded(s: State, t: TxnId, op: Op): State
    requires t in s.txns
  {
    s.(txns := s.txns[t := s.txns[t].(ops := s.txns[t].ops + [op])])
  }

  lemma RecordedKeepsLocks(s: State, t: TxnId, op: Op)
    requires LocksOk(s) && HasStatus(s, t, Active) && Holds(s.locks, t, op.key)
    ensures LocksOk(Recorded(s, t, op))
  {
    var s' := Recorded(s, t, op);
    forall u, i | Running(s', u) && 0 <= i < |s'.txns[u].ops|
      ensures Holds(s'.locks, u, s'.txns[u].ops[i].key)
    {
      assert Running(s, u);
      if i < |s.txns[u].ops| { assert Holds(s.locks, u, s.txns[u].ops[i].key); }
    }
    forall u, j | Running(s', u) && j in s'.txns[u].writes ensures HoldsExclusive(s'.locks, u, j) {
      assert Running(s, u);
    }
  }

  lemma RecordedKeepsViews(s: State, t: TxnId, op: Op)
    requires ViewsOk(s) && HasStatus(s, t, Active)
    requires Faithful(CommittedStore(s), s.txns[t].ops + [op])
    requires ApplyOp(ApplyOps(CommittedStore(s), s.txns[t].ops), op) == ApplyOps(CommittedStore(s), s.txns[t].ops)
    ensures ViewsOk(Recorded(s, t, op))
  {
    hide Faithful, Serial, ApplyOps;
    var s' := Recorded(s, t, op);
    assert forall u, j :: Dirty(s', u, j) <==> Dirty(s, u, j);
    ApplyOpsSnoc(CommittedStore(s), s.txns[t].ops, op);
    forall u | u in s'.txns ensures ViewOk(s', u) { assert ViewOk(s, u); }
  }

  /** Recording an operation that changes nothing. */
  lemma ReadOnlyKeeps(s: State, t: TxnId, op: Op)
    requires Inv(s) && HasStatus(s, t, Active) && Holds(s.locks, t, op.key)
    requires Faithful(CommittedStore(s), s.txns[t].ops + [op])
    requires ApplyOp(ApplyOps(CommittedStore(s), s.txns[t].ops), op) == ApplyOps(CommittedStore(s), s.txns[t].ops)
    ensures Inv(Recorded(s, t, op))
  {
    hide LocksOk, ViewsOk, LogOk, NewestOk, ReplayOk;
    RecordedKeepsLocks(s, t, op);
    RecordedKeepsViews(s, t, op);
    SameLedger(s, Recorded(s, t, op));
  }

  /** Same writers, same write sets: all that the log and disk invariants see of transactions. */
  ghost predicate SameWriters(s: State, s': State) {
    && s'.txns.Keys == s.txns.Keys
    && forall t :: t in s.txns ==>
                     && s'.txns[t].writes == s.txns[t].writes
                     && (s'.txns[t].status == Active <==> s.txns[t].status == Active)
                     && (s'.txns[t].status == Undone <==> s.txns[t].status == Undone)
  }

  lemma SameLedger(s: State, s': State)
    requires LogOk(s) && NewestOk(s) && ReplayOk(s)
    requires s' == s.(txns := s'.txns, locks := s'.locks, disk := s'.disk) && SameWriters(s, s')
    ensures LogOk(s') && NewestOk(s') && ReplayOk(s')
  {
    hide Losers, EndedBy, LastWrite;
    assert forall u :: Unfinished(s', u) <==> Unfinished(s, u);
    assert forall u, j :: Dirty(s', u, j) <==> Dirty(s, u, j);
    assert LogOk(s');
    assert NewestOk(s');
  }

  lemma SameViews(s: State, s': State)
    requires ViewsOk(s)
    requires s' == s.(txns := s'.txns, locks := s'.locks, disk := s'.disk) && SameWriters(s, s')
    requires forall t :: t in s.txns ==> s'.txns[t].ops == s.txns[t].ops
    ensures ViewsOk(s')
  {
    hide Faithful, Serial, ApplyOps;
    assert forall u, j :: Dirty(s', u, j) <==> Dirty(s, u, j);
    forall u | u in s'.txns ensures ViewOk(s', u) { assert ViewOk(s, u); }
  }

  // -------------------------------------------------------------------- writes

  /** What Put and Delete have in common before they write. */
  ghost predicate WriteReady(s: State, t: TxnId, k: Key, e: WriteEntry, op: Op, v: Option<Value>) {
    && Inv(s) && HasStatus(s, t, Active) && HoldsExclusive(s.locks, t, k)
    && op.key == k && !op.Got?
    && (forall m :: ApplyOp(m, op) == Write(m, k, v))
    && (if e.afterVal == [] then None else Some(e.afterVal)) == Norm(v)
    && ImageBefore(e) == (if k in s.txns[t].writes then ImageBefore(s.txns[t].writes[k]) else Lookup(s.tree, k))
  }

  lemma OnlyWriter(s: State, t: TxnId, k: Key, u: TxnId)
    requires Inv(s) && HasStatus(s, t, Active) && HoldsExclusive(s.locks, t, k)
    requires u != t
    ensures Unfinished(s, u) ==> k !in s.txns[u].writes
    ensures HasStatus(s, u, Active) ==> forall i :: 0 <= i < |s.txns[u].ops| ==> s.txns[u].ops[i].key != k
  {
    if Unfinished(s, u) && k in s.txns[u].writes {
      Conflict(s.locks, t, u, k);
    }
    if HasStatus(s, u, Active) {
      forall i | 0 <= i < |s.txns[u].ops| ensures s.txns[u].ops[i].key != k {
        if s.txns[u].ops[i].key == k {
          Conflict(s.locks, t, u, k);
        }
      }
    }
  }

  lemma WriteKeepsLocks(s: State, t: TxnId, k: Key, e: WriteEntry, op: Op, v: Option<Value>)
    requires WriteReady(s, t, k, e, op, v)
    ensures LocksOk(AfterWrite(s, t, k, e, op, v))
  {
    hide ViewsOk, LogOk, NewestOk, ReplayOk, DiskOk;
    var s' := AfterWrite(s, t, k, e, op, v);
    forall u, i | Running(s', u) && 0 <= i < |s'.txns[u].ops|
      ensures Holds(s'.locks, u, s'.txns[u].ops[i].key)
    {
      assert Running(s, u);
      if i < |s.txns[u].ops| { assert Holds(s.locks, u, s.txns[u].ops[i].key); }
    }
    forall u, j | Running(s', u) && j in s'.txns[u].writes ensures HoldsExclusive(s'.locks, u, j) {
      assert Running(s, u);
    }
  }

  lemma WriteKeepsOwnView(s: State, t: TxnId, k: Key, e: WriteEntry, op: Op, v: Option<Value>)
    requires HasStatus(s, t, Active) && ViewOk(s, t) && !op.Got?
    requires k !in s.txns[t].writes ==> Lookup(s.tree, k) == Lookup(CommittedStore(s), k)
    requires forall m :: ApplyOp(m, op) == Write(m, k, v)
    requires ImageBefore(e) == if k in s.txns[t].writes then ImageBefore(s.txns[t].writes[k]) else Lookup(s.tree, k)
    ensures ViewOk(AfterWrite(s, t, k, e, op, v), t)
  {
    hide Faithful, Serial, ApplyOps;
    var c := CommittedStore(s);
    FaithfulSnoc(c, s.txns[t].ops, op);
    ApplyOpsSnoc(c, s.txns[t].ops, op);
  }

  lemma WriteKeepsViews(s: State, t: TxnId, k: Key, e: WriteEntry, op: Op, v: Option<Value>)
    requires WriteReady(s, t, k, e, op, v)
    ensures ViewsOk(AfterWrite(s, t, k, e, op, v))
  {
    hide Losers, EndedBy, LastWrite, Faithful, Serial, ApplyOps, LogOk, NewestOk, ReplayOk, DiskOk;
    var s' := AfterWrite(s, t, k, e, op, v);
    forall u | u in s'.txns ensures ViewOk(s', u) {
      if u == t {
        assert ViewOk(s, t);
        if k !in s.txns[t].writes {
          forall w ensures !Dirty(s, w, k) { if w != t { OnlyWriter(s, t, k, w); } }
        }
        WriteKeepsOwnView(s, t, k, e, op, v);
      } else {
        assert ViewOk(s, u);
        OnlyWriter(s, t, k, u);
      }
    }
    assert Dirty(s', t, k);
    forall j | forall u :: !Dirty(s', u, j) ensures Lookup(s'.tree, j) == Lookup(CommittedStore(s), j) {
      forall u ensures !Dirty(s, u, j) { assert !Dirty(s', u, j); }
    }
  }

  lemma WriteKeepsLog(s: State, t: TxnId, k: Key, e: WriteEntry, op: Op, v: Option<Value>)
    requires LogOk(s) && HasStatus(s, t, Active)
    requires k in s.txns[t].writes ==> ImageBefore(e) == ImageBefore(s.txns[t].writes[k])
    ensures LogOk(AfterWrite(s, t, k, e, op, v))
  {
    hide Losers, EndedBy, LastWrite;
    var s' := AfterWrite(s, t, k, e, op, v);
    var r := WriteRecord(s.nextLsn, t, k, e);
    AppendFacts(s.log, r, {}, k);
    assert forall u :: Unfinished(s', u) <==> Unfinished(s, u);
    forall x | x in s'.log && x.kind == WRITE && Unfinished(s', x.txn)
      ensures x.key in s'.txns[x.txn].writes
      ensures Before(x) == ImageBefore(s'.txns[x.txn].writes[x.key]) && (x.beforeExists || x.beforeVal == [])
    {
      if x != r { assert x in s.log; }
    }
    forall x | x in s'.log && x.kind == WRITE ensures x.txn in s'.txns && x.key in s'.txns[x.txn].writes {
      if x != r { assert x in s.log; }
    }
  }

  lemma WriteKeepsNewest(s: State, t: TxnId, k: Key, e: WriteEntry, op: Op, v: Option<Value>)
    requires WriteReady(s, t, k, e, op, v)
    ensures NewestOk(AfterWrite(s, t, k, e, op, v))
    ensures ReplayOk(AfterWrite(s, t, k, e, op, v))
    ensures DiskOk(AfterWrite(s, t, k, e, op, v))
  {
    hide Losers, EndedBy, LastWrite, ViewsOk, LocksOk;
    var s' := AfterWrite(s, t, k, e, op, v);
    var r := WriteRecord(s.nextLsn, t, k, e);
    assert t in Discarded(s.log) by { assert Unfinished(s, t); }
    forall j ensures LastWrite(s'.log, {}, j) == if j == k then Some(r) else LastWrite(s.log, {}, j)
             ensures LastWrite(s'.log, Discarded(s'.log), j) == LastWrite(s.log, Discarded(s.log), j)
    {
      AppendFacts(s.log, r, {}, j);
      AppendFacts(s.log, r, Discarded(s.log), j);
      assert Discarded(s'.log) == Discarded(s.log);
    }
    forall u, j | Dirty(s', u, j)
      ensures var w := LastWrite(s'.log, {}, j);
              w.Some? && w.value.txn == u && After(w.value) == Norm(Lookup(s'.tree, j))
    {
      if j == k {
        if u != t { assert Unfinished(s, u); OnlyWriter(s, t, k, u); }
      } else {
        assert Dirty(s, u, j);
      }
    }
  }

  lemma WriteKeeps(s: State, t: TxnId, k: Key, e: WriteEntry, op: Op, v: Option<Value>)
    requires WriteReady(s, t, k, e, op, v)
    ensures Inv(AfterWrite(s, t, k, e, op, v))
  {
    hide LocksOk, ViewsOk, LogOk, NewestOk, ReplayOk, DiskOk;
    assert IdsOk(AfterWrite(s, t, k, e, op, v));
    WriteKeepsLocks(s, t, k, e, op, v);
    WriteKeepsViews(s, t, k, e, op, v);
    WriteKeepsLog(s, t, k, e, op, v);
    WriteKeepsNewest(s, t, k, e, op, v);
  }

  lemma PutKeeps(s: State, t: TxnId, k: Key, v: Value)
    requires Inv(s) && Enabled(s, Put(t, k, v))
    ensures Inv(Next(s, Put(t, k, v)))
  {
    hide Serial, LogOk, NewestOk, ReplayOk, DiskOk;
    WriteKeeps(s, t, k, PutEntry(s.tree, s.txns[t].writes, k, v), Stored(k, v), Some(v));
  }

  lemma DeleteKeeps(s: State, t: TxnId, k: Key)
    requires Inv(s) && Enabled(s, Delete(t, k))
    ensures Inv(Next(s, Delete(t, k)))
  {
    hide Serial, LogOk, NewestOk, ReplayOk, DiskOk;
    var x := s.txns[t];
    if k in s.tree {
      WriteKeeps(s, t, k, DeleteEntry(s.tree, x.writes, k), Deleted(k), None);
    } else {
      var c := CommittedStore(s);
      assert ViewOk(s, t);
      if k !in x.writes {
        forall u ensures !Dirty(s, u, k) { if u != t { OnlyWriter(s, t, k, u); } }
      }
      FaithfulSnoc(c, x.ops, Deleted(k));
      var m := ApplyOps(c, x.ops);
      assert Lookup(m, k) == None;
      assert m - {k} == m;
      ReadOnlyKeeps(s, t, Deleted(k));
    }
  }

  // ------------------------------------------------------------------- commits

  lemma {:induction false} UntouchedByOps(m: Store, ops: seq<Op>, k: Key)
    requires forall i :: 0 <= i < |ops| ==> ops[i].key != k
    ensures Lookup(ApplyOps(m, ops), k) == Lookup(m, k)
  {
    if ops != [] {
      UntouchedByOps(m, ops[..|ops| - 1], k);
    }
  }

  /** Committing changes the committed store at the committer's written keys only. */
  lemma CommitOverlay(s: State, t: TxnId, k: Key)
    requires Inv(s) && HasStatus(s, t, Active)
    ensures Lookup(CommittedStore(Next(s, LogCommit(t))), k) ==
            Lookup(if k in s.txns[t].writes then s.tree else CommittedStore(s), k)
  {
    SerialSnoc(s.base, s.history, Committed(t, s.txns[t].ops));
    assert ViewOk(s, t);
  }

  /** An operation list used by another active transaction avoids the committer's writes. */
  lemma AvoidsWrites(s: State, t: TxnId, u: TxnId, k: Key)
    requires Inv(s) && HasStatus(s, t, Active) && u != t && k in s.txns[t].writes
    ensures Unfinished(s, u) ==> k !in s.txns[u].writes
    ensures HasStatus(s, u, Active) ==> forall i :: 0 <= i < |s.txns[u].ops| ==> s.txns[u].ops[i].key != k
  {
    assert Unfinished(s, t);
    OnlyWriter(s, t, k, u);
  }

  lemma CommitKeepsView(s: State, t: TxnId, u: TxnId)
    requires Inv(s) && HasStatus(s, t, Active) && u in s.txns && u != t
    ensures ViewOk(Next(s, LogCommit(t)), u)
  {
    hide Faithful, Serial, ApplyOps, LocksOk, LogOk, NewestOk, ReplayOk, DiskOk;
    var s' := Next(s, LogCommit(t));
    var c, c' := CommittedStore(s), CommittedStore(s');
    var x := s.txns[u];
    assert ViewOk(s, u);
    forall k | Unfinished(s, u) && k in x.writes ensures Lookup(c', k) == Lookup(c, k) {
      if k in s.txns[t].writes { AvoidsWrites(s, t, u, k); }
      CommitOverlay(s, t, k);
    }
    if HasStatus(s, u, Active) {
      forall i | 0 <= i < |x.ops| ensures Lookup(c, x.ops[i].key) == Lookup(c', x.ops[i].key) {
        if x.ops[i].key in s.txns[t].writes { AvoidsWrites(s, t, u, x.ops[i].key); }
        CommitOverlay(s, t, x.ops[i].key);
      }
      FaithfulElsewhere(c, c', x.ops);
      forall k ensures k in x.writes ==> Lookup(ApplyOps(c', x.ops), k) == Lookup(s.tree, k)
               ensures k !in x.writes ==> Lookup(ApplyOps(c', x.ops), k) == Lookup(c', k)
      {
        CommitOverlay(s, t, k);
        if k in s.txns[t].writes {
          AvoidsWrites(s, t, u, k);
          UntouchedByOps(c', x.ops, k);
        } else {
          ReplayIsLocal(c, c', x.ops, k);
        }
      }
    }
  }

  lemma CommitKeepsViews(s: State, t: TxnId)
    requires Inv(s) && HasStatus(s, t, Active)
    ensures ViewsOk(Next(s, LogCommit(t)))
  {
    hide Faithful, Serial, ApplyOps, LocksOk, LogOk, NewestOk, ReplayOk, DiskOk;
    var s' := Next(s, LogCommit(t));
    forall u | u in s'.txns ensures ViewOk(s', u) {
      if u != t { CommitKeepsView(s, t, u); }
    }
    forall k | forall u :: !Dirty(s', u, k) ensures Lookup(s'.tree, k) == Lookup(CommittedStore(s'), k) {
      CommitOverlay(s, t, k);
      if k !in s.txns[t].writes {
        forall u ensures !Dirty(s, u, k) { assert !Dirty(s', u, k); }
      }
    }
    assert ViewOk(s, t);
    SerialFaithfulSnoc(s.base, s.history, Committed(t, s.txns[t].ops));
  }

  lemma CommitKeepsReplay(s: State, t: TxnId)
    requires Inv(s) && HasStatus(s, t, Active)
    ensures ReplayOk(Next(s, LogCommit(t)))
  {
    hide Losers, EndedBy, LastWrite, LocksOk, Serial;
    var s' := Next(s, LogCommit(t));
    var r := EndRecord(s.nextLsn, t, COMMIT);
    var d := Discarded(s'.log);
    AppendFacts(s.log, r, d, []);
    assert Unfinished(s, t);
    assert d == Discarded(s.log) - {t};
    forall k ensures match LastWrite(s'.log, d, k)
                     case None => Lookup(CommittedStore(s'), k) == Lookup(s'.base, k)
                     case Some(w) => After(w) == Norm(Lookup(CommittedStore(s'), k))
    {
      AppendFacts(s.log, r, d, k);
      CommitOverlay(s, t, k);
      if k in s.txns[t].writes {
        assert Dirty(s, t, k);
        NewestSurvives(s.log, d, k);
      } else {
        SkipIrrelevant(s.log, Discarded(s.log), d, k);
      }
    }
  }

  lemma CommitKeeps(s: State, t: TxnId)
    requires Inv(s) && Enabled(s, LogCommit(t))
    ensures Inv(Next(s, LogCommit(t)))
  {
    hide LocksOk, ViewsOk, LogOk, NewestOk, ReplayOk, DiskOk;
    var s' := Next(s, LogCommit(t));
    CommitKeepsViews(s, t);
    CommitKeepsReplay(s, t);
    EndRecordKeeps(s, t, COMMIT, s');
  }

  /** Parts of the invariant that any end record leaves alone. */
  lemma EndRecordKeeps(s: State, t: TxnId, kind: nat, s': State)
    requires Inv(s) && Unfinished(s, t) && (kind == COMMIT || kind == ABORT)
    requires s'.txns.Keys == s.txns.Keys && !Unfinished(s', t) && s'.txns[t].writes == s.txns[t].writes && s'.txns[t].ops == s.txns[t].ops
    requires forall u :: u in s.txns && u != t ==> s'.txns[u] == s.txns[u]
    requires s'.txns[t].status != Ended && s'.log == s.log + [EndRecord(s.nextLsn, t, kind)]
    requires s'.locks == s.locks && s'.nextTxn == s.nextTxn && s'.tree == s.tree
    requires s'.disk == s.disk && s'.base == s.base
    ensures IdsOk(s') && LocksOk(s') && LogOk(s') && NewestOk(s') && DiskOk(s')
  {
    hide Losers, EndedBy, LastWrite, ViewsOk, ReplayOk;
    var r := EndRecord(s.nextLsn, t, kind);
    forall u ensures u != t ==> (Unfinished(s', u) <==> Unfinished(s, u)) { }
    assert LocksOk(s') by {
      forall u, j | Running(s', u) && j in s'.txns[u].writes ensures HoldsExclusive(s'.locks, u, j) {
        assert Running(s, u);
      }
      forall u, i | Running(s', u) && 0 <= i < |s'.txns[u].ops|
        ensures Holds(s'.locks, u, s'.txns[u].ops[i].key)
      {
        assert Running(s, u);
      }
    }
    assert LogOk(s') by {
      AppendFacts(s.log, r, {}, []);
      assert forall x :: x in s'.log <==> x in s.log || x == r;
    }
    forall k ensures LastWrite(s'.log, {}, k) == LastWrite(s.log, {}, k) { AppendFacts(s.log, r, {}, k); }
    forall u, k | Dirty(s', u, k)
      ensures var w := LastWrite(s'.log, {}, k);
              w.Some? && w.value.txn == u && After(w.value) == Norm(Lookup(s'.tree, k))
    {
      assert Dirty(s, u, k);
    }
  }

  // ------------------------------------------------------------------- aborts

  lemma UndoKeeps(s: State, t: TxnId)
    requires Inv(s) && Enabled(s, Undo(t))
    ensures Inv(Next(s, Undo(t)))
  {
    hide Losers, EndedBy, LastWrite, ViewsOk;
    var s' := Next(s, Undo(t));
    forall u ensures Unfinished(s', u) <==> Unfinished(s, u) { }
    assert LocksOk(s') by {
      forall u, i | Running(s', u) && 0 <= i < |s'.txns[u].ops|
        ensures Holds(s'.locks, u, s'.txns[u].ops[i].key)
      {
        assert Running(s, u);
      }
    }
    UndoKeepsViews(s, t);
    assert LogOk(s');
    forall u, k | Dirty(s', u, k)
      ensures var w := LastWrite(s'.log, {}, k);
              w.Some? && w.value.txn == u && After(w.value) == Norm(Lookup(s'.tree, k))
    {
      assert Dirty(s, u, k);
      if k in s.txns[t].writes { AvoidsWrites(s, t, u, k); }
    }
  }

  /** Rolling back puts exactly the transaction's own keys back to their committed values. */
  lemma UndoRestores(s: State, t: TxnId, k: Key)
    requires Inv(s) && HasStatus(s, t, Active)
    ensures Lookup(Next(s, Undo(t)).tree, k) ==
            Lookup(if k in s.txns[t].writes then CommittedStore(s) else s.tree, k)
  {
    assert ViewOk(s, t);
  }

  lemma UndoKeepsViews(s: State, t: TxnId)
    requires Inv(s) && HasStatus(s, t, Active)
    ensures ViewsOk(Next(s, Undo(t)))
  {
    hide Faithful, Serial, ApplyOps, LocksOk, LogOk, NewestOk, ReplayOk, DiskOk;
    var s' := Next(s, Undo(t));
    forall u | u in s'.txns ensures ViewOk(s', u) {
      assert ViewOk(s, u);
      if u != t && HasStatus(s, u, Active) {
        forall k | k in s.txns[u].writes ensures Lookup(s'.tree, k) == Lookup(s.tree, k) {
          UndoRestores(s, t, k);
          if k in s.txns[t].writes { assert Unfinished(s, u); AvoidsWrites(s, t, u, k); }
        }
      }
    }
    forall k | forall u :: !Dirty(s', u, k) ensures Lookup(s'.tree, k) == Lookup(CommittedStore(s'), k) {
      UndoRestores(s, t, k);
      if k !in s.txns[t].writes {
        forall u ensures !Dirty(s, u, k) { assert !Dirty(s', u, k); }
      }
    }
  }

  lemma AbortKeepsViews(s: State, t: TxnId)
    requires ViewsOk(s) && HasStatus(s, t, Undone)
    ensures ViewsOk(Next(s, LogAbort(t)))
  {
    var s' := Next(s, LogAbort(t));
    assert forall u, j :: Dirty(s', u, j) <==> Dirty(s, u, j);
    forall u | u in s'.txns ensures ViewOk(s', u) { assert ViewOk(s, u); }
  }

  lemma AbortKeepsReplay(s: State, t: TxnId)
    requires ReplayOk(s) && LogOk(s) && HasStatus(s, t, Undone)
    ensures ReplayOk(Next(s, LogAbort(t)))
  {
    hide Losers, EndedBy, LastWrite, Serial;
    var s' := Next(s, LogAbort(t));
    var r := EndRecord(s.nextLsn, t, ABORT);
    assert Unfinished(s, t);
    forall k ensures LastWrite(s'.log, Discarded(s'.log), k) == LastWrite(s.log, Discarded(s.log), k) {
      AppendFacts(s.log, r, Discarded(s.log), k);
      assert Discarded(s'.log) == Discarded(s.log);
    }
  }

  lemma AbortKeeps(s: State, t: TxnId)
    requires Inv(s) && Enabled(s, LogAbort(t))
    ensures Inv(Next(s, LogAbort(t)))
  {
    hide LocksOk, ViewsOk, LogOk, NewestOk, ReplayOk, DiskOk;
    AbortKeepsViews(s, t);
    AbortKeepsReplay(s, t);
    EndRecordKeeps(s, t, ABORT, Next(s, LogAbort(t)));
  }

  // --------------------------------------------------------- release and flush

  lemma ReleaseKeeps(s: State, t: TxnId)
    requires Inv(s) && Enabled(s, Release(t))
    ensures Inv(Next(s, Release(t)))
  {
    hide ViewsOk, LogOk, NewestOk, ReplayOk;
    var s' := Next(s, Release(t));
    ReleasedIsSafe(s.locks, t);
    assert LocksOk(s') by {
      forall u, i | Running(s', u) && 0 <= i < |s'.txns[u].ops|
        ensures Holds(s'.locks, u, s'.txns[u].ops[i].key)
      {
        assert Running(s, u);
        assert Holds(s.locks, u, s.txns[u].ops[i].key);
      }
      forall u, j | Running(s', u) && j in s'.txns[u].writes ensures HoldsExclusive(s'.locks, u, j) {
        assert Running(s, u);
      }
    }
    SameViews(s, s');
    SameLedger(s, s');
  }

  /** A key no record mentions still has its base value in the tree. */
  lemma UnloggedIsBase(s: State, k: Key)
    requires Inv(s) && LastWrite(s.log, {}, k).None?
    ensures Lookup(s.tree, k) == Lookup(s.base, k) == Lookup(CommittedStore(s), k)
  {
    forall u ensures !Dirty(s, u, k) { }
    LastWriteFound(s.log, {}, k);
    LastWriteFound(s.log, Discarded(s.log), k);
  }

  /** Moving any pages to disk. */
  lemma DiskWriteKeeps(s: State, s': State)
    requires Inv(s) && SameWriters(s, s') && s' == s.(disk := s'.disk, txns := s'.txns)
    requires forall t :: t in s.txns ==> s'.txns[t].ops == s.txns[t].ops && (s'.txns[t].status == Ended <==> s.txns[t].status == Ended)
    requires forall k :: Lookup(s'.disk, k) == Lookup(s.disk, k) || Lookup(s'.disk, k) == Lookup(s.tree, k)
    ensures Inv(s')
  {
    assert LocksOk(s') by {
      forall u, i | Running(s', u) && 0 <= i < |s'.txns[u].ops|
        ensures Holds(s'.locks, u, s'.txns[u].ops[i].key)
      {
        assert Running(s, u);
        assert Holds(s.locks, u, s.txns[u].ops[i].key);
      }
      forall u, j | Running(s', u) && j in s'.txns[u].writes ensures HoldsExclusive(s'.locks, u, j) {
        assert Running(s, u);
      }
    }
    SameViews(s, s');
    SameLedger(s, s');
    forall k | LastWrite(s'.log, {}, k).None? ensures Lookup(s'.disk, k) == Lookup(s'.base, k) {
      UnloggedIsBase(s, k);
    }
  }

  // ------------------------------------------------------------ every step, run

  lemma StepKeeps(s: State, step: Step)
    requires Inv(s) && Enabled(s, step)
    ensures Inv(Next(s, step))
  {
    hide LocksOk, ViewsOk, LogOk, NewestOk, ReplayOk, DiskOk;
    match step
    case Begin => BeginKeeps(s);
    case Lock(t, k, mode) => LockKeeps(s, t, k, mode);
    case LockTimeout(t, k, mode) => TimeoutKeeps(s, t, k, mode);
    case Get(t, k) => GetKeeps(s, t, k);
    case Put(t, k, v) => PutKeeps(s, t, k, v);
    case Delete(t, k) => DeleteKeeps(s, t, k);
    case LogCommit(t) => CommitKeeps(s, t);
    case FlushPages(t) => DiskWriteKeeps(s, Next(s, step));
    case Undo(t) => UndoKeeps(s, t);
    case LogAbort(t) => AbortKeeps(s, t);
    case Release(t) => ReleaseKeeps(s, t);
    case WriteBack(ks) => DiskWriteKeeps(s, Next(s, step));
    case Checkpoint => OpenedInv(s.tree);
    case CrashAndRecover => OpenedInv(Recovered(s.disk, DecodedLog(s.log)));
  }

  lemma {:induction false} RunKeeps(s: State, steps: seq<Step>)
    requires Inv(s) && ValidRun(s, steps)
    ensures Inv(Run(s, steps))
    decreases |steps|
  {
    if steps != [] {
      StepKeeps(s, steps[0]);
      RunKeeps(Next(s, steps[0]), steps[1..]);
    }
  }
}
