/** What every step of the engine keeps. */
module EngineInvariant {
  import opened Base
  import opened Locks
  import opened Log
  import opened Recovery
  import opened Engine

  /** Transactions a crash would roll back: no end record yet. */
  predicate Unfinished(s: State, t: TxnId) {
    HasStatus(s, t, Active) || HasStatus(s, t, Undone)
  }

  /** Not yet past its last section, the release of its locks. */
  predicate Running(s: State, t: TxnId) {
    t in s.txns && s.txns[t].status != Ended
  }

  predicate Dirty(s: State, t: TxnId, k: Key) {
    HasStatus(s, t, Active) && k in s.txns[t].writes
  }

  ghost predicate IdsOk(s: State) {
    && 1 <= s.nextTxn
    && (forall t :: t in s.txns ==> 1 <= t < s.nextTxn)
    && Safe(s.locks)
    && (forall t :: t in s.locks.held ==> t in s.txns && s.txns[t].status != Ended)
  }

  /** Once every transaction has ended, no lock is left. */
  lemma NoLocksLeft(s: State)
    requires IdsOk(s) && forall t :: t in s.txns ==> s.txns[t].status == Ended
    ensures s.locks == NO_LOCKS
  {
    if s.locks.held.Keys != {} {
      var t := SomeMember(s.locks.held.Keys);
    }
    if s.locks.table.Keys != {} {
      var k := SomeMember(s.locks.table.Keys);
      var t := SomeHolder(s.locks, k);
    }
  }

  lemma SomeHolder(l: LockTable, k: Key) returns (t: TxnId)
    requires Safe(l) && k in l.table
    ensures t in l.held
  {
    var ls := l.table[k];
    assert EntrySafe(ls);
    t := ls.exclusive;
    if t == INVALID_TXN { t := SomeMember(ls.shared); }
    assert Holds(l, t, k);
  }

  /** Strict two-phase locking: up to its end a writer holds X, and every transaction what it used. */
  ghost predicate LocksOk(s: State) {
    && (forall t, k :: Running(s, t) && k in s.txns[t].writes ==> HoldsExclusive(s.locks, t, k))
    && (forall t, i :: Running(s, t) && 0 <= i < |s.txns[t].ops| ==>
                         Holds(s.locks, t, s.txns[t].ops[i].key))
  }

  /** One transaction's private view is the committed store overlaid with its own operations. */
  ghost predicate ViewOk(s: State, t: TxnId)
    requires t in s.txns
  {
    var c := CommittedStore(s);
    var x := s.txns[t];
    && (Unfinished(s, t) ==> forall k :: k in x.writes ==> ImageBefore(x.writes[k]) == Lookup(c, k))
    && (HasStatus(s, t, Active) ==>
          && Faithful(c, x.ops)
          && (forall k :: k in x.writes ==> Lookup(s.tree, k) == Lookup(ApplyOps(c, x.ops), k))
          && (forall k :: k !in x.writes ==> Lookup(c, k) == Lookup(ApplyOps(c, x.ops), k)))
  }

  ghost predicate ViewsOk(s: State) {
    && (forall t :: t in s.txns ==> ViewOk(s, t))
    && (forall k :: (forall t :: !Dirty(s, t, k)) ==> Lookup(s.tree, k) == Lookup(CommittedStore(s), k))
    && SerialFaithful(s.base, s.history)
  }

  function Discarded(log: seq<Record>): set<TxnId> {
    EndedBy(log, ABORT) + Losers(log)
  }

  /** The log against the transactions it describes. */
  ghost predicate LogOk(s: State) {
    && (forall t :: t in Losers(s.log) <==> Unfinished(s, t))
    && (forall t :: t in EndedBy(s.log, ABORT) ==> t in s.txns && !Unfinished(s, t))
    && (forall r :: r in s.log ==> r.txn in s.txns)
    && (forall r :: r in s.log && r.kind == WRITE ==> r.key in s.txns[r.txn].writes)
    && (forall r :: r in s.log && r.kind == WRITE && Unfinished(s, r.txn) ==>
                      Before(r) == ImageBefore(s.txns[r.txn].writes[r.key])
                      && (r.beforeExists || r.beforeVal == []))
  }

  /** The newest record of a dirty key is its writer's and carries the value in the tree. */
  ghost predicate NewestOk(s: State) {
    forall t, k :: Dirty(s, t, k) ==>
                     var w := LastWrite(s.log, {}, k);
                     w.Some? && w.value.txn == t && After(w.value) == Norm(Lookup(s.tree, k))
  }

  /** Replaying only committed writes from the base gives the committed store. */
  ghost predicate ReplayOk(s: State) {
    forall k :: match LastWrite(s.log, Discarded(s.log), k)
                case None => Lookup(CommittedStore(s), k) == Lookup(s.base, k)
                case Some(r) => After(r) == Norm(Lookup(CommittedStore(s), k))
  }

  /** The disk can differ from the base only at logged keys. */
  ghost predicate DiskOk(s: State) {
    forall k :: LastWrite(s.log, {}, k).None? ==> Lookup(s.disk, k) == Lookup(s.base, k)
  }

  ghost predicate Inv(s: State) {
    IdsOk(s) && LocksOk(s) && ViewsOk(s) && LogOk(s) && NewestOk(s) && ReplayOk(s) && DiskOk(s)
  }

  // ------------------------------------------------------------- replay facts

  lemma ApplyOpsSnoc(m: Store, ops: seq<Op>, op: Op)
    ensures ApplyOps(m, ops + [op]) == ApplyOp(ApplyOps(m, ops), op)
  {
    assert (ops + [op])[..|ops|] == ops;
  }

  lemma SerialSnoc(base: Store, h: seq<Committed>, x: Committed)
    ensures Serial(base, h + [x]) == ApplyOps(Serial(base, h), x.ops)
  {
    assert (h + [x])[..|h|] == h;
  }

  /** Replaying looks at a key only through that key. */
  lemma {:induction false} ReplayIsLocal(m: Store, m': Store, ops: seq<Op>, k: Key)
    requires Lookup(m, k) == Lookup(m', k)
    ensures Lookup(ApplyOps(m, ops), k) == Lookup(ApplyOps(m', ops), k)
  {
    if ops != [] {
      ReplayIsLocal(m, m', ops[..|ops| - 1], k);
    }
  }

  lemma FaithfulElsewhere(m: Store, m': Store, ops: seq<Op>)
    requires Faithful(m, ops)
    requires forall i :: 0 <= i < |ops| ==> Lookup(m, ops[i].key) == Lookup(m', ops[i].key)
    ensures Faithful(m', ops)
  {
    forall i | 0 <= i < |ops| && ops[i].Got?
      ensures ops[i].answer == Lookup(ApplyOps(m', ops[..i]), ops[i].key)
    {
      ReplayIsLocal(m, m', ops[..i], ops[i].key);
    }
  }

  lemma FaithfulSnoc(m: Store, ops: seq<Op>, op: Op)
    requires Faithful(m, ops)
    requires op.Got? ==> op.answer == Lookup(ApplyOps(m, ops), op.key)
    ensures Faithful(m, ops + [op])
  {
    var ops' := ops + [op];
    forall i | 0 <= i < |ops'| && ops'[i].Got?
      ensures ops'[i].answer == Lookup(ApplyOps(m, ops'[..i]), ops'[i].key)
    {
      assert ops'[..i] == ops[..i];
      if i == |ops| { assert ops[..i] == ops; }
    }
  }

  lemma SerialFaithfulSnoc(base: Store, h: seq<Committed>, x: Committed)
    requires SerialFaithful(base, h) && Faithful(Serial(base, h), x.ops)
    ensures SerialFaithful(base, h + [x])
  {
    var h' := h + [x];
    forall i | 0 <= i < |h'| ensures Faithful(Serial(base, h'[..i]), h'[i].ops) {
      assert h'[..i] == h[..i];
      if i == |h| { assert h[..i] == h; }
    }
  }

  // ---------------------------------------------------------------- log facts

  /** Skipping more transactions changes nothing if none of them wrote the key. */
  lemma {:induction false} SkipIrrelevant(log: seq<Record>, a: set<TxnId>, b: set<TxnId>, k: Key)
    requires forall r :: r in log && WritesKey(r, k) ==> (r.txn in a <==> r.txn in b)
    ensures LastWrite(log, a, k) == LastWrite(log, b, k)
  {
    if log != [] {
      var n := |log| - 1;
      assert log[n] in log;
      assert forall x :: x in log[..n] ==> x in log;
      SkipIrrelevant(log[..n], a, b, k);
    }
  }

  lemma {:induction false} NewestSurvives(log: seq<Record>, skip: set<TxnId>, k: Key)
    requires LastWrite(log, {}, k).Some? && LastWrite(log, {}, k).value.txn !in skip
    ensures LastWrite(log, skip, k) == LastWrite(log, {}, k)
  {
    if log != [] {
      var n := |log| - 1;
      if !WritesKey(log[n], k) {
        NewestSurvives(log[..n], skip, k);
      }
    }
  }
}
