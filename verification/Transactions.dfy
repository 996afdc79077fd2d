/** The database and transaction objects. Every method is shown to be a run of the step
    machine: it is handed the machine state the objects mirror and returns the one they
    mirror afterwards. */
module Transactions {
  import opened Base
  import opened Locks
  import opened Log
  import opened Recovery
  import opened Engine
  import opened EngineInvariant
  import opened EngineSteps

  datatype TxnError = AlreadyEnded | Deadlock

  class Database {
    var tree: Store
    var disk: Store
    var log: seq<Record>
    var nextLsn: int
    var nextTxn: TxnId
    const locks: LockManager

    ghost predicate Mirrors(s: State)
      reads this, locks
    {
      && s.tree == tree && s.disk == disk && s.log == log
      && s.nextLsn == nextLsn && s.nextTxn == nextTxn && s.locks == locks.View()
    }

    /** Open: recover from what the data file and the log hold, write everything back,
        truncate the log and restart both counters. */
    constructor (onDisk: Store, wal: seq<Record>)
      ensures Mirrors(Opened(Recovered(onDisk, DecodedLog(wal))))
      ensures tree == disk == Recovered(onDisk, DecodedLog(wal)) && log == [] && nextLsn == nextTxn == 1
      ensures fresh(locks) && locks.View() == NO_LOCKS
    {
      var rm := new RecoveryManager(onDisk);
      var rolledBack := rm.Recover(DecodedLog(wal));
      tree, disk, log := rm.tree, rm.tree, [];
      nextLsn, nextTxn := 1, 1;
      locks := new LockManager();
    }

    /** Close: everything to disk, then an empty log. */
    method Close(ghost s: State) returns (ghost s': State)
      requires Mirrors(s) && Inv(s) && Enabled(s, Checkpoint)
      modifies this
      ensures s' == Next(s, Checkpoint) && Mirrors(s')
      ensures disk == tree == old(tree) && log == [] && nextLsn == nextTxn == 1
    {
      NoLocksLeft(s);
      disk := tree;
      log, nextLsn, nextTxn := [], 1, 1;
      s' := Next(s, Checkpoint);
    }

    method AppendRecord(r: Record)
      requires r.lsn == nextLsn
      modifies this`log, this`nextLsn
      ensures log == old(log) + [r] && nextLsn == old(nextLsn) + 1
    {
      nextLsn := nextLsn + 1;
      log := log + [r];
    }

    method Begin(ghost s: State) returns (txn: Transaction, ghost s': State)
      requires Mirrors(s) && Inv(s)
      modifies this
      ensures s' == Next(s, Step.Begin) && Inv(s') && fresh(txn) && txn.db == this && txn.Mirrors(s') && !txn.done
      ensures txn.id == old(nextTxn) && txn.writeSet == map[] && nextTxn == old(nextTxn) + 1
      ensures log == old(log) + [Record(old(nextLsn), txn.id, BEGIN, [], false, [], [])]
      ensures tree == old(tree) && disk == old(disk)
    {
      hide Inv;
      var id := nextTxn;
      nextTxn := nextTxn + 1;
      AppendRecord(EndRecord(nextLsn, id, BEGIN));
      StepKeeps(s, Step.Begin);
      s' := Next(s, Step.Begin);
      txn := new Transaction(this, id);
    }
  }

  class Transaction {
    const db: Database
    const id: TxnId
    var done: bool
    var writeSet: WriteSet

    constructor (db: Database, id: TxnId)
      ensures this.db == db && this.id == id && !done && writeSet == map[]
    {
      this.db, this.id, done, writeSet := db, id, false, map[];
    }

    ghost predicate Mirrors(s: State)
      reads this, db, db.locks
    {
      && db.Mirrors(s)
      && id in s.txns && s.txns[id].writes == writeSet
      && (done <==> s.txns[id].status != Active)
    }

    /** Ask for a lock; when it cannot be granted the request ends in a timeout. */
    method Acquire(k: Key, mode: Mode, ghost s: State) returns (granted: bool, ghost s': State)
      requires Mirrors(s) && Inv(s) && !done
      modifies db.locks
      ensures granted == Enabled(s, Lock(id, k, mode))
      ensures granted <==> !Blocked(s.locks, id, k, mode)
      ensures s' == if granted then Next(s, Lock(id, k, mode)) else s
      ensures Mirrors(s') && Inv(s')
      ensures granted ==> Holds(s'.locks, id, k) && (mode.Exclusive? ==> HoldsExclusive(s'.locks, id, k))
    {
      hide Inv;
      IdIsValid(s, id);
      granted := db.locks.Attempt(id, k, mode);
      if granted {
        s' := Next(s, Lock(id, k, mode));
        LockKeeps(s, id, k, mode);
      } else {
        s' := s;
        TimeoutKeeps(s, id, k, mode);
        assert db.locks.View() == Pruned(db.locks.View(), k);
        db.locks.Timeout(k);
      }
    }

    method Get(k: Key, ghost s: State) returns (r: Result<Option<Value>, TxnError>, ghost s': State)
      requires Mirrors(s) && Inv(s)
      modifies db.locks
      ensures Mirrors(s') && Inv(s')
      ensures if done then r == Failure(AlreadyEnded) && s' == s
              else if !Enabled(s, Lock(id, k, Shared)) then r == Failure(Deadlock) && s' == s
              else r == Success(Lookup(s.tree, k)) && s' == AfterGet(Next(s, Lock(id, k, Shared)), id, k)
      ensures !done ==> (r == Failure(Deadlock) <==> Blocked(s.locks, id, k, Shared))
    {
      hide Inv;
      if done {
        return Failure(AlreadyEnded), s;
      }
      var granted;
      granted, s' := Acquire(k, Shared, s);
      if !granted {
        return Failure(Deadlock), s';
      }
      r := Success(Lookup(db.tree, k));
      GetKeeps(s', id, k);
      s' := Next(s', Step.Get(id, k));
    }

    method PutLocked(k: Key, v: Value)
      modifies this`writeSet, db`tree, db`log, db`nextLsn
      ensures writeSet == old(writeSet)[k := PutEntry(old(db.tree), old(writeSet), k, v)]
      ensures db.log == old(db.log) + [WriteRecord(old(db.nextLsn), id, k, PutEntry(old(db.tree), old(writeSet), k, v))]
      ensures db.nextLsn == old(db.nextLsn) + 1 && db.tree == old(db.tree)[k := v]
    {
      var e: WriteEntry;
      if k !in writeSet {
        var existing := Lookup(db.tree, k);
        e := WriteEntry(existing.Some?, if existing.Some? then existing.value else [], v);
      } else {
        e := writeSet[k].(afterVal := v);
      }
      writeSet := writeSet[k := e];
      db.AppendRecord(WriteRecord(db.nextLsn, id, k, e));
      db.tree := db.tree[k := v];
    }

    method Put(k: Key, v: Value, ghost s: State) returns (r: Result<(), TxnError>, ghost s': State)
      requires Mirrors(s) && Inv(s)
      modifies this`writeSet, db, db.locks
      ensures Mirrors(s') && Inv(s')
      ensures if done then r == Failure(AlreadyEnded) && s' == s
              else if !Enabled(s, Lock(id, k, Exclusive)) then r == Failure(Deadlock) && s' == s
              else r == Success(()) && s' == AfterPut(Next(s, Lock(id, k, Exclusive)), id, k, v)
      ensures !done ==> (r == Failure(Deadlock) <==> Blocked(s.locks, id, k, Exclusive))
      ensures db.disk == old(db.disk) && db.tree == if r.Success? then old(db.tree)[k := v] else old(db.tree)
    {
      hide Inv;
      if done {
        return Failure(AlreadyEnded), s;
      }
      var granted;
      granted, s' := Acquire(k, Exclusive, s);
      if !granted {
        return Failure(Deadlock), s';
      }
      PutLocked(k, v);
      PutKeeps(s', id, k, v);
      s' := Next(s', Step.Put(id, k, v));
      r := Success(());
    }

    method DeleteLocked(k: Key)
      modifies this`writeSet, db`tree, db`log, db`nextLsn
      ensures k !in old(db.tree) ==> writeSet == old(writeSet) && db.log == old(db.log)
                                     && db.nextLsn == old(db.nextLsn) && db.tree == old(db.tree)
      ensures k in old(db.tree) ==>
                && writeSet == old(writeSet)[k := DeleteEntry(old(db.tree), old(writeSet), k)]
                && db.log == old(db.log) + [WriteRecord(old(db.nextLsn), id, k, DeleteEntry(old(db.tree), old(writeSet), k))]
                && db.nextLsn == old(db.nextLsn) + 1 && db.tree == old(db.tree) - {k}
    {
      if k !in db.tree {
        return;
      }
      var e := if k !in writeSet then WriteEntry(true, db.tree[k], []) else writeSet[k].(afterVal := []);
      writeSet := writeSet[k := e];
      db.AppendRecord(WriteRecord(db.nextLsn, id, k, e));
      db.tree := db.tree - {k};
    }

    method Delete(k: Key, ghost s: State) returns (r: Result<(), TxnError>, ghost s': State)
      requires Mirrors(s) && Inv(s)
      modifies this`writeSet, db, db.locks
      ensures Mirrors(s') && Inv(s')
      ensures if done then r == Failure(AlreadyEnded) && s' == s
              else if !Enabled(s, Lock(id, k, Exclusive)) then r == Failure(Deadlock) && s' == s
              else r == Success(()) && s' == AfterDelete(Next(s, Lock(id, k, Exclusive)), id, k)
      ensures !done ==> (r == Failure(Deadlock) <==> Blocked(s.locks, id, k, Exclusive))
      ensures db.disk == old(db.disk) && db.tree == if r.Success? then old(db.tree) - {k} else old(db.tree)
    {
      hide Inv;
      if done {
        return Failure(AlreadyEnded), s;
      }
      var granted;
      granted, s' := Acquire(k, Exclusive, s);
      if !granted {
        return Failure(Deadlock), s';
      }
      DeleteLocked(k);
      DeleteKeeps(s', id, k);
      s' := Next(s', Step.Delete(id, k));
      r := Success(());
    }

    /** Commit: log the end record, flush, release. */
    method Commit(ghost s: State) returns (r: Result<(), TxnError>, ghost s': State)
      requires Mirrors(s) && Inv(s)
      modifies this`done, db, db.locks
      ensures Mirrors(s') && Inv(s')
      ensures if old(done) then r == Failure(AlreadyEnded) && s' == s
              else r == Success(()) && done && Leads(s, LogCommit(id), FlushPages(id), Release(id), s')
      ensures r.Success? ==>
        && db.disk == db.tree == old(db.tree)
        && db.log == old(db.log) + [Record(old(db.nextLsn), id, COMMIT, [], false, [], [])]
        && forall k :: !Holds(db.locks.View(), id, k)
    {
      hide Inv, Released;
      if done {
        return Failure(AlreadyEnded), s;
      }
      ghost var s1 := EndByCommit(s);
      db.disk := db.tree;
      StepKeeps(s1, FlushPages(id));
      ghost var s2 := Next(s1, FlushPages(id));
      s' := EndLocks(s2);
      r := Success(());
    }

    method EndByCommit(ghost s: State) returns (ghost s': State)
      requires Mirrors(s) && Inv(s) && !done
      modifies this`done, db`log, db`nextLsn
      ensures done && Enabled(s, LogCommit(id)) && s' == Next(s, LogCommit(id)) && Mirrors(s') && Inv(s')
      ensures db.log == old(db.log) + [EndRecord(old(db.nextLsn), id, COMMIT)]
    {
      hide Inv;
      done := true;
      db.AppendRecord(EndRecord(db.nextLsn, id, COMMIT));
      StepKeeps(s, LogCommit(id));
      s' := Next(s, LogCommit(id));
    }

    /** The last section of either ending: give every lock back. */
    method EndLocks(ghost s: State) returns (ghost s': State)
      requires Mirrors(s) && Inv(s) && Enabled(s, Release(id))
      modifies db.locks
      ensures s' == Next(s, Release(id)) && Mirrors(s') && Inv(s')
      ensures forall k :: !Holds(db.locks.View(), id, k)
    {
      hide Inv;
      IdIsValid(s, id);
      db.locks.ReleaseAll(id);
      StepKeeps(s, Release(id));
      s' := Next(s, Release(id));
    }

    /** Restore every before-image, in whatever order the write set is walked. */
    method UndoAll()
      modifies db`tree
      ensures db.tree == RolledBack(old(db.tree), writeSet)
      ensures forall k :: Lookup(db.tree, k) == if k in writeSet then ImageBefore(writeSet[k]) else Lookup(old(db.tree), k)
    {
      var todo := writeSet.Keys;
      while exists k :: k in todo
        invariant todo <= writeSet.Keys
        invariant forall k :: k in todo || k !in writeSet ==> Lookup(db.tree, k) == Lookup(old(db.tree), k)
        invariant forall k :: k in writeSet && k !in todo ==> Lookup(db.tree, k) == ImageBefore(writeSet[k])
        decreases |todo|
      {
        var k :| k in todo;
        if !writeSet[k].beforeExists {
          db.tree := db.tree - {k};
        } else {
          db.tree := db.tree[k := writeSet[k].beforeVal];
        }
        todo := todo - {k};
      }
      RolledBackIs(old(db.tree), writeSet, db.tree);
    }

    method Rollback(ghost s: State) returns (r: Result<(), TxnError>, ghost s': State)
      requires Mirrors(s) && Inv(s)
      modifies this`done, db, db.locks
      ensures Mirrors(s') && Inv(s')
      ensures if old(done) then r == Failure(AlreadyEnded) && s' == s
              else r == Success(()) && done && Leads(s, Step.Undo(id), LogAbort(id), Release(id), s')
      ensures r.Success? ==>
        && db.disk == old(db.disk)
        && (forall k :: k !in writeSet ==> Lookup(db.tree, k) == Lookup(old(db.tree), k))
        && (forall k :: k in writeSet ==> Lookup(db.tree, k) == ImageBefore(writeSet[k]))
        && db.log == old(db.log) + [Record(old(db.nextLsn), id, ABORT, [], false, [], [])]
        && forall k :: !Holds(db.locks.View(), id, k)
    {
      hide Inv, RolledBack, Released;
      if done {
        return Failure(AlreadyEnded), s;
      }
      ghost var s1 := EndByUndo(s);
      ghost var s2 := RecordAbort(s1);
      s' := EndLocks(s2);
      r := Success(());
    }

    method RecordAbort(ghost s: State) returns (ghost s': State)
      requires Mirrors(s) && Inv(s) && HasStatus(s, id, Undone)
      modifies db`log, db`nextLsn
      ensures s' == Next(s, LogAbort(id)) && Mirrors(s') && Inv(s') && Enabled(s', Release(id))
      ensures db.log == old(db.log) + [EndRecord(old(db.nextLsn), id, ABORT)]
    {
      hide Inv;
      db.AppendRecord(EndRecord(db.nextLsn, id, ABORT));
      StepKeeps(s, LogAbort(id));
      s' := Next(s, LogAbort(id));
    }

    method EndByUndo(ghost s: State) returns (ghost s': State)
      requires Mirrors(s) && Inv(s) && !done
      modifies this`done, db`tree
      ensures done && Enabled(s, Step.Undo(id)) && s' == Next(s, Step.Undo(id)) && Mirrors(s') && Inv(s')
      ensures forall k :: Lookup(db.tree, k) == if k in writeSet then ImageBefore(writeSet[k]) else Lookup(old(db.tree), k)
    {
      hide Inv, RolledBack;
      done := true;
      UndoAll();
      StepKeeps(s, Step.Undo(id));
      s' := Next(s, Step.Undo(id));
    }
  }

  lemma RolledBackIs(tree: Store, writes: WriteSet, m: Store)
    requires forall k :: k !in writes ==> Lookup(m, k) == Lookup(tree, k)
    requires forall k :: k in writes ==> Lookup(m, k) == ImageBefore(writes[k])
    ensures m == RolledBack(tree, writes)
  {
    SameAnswers(m, RolledBack(tree, writes));
  }

  lemma IdIsValid(s: State, t: TxnId)
    requires Inv(s) && t in s.txns
    ensures t != INVALID_TXN && Safe(s.locks)
  {
  }

  /** `s'` is reached from `s` by three enabled steps. */
  ghost predicate Leads(s: State, a: Step, b: Step, c: Step, s': State) {
    && Enabled(s, a) && Enabled(Next(s, a), b) && Enabled(Next(Next(s, a), b), c)
    && s' == Next(Next(Next(s, a), b), c)
  }
}
