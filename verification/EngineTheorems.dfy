/** What holds in every run of the engine. */
module EngineTheorems {
  import opened Base
  import opened Locks
  import opened Log
  import opened Recovery
  import opened Engine
  import opened EngineInvariant
  import opened EngineSteps

  // ----------------------------------------------------------- serializability

  /** Commits in the order their records were logged. */
  function CommitOrder(steps: seq<Step>): seq<TxnId> {
    if steps == [] then []
    else (if steps[0].LogCommit? then [steps[0].t] else []) + CommitOrder(steps[1..])
  }

  predicate NeverReopens(steps: seq<Step>) {
    forall i :: 0 <= i < |steps| ==> !steps[i].Checkpoint? && !steps[i].CrashAndRecover?
  }

  function Ids(history: seq<Committed>): (ids: seq<TxnId>)
    ensures |ids| == |history| && forall i :: 0 <= i < |ids| ==> ids[i] == history[i].id
  {
    seq(|history|, i requires 0 <= i < |history| => history[i].id)
  }

  lemma HistoryStep(s: State, step: Step)
    requires Enabled(s, step) && !step.Checkpoint? && !step.CrashAndRecover?
    ensures Next(s, step).base == s.base
    ensures Ids(Next(s, step).history) == Ids(s.history) + if step.LogCommit? then [step.t] else []
  {
  }

  lemma {:induction false} HistoryIsCommitOrder(s: State, steps: seq<Step>)
    requires ValidRun(s, steps) && NeverReopens(steps)
    ensures Run(s, steps).base == s.base
    ensures Ids(Run(s, steps).history) == Ids(s.history) + CommitOrder(steps)
    decreases |steps|
  {
    hide Next, Enabled;
    if steps == [] {
      assert Ids(s.history) + [] == Ids(s.history);
    } else {
      assert !steps[0].Checkpoint? && !steps[0].CrashAndRecover?;
      var s' := Next(s, steps[0]);
      HistoryIsCommitOrder(s', steps[1..]);
      HistoryStep(s, steps[0]);
      var first := if steps[0].LogCommit? then [steps[0].t] else [];
      assert Ids(s.history) + first + CommitOrder(steps[1..]) == Ids(s.history) + (first + CommitOrder(steps[1..]));
    }
  }

  /** Commit-order serializability. In any run, executing the transactions committed since the
      database was last opened alone, one after another in the order of their commit records,
      gives every Get the answer it got; transactions still active see that store plus their
      own writes; and with no writer active the tree is exactly the serial result. Until the
      database is reopened, it started from `m` and the history is the run's commit order. */
  lemma Serializability(m: Store, steps: seq<Step>)
    requires ValidRun(Opened(m), steps)
    ensures var s := Run(Opened(m), steps);
            && SerialFaithful(s.base, s.history)
            && (forall t :: HasStatus(s, t, Active) ==> Faithful(Serial(s.base, s.history), s.txns[t].ops))
            && ((forall t :: !HasStatus(s, t, Active)) ==> s.tree == Serial(s.base, s.history))
            && (NeverReopens(steps) ==> s.base == m && Ids(s.history) == CommitOrder(steps))
  {
    hide LocksOk, LogOk, NewestOk, ReplayOk, DiskOk, Faithful, Serial, ApplyOps;
    OpenedInv(m);
    RunKeeps(Opened(m), steps);
    if NeverReopens(steps) {
      HistoryIsCommitOrder(Opened(m), steps);
      assert Ids(Opened(m).history) + CommitOrder(steps) == CommitOrder(steps);
    }
    var s := Run(Opened(m), steps);
    forall t | HasStatus(s, t, Active) ensures Faithful(Serial(s.base, s.history), s.txns[t].ops) {
      assert ViewOk(s, t);
    }
    if forall t :: !HasStatus(s, t, Active) { QuietTree(s); }
  }

  /** With no writer active the tree is the committed store. */
  lemma QuietTree(s: State)
    requires Inv(s) && forall t :: !HasStatus(s, t, Active)
    ensures s.tree == CommittedStore(s)
  {
    hide LocksOk, LogOk, NewestOk, ReplayOk, DiskOk, Faithful, Serial, ApplyOps;
    forall k ensures Lookup(s.tree, k) == Lookup(CommittedStore(s), k) {
      forall t ensures !Dirty(s, t, k) { assert !HasStatus(s, t, Active); }
    }
    SameAnswers(s.tree, CommittedStore(s));
  }

  /** The seams between sessions: closing hands the committed store over as the next base. */
  lemma CheckpointSeam(m: Store, steps: seq<Step>)
    requires ValidRun(Opened(m), steps) && Enabled(Run(Opened(m), steps), Checkpoint)
    ensures var s := Run(Opened(m), steps); Next(s, Checkpoint) == Opened(Serial(s.base, s.history))
  {
    hide Inv, Serial;
    OpenedInv(m);
    RunKeeps(Opened(m), steps);
    QuietTree(Run(Opened(m), steps));
  }

  /** The tree is the committed store overlaid with pairwise disjoint write sets, and
      rolling one transaction back removes its own overlay and nothing else. */
  lemma OverlayAndRollback(m: Store, steps: seq<Step>, k: Key)
    requires ValidRun(Opened(m), steps)
    ensures var s := Run(Opened(m), steps);
            && (forall t, u :: Dirty(s, t, k) && Dirty(s, u, k) ==> t == u)
            && (forall t :: Dirty(s, t, k) ==>
                              Lookup(s.tree, k) == Lookup(ApplyOps(CommittedStore(s), s.txns[t].ops), k))
            && ((forall t :: !Dirty(s, t, k)) ==> Lookup(s.tree, k) == Lookup(CommittedStore(s), k))
            && (forall t :: HasStatus(s, t, Active) ==>
                              Lookup(RolledBack(s.tree, s.txns[t].writes), k) ==
                              Lookup(if Dirty(s, t, k) then CommittedStore(s) else s.tree, k))
  {
    hide LogOk, NewestOk, ReplayOk, DiskOk, Faithful, Serial, ApplyOps;
    OpenedInv(m);
    RunKeeps(Opened(m), steps);
    var s := Run(Opened(m), steps);
    forall t, u | Dirty(s, t, k) && Dirty(s, u, k) ensures t == u {
      assert Unfinished(s, t) && Unfinished(s, u);
      Conflict(s.locks, t, u, k);
    }
    forall t | Dirty(s, t, k)
      ensures Lookup(s.tree, k) == Lookup(ApplyOps(CommittedStore(s), s.txns[t].ops), k)
    {
      assert ViewOk(s, t);
    }
    forall t | HasStatus(s, t, Active)
      ensures Lookup(RolledBack(s.tree, s.txns[t].writes), k) ==
              Lookup(if Dirty(s, t, k) then CommittedStore(s) else s.tree, k)
    {
      UndoRestores(s, t, k);
    }
  }

  // -------------------------------------------------------- what a commit flushes

  /** In every run a committer's flush leaves the data file with exactly what the tree holds: each
      key somebody is still changing as the tree shows it, every other key, the committer's own
      among them, with its committed value. Neither the tree nor the committed store changes. */
  lemma FlushShowsCommitted(m: Store, steps: seq<Step>, t: TxnId, k: Key)
    requires ValidRun(Opened(m), steps) && Enabled(Run(Opened(m), steps), FlushPages(t))
    ensures var s := Run(Opened(m), steps);
            var s' := Next(s, FlushPages(t));
            && CommittedStore(s') == CommittedStore(s) && s'.tree == s.tree
            && Lookup(s'.disk, k) == Lookup(s.tree, k)
            && ((forall u :: !Dirty(s', u, k)) ==> Lookup(s'.disk, k) == Lookup(CommittedStore(s), k))
            && (k in s.txns[t].writes ==> Lookup(s'.disk, k) == Lookup(CommittedStore(s), k))
  {
    hide LogOk, NewestOk, ReplayOk, DiskOk, Faithful, Serial, ApplyOps;
    OpenedInv(m);
    RunKeeps(Opened(m), steps);
    var s := Run(Opened(m), steps);
    var s' := Next(s, FlushPages(t));
    forall u ensures Dirty(s', u, k) <==> Dirty(s, u, k) { }
    if k in s.txns[t].writes {
      forall u ensures !Dirty(s, u, k) { OnlyItsWriter(s, t, u, k); }
    }
  }

  /** Up to its end a writer is the only one that can have a key dirty. */
  lemma OnlyItsWriter(s: State, t: TxnId, u: TxnId, k: Key)
    requires Inv(s) && Running(s, t) && k in s.txns[t].writes
    ensures Dirty(s, u, k) ==> u == t
  {
    hide ViewsOk, LogOk, NewestOk, ReplayOk, DiskOk;
    if Dirty(s, u, k) {
      assert Running(s, u);
      Conflict(s.locks, t, u, k);
    }
  }

  /** Log sequence numbers count the records of the log from 1. */
  ghost predicate Numbered(s: State) {
    s.nextLsn == |s.log| + 1 && forall i :: 0 <= i < |s.log| ==> s.log[i].lsn == i + 1
  }

  lemma {:induction false} RecordsAreNumbered(s: State, steps: seq<Step>)
    requires Numbered(s) && ValidRun(s, steps)
    ensures Numbered(Run(s, steps))
    decreases |steps|
  {
    if steps != [] {
      NumberedStep(s, steps[0]);
      RecordsAreNumbered(Next(s, steps[0]), steps[1..]);
    }
  }

  lemma NumberedStep(s: State, step: Step)
    requires Numbered(s) && Enabled(s, step)
    ensures Numbered(Next(s, step))
  {
    hide Grant, Released, Pruned, RolledBack, WrittenBack, Recovered;
  }

  // ------------------------------------------------------------- crash recovery

  /** Some transaction that did not abort logged a write of `k`. */
  predicate Recovers(log: seq<Record>, k: Key) {
    LastWrite(log, EndedBy(log, ABORT), k).Some?
  }

  /** What recovery makes of each key, in every state that satisfies the invariant. */
  lemma RecoveryPerKey(s: State, k: Key)
    requires Inv(s)
    ensures Lookup(Recovered(s.disk, DecodedLog(s.log)), k) ==
            if Recovers(s.log, k) then Norm(Lookup(CommittedStore(s), k)) else Lookup(s.disk, k)
  {
    hide Apply, RedoEdits, UndoEdits, LastWrite, Losers, EndedBy, ViewsOk, LocksOk, NewestOk, DiskOk;
    var d := DecodedLog(s.log);
    var aborted, losers := EndedBy(s.log, ABORT), Losers(s.log);
    DecodedKeeps(s.log, aborted, k);
    ApplyConcat(s.disk, RedoEdits(d, aborted), UndoEdits(d, losers));
    RedoPerKey(s.disk, d, aborted, k);
    var redone := Apply(s.disk, RedoEdits(d, aborted));
    var v := Norm(Lookup(CommittedStore(s), k));
    forall r | r in d && WritesKey(r, k) && r.txn in losers ensures Before(r) == v { LoserImage(s, r, k); }
    UndoPerKey(redone, d, losers, k, v);
    LastWriteFound(s.log, aborted, k);
    if r :| r in d && WritesKey(r, k) && r.txn in losers {
      var i :| 0 <= i < |d| && d[i] == r;
      assert s.log[i] in s.log && WritesKey(s.log[i], k);
      assert Unfinished(s, s.log[i].txn);
    } else {
      forall r | r in s.log && WritesKey(r, k) ensures r.txn in aborted <==> r.txn in Discarded(s.log) {
        var i :| 0 <= i < |s.log| && s.log[i] == r;
        assert d[i] in d && WritesKey(d[i], k);
      }
      SkipIrrelevant(s.log, aborted, Discarded(s.log), k);
    }
  }

  /** A loser's record, read back, carries the committed value of its key. */
  lemma LoserImage(s: State, r: Record, k: Key)
    requires Inv(s) && r in DecodedLog(s.log) && WritesKey(r, k) && r.txn in Losers(s.log)
    ensures Before(r) == Norm(Lookup(CommittedStore(s), k))
  {
    var d := DecodedLog(s.log);
    var i :| 0 <= i < |d| && d[i] == r;
    var raw := s.log[i];
    assert raw in s.log && Unfinished(s, raw.txn);
    assert ViewOk(s, raw.txn);
    assert Before(raw) == Lookup(CommittedStore(s), k);
  }

  /** Every key logged only by aborted transactions has its rollback on disk. */
  ghost predicate UndoneOnDisk(s: State) {
    forall k :: LastWrite(s.log, {}, k).Some? && !Recovers(s.log, k) ==>
                  Lookup(s.disk, k) == Lookup(CommittedStore(s), k)
  }

  /** No key that recovery sets has the empty string as its committed value. */
  ghost predicate NoEmptyValue(s: State) {
    forall k :: Recovers(s.log, k) ==> Lookup(CommittedStore(s), k) != Some([])
  }

  /** Crash recovery. After any run, with any pages written back at any time, recovery from
      the disk and the log rebuilds exactly the committed store if and only if rollbacks of
      keys logged only by aborted transactions reached the disk and no recovered key holds
      the empty string. */
  lemma CrashRecovery(m: Store, steps: seq<Step>)
    requires ValidRun(Opened(m), steps)
    ensures var s := Run(Opened(m), steps);
            Recovered(s.disk, DecodedLog(s.log)) == CommittedStore(s) <==> UndoneOnDisk(s) && NoEmptyValue(s)
  {
    hide Apply, LastWrite, Losers, EndedBy, LocksOk, ViewsOk, LogOk, NewestOk, ReplayOk;
    OpenedInv(m);
    RunKeeps(Opened(m), steps);
    var s := Run(Opened(m), steps);
    var got, want := Recovered(s.disk, DecodedLog(s.log)), CommittedStore(s);
    if UndoneOnDisk(s) && NoEmptyValue(s) {
      forall k ensures Lookup(got, k) == Lookup(want, k) {
        RecoveryPerKey(s, k);
        if LastWrite(s.log, {}, k).None? {
          UnloggedIsBase(s, k);
          LastWriteFound(s.log, {}, k);
          LastWriteFound(s.log, EndedBy(s.log, ABORT), k);
        }
      }
      SameAnswers(got, want);
    }
    if got == want {
      forall k | LastWrite(s.log, {}, k).Some? && !Recovers(s.log, k)
        ensures Lookup(s.disk, k) == Lookup(want, k)
      {
        RecoveryPerKey(s, k);
      }
      forall k | Recovers(s.log, k) ensures Lookup(want, k) != Some([]) {
        RecoveryPerKey(s, k);
      }
    }
  }

  /** So does a crash, exactly under the conditions of the crash theorem. */
  lemma CrashSeam(m: Store, steps: seq<Step>)
    requires ValidRun(Opened(m), steps)
    ensures var s := Run(Opened(m), steps);
            Next(s, CrashAndRecover) == Opened(Serial(s.base, s.history)) <==> UndoneOnDisk(s) && NoEmptyValue(s)
  {
    hide ValidRun, Run, Recovered, UndoneOnDisk, NoEmptyValue, Serial;
    CrashRecovery(m, steps);
  }

  /** Durability across the crash: what committed is what the reopened database holds. */
  lemma CommittedSurvivesCrash(m: Store, steps: seq<Step>)
    requires ValidRun(Opened(m), steps)
    requires UndoneOnDisk(Run(Opened(m), steps)) && NoEmptyValue(Run(Opened(m), steps))
    ensures var s := Run(Opened(m), steps);
            var s' := Next(s, CrashAndRecover);
            s'.tree == s'.disk == CommittedStore(s) && Inv(s')
  {
    hide ValidRun, Run, Recovered, UndoneOnDisk, NoEmptyValue, Serial, Inv;
    CrashSeam(m, steps);
    OpenedInv(CommittedStore(Run(Opened(m), steps)));
  }
}
