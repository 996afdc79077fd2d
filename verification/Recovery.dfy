/** Redo/undo recovery over a log, as a list of edits and as the loops that apply them. */
module Recovery {
  import opened Base
  import opened Locks
  import opened Log

  datatype Edit = Edit(key: Key, val: Option<Value>)

  type Store = map<Key, Value>

  function Apply(m: Store, es: seq<Edit>): Store {
    if es == [] then m
    else
      var e := es[|es| - 1];
      Write(Apply(m, es[..|es| - 1]), e.key, e.val)
  }

  /** Writes replayed forward: every write of a transaction that did not abort. */
  function RedoEdits(log: seq<Record>, aborted: set<TxnId>): seq<Edit> {
    if log == [] then []
    else
      var r := log[|log| - 1];
      RedoEdits(log[..|log| - 1], aborted)
      + if r.kind == WRITE && r.txn !in aborted then [Edit(r.key, After(r))] else []
  }

  /** Losers' before-images, newest record first. */
  function UndoEdits(log: seq<Record>, losers: set<TxnId>): seq<Edit> {
    if log == [] then []
    else
      var r := log[|log| - 1];
      (if r.kind == WRITE && r.txn in losers then [Edit(r.key, Before(r))] else [])
      + UndoEdits(log[..|log| - 1], losers)
  }

  function RecoveryEdits(log: seq<Record>): seq<Edit> {
    RedoEdits(log, EndedBy(log, ABORT)) + UndoEdits(log, Losers(log))
  }

  /** The tree after recovery started on tree `m` with log `log`. */
  function Recovered(m: Store, log: seq<Record>): Store {
    Apply(m, RecoveryEdits(log))
  }

  predicate Mentions(es: seq<Edit>, k: Key) {
    exists i :: 0 <= i < |es| && es[i].key == k
  }

  // ---------------------------------------------------------------- edit lists

  lemma {:induction false} ApplyConcat(m: Store, a: seq<Edit>, b: seq<Edit>)
    ensures Apply(m, a + b) == Apply(Apply(m, a), b)
  {
    if b == [] {
      assert a + b == a;
    } else {
      var n := |b| - 1;
      assert (a + b)[..|a + b| - 1] == a + b[..n];
      ApplyConcat(m, a, b[..n]);
    }
  }

  lemma ApplySnoc(m: Store, es: seq<Edit>, e: Edit)
    ensures Apply(m, es + [e]) == Write(Apply(m, es), e.key, e.val)
  {
    assert (es + [e])[..|es|] == es;
  }

  lemma {:induction false} ApplyUnmentioned(m: Store, es: seq<Edit>, k: Key)
    requires !Mentions(es, k)
    ensures Lookup(Apply(m, es), k) == Lookup(m, k)
  {
    if es != [] {
      var n := |es| - 1;
      assert es[n].key != k;
      assert !Mentions(es[..n], k);
      ApplyUnmentioned(m, es[..n], k);
    }
  }

  /** A key the edits mention ends up the same wherever the edits start from. */
  lemma {:induction false} ApplyForgets(m: Store, m': Store, es: seq<Edit>, k: Key)
    requires Mentions(es, k) || Lookup(m, k) == Lookup(m', k)
    ensures Lookup(Apply(m, es), k) == Lookup(Apply(m', es), k)
  {
    if es != [] {
      var n := |es| - 1;
      if es[n].key != k {
        if Mentions(es, k) {
          var i :| 0 <= i < |es| && es[i].key == k;
          assert es[..n][i].key == k;
        }
        ApplyForgets(m, m', es[..n], k);
      }
    }
  }

  // ------------------------------------------------------------ restartability

  /** Recovery depends on its starting tree only at keys it does not touch. */
  lemma RecoveryForgets(m: Store, m': Store, log: seq<Record>)
    requires forall k :: !Mentions(RecoveryEdits(log), k) ==> Lookup(m, k) == Lookup(m', k)
    ensures Recovered(m, log) == Recovered(m', log)
  {
    forall k ensures Lookup(Recovered(m, log), k) == Lookup(Recovered(m', log), k) {
      ApplyForgets(m, m', RecoveryEdits(log), k);
    }
    SameAnswers(Recovered(m, log), Recovered(m', log));
  }

  /** A tree on which every key shows one of the values an interrupted recovery gave it. */
  ghost predicate PartlyRecovered(m: Store, log: seq<Record>, mixed: Store) {
    forall k :: exists n :: 0 <= n <= |RecoveryEdits(log)| &&
                            Lookup(mixed, k) == Lookup(Apply(m, RecoveryEdits(log)[..n]), k)
  }

  /** Stopping recovery anywhere, with any of its writes on disk or not, and running it
      again on the same log gives what one uninterrupted run gives. */
  lemma RestartedRecovery(m: Store, log: seq<Record>, mixed: Store)
    requires PartlyRecovered(m, log, mixed)
    ensures Recovered(mixed, log) == Recovered(m, log)
  {
    var es := RecoveryEdits(log);
    forall k | !Mentions(es, k) ensures Lookup(mixed, k) == Lookup(m, k) {
      var n :| 0 <= n <= |es| && Lookup(mixed, k) == Lookup(Apply(m, es[..n]), k);
      assert !Mentions(es[..n], k);
      ApplyUnmentioned(m, es[..n], k);
    }
    RecoveryForgets(mixed, m, log);
  }

  /** Recovering twice is recovering once. */
  lemma RecoveryIsIdempotent(m: Store, log: seq<Record>)
    ensures Recovered(Recovered(m, log), log) == Recovered(m, log)
  {
    var es := RecoveryEdits(log);
    assert es[..|es|] == es;
    RestartedRecovery(m, log, Recovered(m, log));
  }

  // ----------------------------------------------------------- effect per key

  /** Redo leaves on each key the image of its last write that was not aborted. */
  lemma {:induction false} RedoPerKey(m: Store, log: seq<Record>, aborted: set<TxnId>, k: Key)
    ensures Lookup(Apply(m, RedoEdits(log, aborted)), k) ==
            match LastWrite(log, aborted, k) case None => Lookup(m, k) case Some(r) => After(r)
  {
    if log != [] {
      var n := |log| - 1;
      RedoPerKey(m, log[..n], aborted, k);
      RedoStep(m, log, aborted);
    }
  }

  /** The last record's share of redo. */
  lemma RedoStep(m: Store, log: seq<Record>, aborted: set<TxnId>)
    requires log != []
    ensures var n := |log| - 1; var r := log[n];
            Apply(m, RedoEdits(log, aborted)) ==
            if r.kind == WRITE && r.txn !in aborted
            then Write(Apply(m, RedoEdits(log[..n], aborted)), r.key, After(r))
            else Apply(m, RedoEdits(log[..n], aborted))
  {
    var n := |log| - 1;
    var r := log[n];
    var rest := RedoEdits(log[..n], aborted);
    ApplySnoc(m, rest, Edit(r.key, After(r)));
    assert rest + [] == rest;
  }

  /** If all losers' records on `k` carry the same before-image, undo restores it. */
  lemma {:induction false} UndoPerKey(m: Store, log: seq<Record>, losers: set<TxnId>, k: Key, v: Option<Value>)
    requires forall r :: r in log && WritesKey(r, k) && r.txn in losers ==> Before(r) == v
    ensures Lookup(Apply(m, UndoEdits(log, losers)), k) ==
            if exists r :: r in log && WritesKey(r, k) && r.txn in losers then v else Lookup(m, k)
    decreases |log|
  {
    if log != [] {
      var n := |log| - 1;
      var r := log[n];
      assert forall x :: x in log <==> x in log[..n] || x == r;
      var first := if r.kind == WRITE && r.txn in losers then [Edit(r.key, Before(r))] else [];
      var rest := UndoEdits(log[..n], losers);
      ApplyConcat(m, first, rest);
      UndoPerKey(Apply(m, first), log[..n], losers, k, v);
      if first != [] { assert first[..0] == []; }
    }
  }

  // ------------------------------------------------------------ the procedure

  class RecoveryManager {
    var tree: Store

    constructor (onDisk: Store)
      ensures tree == onDisk
    {
      tree := onDisk;
    }

    method Analysis(records: seq<Record>) returns (active: set<TxnId>)
      ensures active == Losers(records)
    {
      active := {};
      for i := 0 to |records|
        invariant active == Losers(records[..i])
      {
        var r := records[i];
        assert records[..i + 1][..i] == records[..i];
        if r.kind == BEGIN {
          active := active + {r.txn};
        } else if r.kind == COMMIT || r.kind == ABORT {
          active := active - {r.txn};
        }
      }
      assert records[..|records|] == records;
    }

    method Redo(records: seq<Record>)
      modifies this
      ensures tree == Apply(old(tree), RedoEdits(records, EndedBy(records, ABORT)))
    {
      var aborted: set<TxnId> := {};
      for i := 0 to |records|
        invariant aborted == EndedBy(records[..i], ABORT)
        invariant tree == old(tree)
      {
        assert forall x :: x in records[..i + 1] <==> x in records[..i] || x == records[i];
        if records[i].kind == ABORT {
          aborted := aborted + {records[i].txn};
        }
      }
      assert records[..|records|] == records;
      for i := 0 to |records|
        invariant tree == Apply(old(tree), RedoEdits(records[..i], aborted))
      {
        var r := records[i];
        assert records[..i + 1][..i] == records[..i];
        RedoStep(old(tree), records[..i + 1], aborted);
        if r.kind != WRITE || r.txn in aborted {
          continue;
        }
        if r.afterVal == [] {
          tree := tree - {r.key};
        } else {
          tree := tree[r.key := r.afterVal];
        }
      }
    }

    method Undo(records: seq<Record>, losers: set<TxnId>)
      modifies this
      ensures tree == Apply(old(tree), UndoEdits(records, losers))
    {
      if losers == {} {
        NoLosersNoEdits(records);
        return;
      }
      var i := |records|;
      assert records[..i] == records;
      while i > 0
        invariant 0 <= i <= |records|
        invariant Apply(tree, UndoEdits(records[..i], losers)) == Apply(old(tree), UndoEdits(records, losers))
      {
        ghost var before := tree;
        i := i - 1;
        var r := records[i];
        assert records[..i + 1][..i] == records[..i];
        ghost var rest := UndoEdits(records[..i], losers);
        if r.kind != WRITE || r.txn !in losers {
          assert [] + rest == rest;
          continue;
        }
        ApplyConcat(before, [Edit(r.key, Before(r))], rest);
        assert [Edit(r.key, Before(r))][..0] == [];
        if !r.beforeExists {
          tree := tree - {r.key};
        } else {
          tree := tree[r.key := r.beforeVal];
        }
      }
    }

    /** The whole sequence; returns the number of transactions rolled back. */
    method Recover(records: seq<Record>) returns (rolledBack: nat)
      modifies this
      ensures tree == Recovered(old(tree), records)
      ensures rolledBack == |Losers(records)|
    {
      if records == [] {
        return 0;
      }
      var losers := Analysis(records);
      Redo(records);
      Undo(records, losers);
      ApplyConcat(old(tree), RedoEdits(records, EndedBy(records, ABORT)), UndoEdits(records, losers));
      return |losers|;
    }
  }

  lemma {:induction false} NoLosersNoEdits(log: seq<Record>)
    ensures UndoEdits(log, {}) == []
  {
    if log != [] { NoLosersNoEdits(log[..|log| - 1]); }
  }
}
