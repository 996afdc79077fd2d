/** Write-ahead log records and what a log says about its transactions. */
module Log {
  import opened Base
  import opened Locks

  // Record type tags as stored in the file.
  const INVALID: nat := 0
  const BEGIN: nat := 1
  const WRITE: nat := 2
  const COMMIT: nat := 3
  const ABORT: nat := 4

  datatype Record = Record(lsn: int, txn: TxnId, kind: nat, key: Key,
                           beforeExists: bool, beforeVal: Value, afterVal: Value)

  /** The image redo installs: an empty after-value means "delete". */
  function After(r: Record): Option<Value> {
    if r.afterVal == [] then None else Some(r.afterVal)
  }

  /** The image undo restores. */
  function Before(r: Record): Option<Value> {
    if r.beforeExists then Some(r.beforeVal) else None
  }

  /** What survives a trip through the log: an empty value reads back as no value. */
  function Norm(v: Option<Value>): Option<Value> {
    if v == Some([]) then None else v
  }

  /** A record as the reader rebuilds it: the existence flag is not stored. */
  function Decoded(r: Record): Record {
    r.(beforeExists := r.beforeVal != [])
  }

  function DecodedLog(log: seq<Record>): (d: seq<Record>)
    ensures |d| == |log| && forall i :: 0 <= i < |d| ==> d[i] == Decoded(log[i])
  {
    seq(|log|, i requires 0 <= i < |log| => Decoded(log[i]))
  }

  /** Transactions with an end record of the given kind. */
  function EndedBy(log: seq<Record>, kind: nat): set<TxnId> {
    set r | r in log && r.kind == kind :: r.txn
  }

  /** Transactions that began and neither committed nor aborted. */
  function Losers(log: seq<Record>): set<TxnId> {
    if log == [] then {}
    else
      var r := log[|log| - 1];
      var rest := Losers(log[..|log| - 1]);
      if r.kind == BEGIN then rest + {r.txn}
      else if r.kind == COMMIT || r.kind == ABORT then rest - {r.txn}
      else rest
  }

  predicate WritesKey(r: Record, k: Key) {
    r.kind == WRITE && r.key == k
  }

  /** Last write record on `k` whose transaction is not in `skip`. */
  function LastWrite(log: seq<Record>, skip: set<TxnId>, k: Key): Option<Record> {
    if log == [] then None
    else
      var r := log[|log| - 1];
      if WritesKey(r, k) && r.txn !in skip then Some(r)
      else LastWrite(log[..|log| - 1], skip, k)
  }

  lemma AppendFacts(log: seq<Record>, r: Record, skip: set<TxnId>, k: Key)
    ensures Losers(log + [r]) == if r.kind == BEGIN then Losers(log) + {r.txn}
                                 else if r.kind == COMMIT || r.kind == ABORT then Losers(log) - {r.txn}
                                 else Losers(log)
    ensures EndedBy(log + [r], COMMIT) == EndedBy(log, COMMIT) + (if r.kind == COMMIT then {r.txn} else {})
    ensures EndedBy(log + [r], ABORT) == EndedBy(log, ABORT) + (if r.kind == ABORT then {r.txn} else {})
    ensures LastWrite(log + [r], skip, k) == if WritesKey(r, k) && r.txn !in skip then Some(r)
                                             else LastWrite(log, skip, k)
  {
    assert (log + [r])[..|log|] == log;
    assert forall x :: x in log + [r] <==> x in log || x == r;
  }

  lemma {:induction false} LastWriteFound(log: seq<Record>, skip: set<TxnId>, k: Key)
    ensures LastWrite(log, skip, k).Some? <==> exists r :: r in log && WritesKey(r, k) && r.txn !in skip
    ensures LastWrite(log, skip, k).Some? ==>
              var r := LastWrite(log, skip, k).value; r in log && WritesKey(r, k) && r.txn !in skip
  {
    if log != [] {
      var n := |log| - 1;
      LastWriteFound(log[..n], skip, k);
      assert forall x :: x in log <==> x in log[..n] || x == log[n];
    }
  }

  /** Decoding does not change which transactions ended or lost, nor where the last write is. */
  lemma {:induction false} DecodedKeeps(log: seq<Record>, skip: set<TxnId>, k: Key)
    ensures Losers(DecodedLog(log)) == Losers(log)
    ensures EndedBy(DecodedLog(log), ABORT) == EndedBy(log, ABORT)
    ensures LastWrite(DecodedLog(log), skip, k) ==
            match LastWrite(log, skip, k) case None => None case Some(r) => Some(Decoded(r))
  {
    var d := DecodedLog(log);
    forall t | t in EndedBy(log, ABORT) ensures t in EndedBy(d, ABORT) {
      var i :| 0 <= i < |log| && log[i].kind == ABORT && log[i].txn == t;
      assert d[i] in d;
    }
    if log != [] {
      var n := |log| - 1;
      DecodedKeeps(log[..n], skip, k);
      assert d[..n] == DecodedLog(log[..n]);
    }
  }
}
