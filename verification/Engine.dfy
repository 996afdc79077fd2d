/** The engine as a step machine: each step is one critical section of the source.
    `ops`, `history` and `base` record what happened; no step consults them. */
module Engine {
  import opened Base
  import opened Locks
  import opened Log
  import opened Recovery

  datatype WriteEntry = WriteEntry(beforeExists: bool, beforeVal: Value, afterVal: Value)

  type WriteSet = map<Key, WriteEntry>

  /** One answered or performed operation of a transaction. */
  datatype Op = Got(key: Key, answer: Option<Value>) | Stored(key: Key, val: Value) | Deleted(key: Key)

  datatype Status = Active | CommitLogged | Flushed | Undone | AbortLogged | Ended

  datatype Txn = Txn(status: Status, writes: WriteSet, ops: seq<Op>)

  datatype Committed = Committed(id: TxnId, ops: seq<Op>)

  /** `tree` is the store as the buffer pool shows it, `disk` as the data file holds it;
      `base` is the store at the last checkpoint, `history` the commits since, in order. */
  datatype State = State(tree: Store, disk: Store, log: seq<Record>, nextLsn: int, nextTxn: TxnId,
                         locks: LockTable, txns: map<TxnId, Txn>, base: Store, history: seq<Committed>)

  // ------------------------------------------------- what the sections compute

  function ImageBefore(e: WriteEntry): Option<Value> {
    if e.beforeExists then Some(e.beforeVal) else None
  }

  /** The write-set entry Put leaves for `k`: the first write fixes the before-image. */
  function PutEntry(tree: Store, writes: WriteSet, k: Key, v: Value): WriteEntry {
    if k in writes then writes[k].(afterVal := v)
    else if k in tree then WriteEntry(true, tree[k], v)
    else WriteEntry(false, [], v)
  }

  function DeleteEntry(tree: Store, writes: WriteSet, k: Key): WriteEntry
    requires k in tree
  {
    if k in writes then writes[k].(afterVal := []) else WriteEntry(true, tree[k], [])
  }

  function WriteRecord(lsn: int, t: TxnId, k: Key, e: WriteEntry): Record {
    Record(lsn, t, WRITE, k, e.beforeExists, if e.beforeExists then e.beforeVal else [], e.afterVal)
  }

  function EndRecord(lsn: int, t: TxnId, kind: nat): Record {
    Record(lsn, t, kind, [], false, [], [])
  }

  /** The tree with every key of a write set back at its before-image. */
  function RolledBack(tree: Store, writes: WriteSet): Store {
    map k | k in tree.Keys + writes.Keys && (k in writes ==> writes[k].beforeExists)
      :: if k in writes then writes[k].beforeVal else tree[k]
  }

  /** The disk after the pages holding `ks` were written back. */
  function WrittenBack(tree: Store, disk: Store, ks: set<Key>): Store {
    map k | k in tree.Keys + disk.Keys && (if k in ks then k in tree else k in disk)
      :: if k in ks then tree[k] else disk[k]
  }

  // ------------------------------------------------------------------- steps

  datatype Step =
    | Begin
    | Lock(t: TxnId, key: Key, mode: Mode)
    | LockTimeout(t: TxnId, key: Key, mode: Mode)
    | Get(t: TxnId, key: Key)
    | Put(t: TxnId, key: Key, val: Value)
    | Delete(t: TxnId, key: Key)
    | LogCommit(t: TxnId)
    | FlushPages(t: TxnId)
    | Undo(t: TxnId)
    | LogAbort(t: TxnId)
    | Release(t: TxnId)
    | WriteBack(ks: set<Key>)
    | Checkpoint
    | CrashAndRecover

  /** A freshly opened database holding `m`. */
  function Opened(m: Store): State {
    State(m, m, [], 1, 1, NO_LOCKS, map[], m, [])
  }

  predicate HasStatus(s: State, t: TxnId, st: Status) {
    t in s.txns && s.txns[t].status == st
  }

  predicate Enabled(s: State, step: Step) {
    match step
    case Begin => true
    case Lock(t, k, mode) => HasStatus(s, t, Active) && CanGrant(StateOf(s.locks, k), t, mode)
    case LockTimeout(t, k, mode) => HasStatus(s, t, Active)
    case Get(t, k) => HasStatus(s, t, Active) && Holds(s.locks, t, k)
    case Put(t, k, v) => HasStatus(s, t, Active) && HoldsExclusive(s.locks, t, k)
    case Delete(t, k) => HasStatus(s, t, Active) && HoldsExclusive(s.locks, t, k)
    case LogCommit(t) => HasStatus(s, t, Active)
    case FlushPages(t) => HasStatus(s, t, CommitLogged)
    case Undo(t) => HasStatus(s, t, Active)
    case LogAbort(t) => HasStatus(s, t, Undone)
    case Release(t) => HasStatus(s, t, Flushed) || HasStatus(s, t, AbortLogged)
    case WriteBack(ks) => true
    case Checkpoint => forall t :: t in s.txns ==> s.txns[t].status == Ended
    case CrashAndRecover => true
  }

  function WithStatus(s: State, t: TxnId, st: Status): map<TxnId, Txn>
    requires t in s.txns
  {
    s.txns[t := s.txns[t].(status := st)]
  }

  function Append(s: State, r: Record): State {
    s.(log := s.log + [r], nextLsn := s.nextLsn + 1)
  }

  function AfterGet(s: State, t: TxnId, k: Key): State
    requires t in s.txns
  {
    var x := s.txns[t];
    s.(txns := s.txns[t := x.(ops := x.ops + [Got(k, Lookup(s.tree, k))])])
  }

  function AfterWrite(s: State, t: TxnId, k: Key, e: WriteEntry, op: Op, v: Option<Value>): State
    requires t in s.txns
  {
    var x := s.txns[t];
    Append(s, WriteRecord(s.nextLsn, t, k, e))
      .(tree := Write(s.tree, k, v),
        txns := s.txns[t := Txn(x.status, x.writes[k := e], x.ops + [op])])
  }

  function AfterPut(s: State, t: TxnId, k: Key, v: Value): State
    requires t in s.txns
  {
    AfterWrite(s, t, k, PutEntry(s.tree, s.txns[t].writes, k, v), Stored(k, v), Some(v))
  }

  /** Deleting an absent key changes nothing and is not logged. */
  function AfterDelete(s: State, t: TxnId, k: Key): State
    requires t in s.txns
  {
    var x := s.txns[t];
    if k in s.tree then
      AfterWrite(s, t, k, DeleteEntry(s.tree, x.writes, k), Deleted(k), None)
    else
      s.(txns := s.txns[t := x.(ops := x.ops + [Deleted(k)])])
  }

  function Next(s: State, step: Step): State
    requires Enabled(s, step)
  {
    match step
    case Begin =>
      Append(s, EndRecord(s.nextLsn, s.nextTxn, BEGIN))
        .(nextTxn := s.nextTxn + 1, txns := s.txns[s.nextTxn := Txn(Active, map[], [])])
    case Lock(t, k, mode) => s.(locks := Grant(s.locks, t, k, mode))
    case LockTimeout(t, k, mode) => s.(locks := Pruned(s.locks, k))
    case Get(t, k) => AfterGet(s, t, k)
    case Put(t, k, v) => AfterPut(s, t, k, v)
    case Delete(t, k) => AfterDelete(s, t, k)
    case LogCommit(t) =>
      Append(s, EndRecord(s.nextLsn, t, COMMIT))
        .(txns := WithStatus(s, t, CommitLogged), history := s.history + [Committed(t, s.txns[t].ops)])
    case FlushPages(t) => s.(disk := s.tree, txns := WithStatus(s, t, Flushed))
    case Undo(t) => s.(tree := RolledBack(s.tree, s.txns[t].writes), txns := WithStatus(s, t, Undone))
    case LogAbort(t) => Append(s, EndRecord(s.nextLsn, t, ABORT)).(txns := WithStatus(s, t, AbortLogged))
    case Release(t) => s.(locks := Released(s.locks, t), txns := WithStatus(s, t, Ended))
    case WriteBack(ks) => s.(disk := WrittenBack(s.tree, s.disk, ks))
    case Checkpoint => Opened(s.tree)
    case CrashAndRecover => Opened(Recovered(s.disk, DecodedLog(s.log)))
  }

  /** Every step of a run is enabled where it is taken. */
  predicate ValidRun(s: State, steps: seq<Step>)
    decreases |steps|
  {
    steps == [] || (Enabled(s, steps[0]) && ValidRun(Next(s, steps[0]), steps[1..]))
  }

  function Run(s: State, steps: seq<Step>): State
    requires ValidRun(s, steps)
    decreases |steps|
  {
    if steps == [] then s else Run(Next(s, steps[0]), steps[1..])
  }

  // ---------------------------------------- the serial reference to compare with

  function ApplyOp(m: Store, op: Op): Store {
    match op
    case Got(_, _) => m
    case Stored(k, v) => m[k := v]
    case Deleted(k) => m - {k}
  }

  function ApplyOps(m: Store, ops: seq<Op>): Store {
    if ops == [] then m else ApplyOp(ApplyOps(m, ops[..|ops| - 1]), ops[|ops| - 1])
  }

  /** Run alone on `m`, these operations would have got the answers they got. */
  ghost predicate Faithful(m: Store, ops: seq<Op>) {
    forall i :: 0 <= i < |ops| && ops[i].Got? ==> ops[i].answer == Lookup(ApplyOps(m, ops[..i]), ops[i].key)
  }

  /** The committed transactions executed one at a time, in commit order. */
  function Serial(base: Store, history: seq<Committed>): Store {
    if history == [] then base
    else ApplyOps(Serial(base, history[..|history| - 1]), history[|history| - 1].ops)
  }

  ghost predicate SerialFaithful(base: Store, history: seq<Committed>) {
    forall i :: 0 <= i < |history| ==> Faithful(Serial(base, history[..i]), history[i].ops)
  }

  function CommittedStore(s: State): Store {
    Serial(s.base, s.history)
  }
}
