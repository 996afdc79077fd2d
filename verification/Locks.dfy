/** Two-phase locking: the per-key lock table and the class that maintains it. */
module Locks {
  import opened Base

  type TxnId = int

  const INVALID_TXN: TxnId := -1

  datatype Mode = Shared | Exclusive

  /** Holders of one key; `exclusive` is INVALID_TXN when nobody holds X. */
  datatype LockState = LockState(shared: set<TxnId>, exclusive: TxnId)

  const UNLOCKED := LockState({}, INVALID_TXN)

  /** The lock table together with the per-transaction lists of keys to release. */
  datatype LockTable = LockTable(table: map<Key, LockState>, held: map<TxnId, seq<Key>>)

  const NO_LOCKS := LockTable(map[], map[])

  function StateOf(l: LockTable, k: Key): LockState {
    if k in l.table then l.table[k] else UNLOCKED
  }

  predicate Holds(l: LockTable, t: TxnId, k: Key) {
    k in l.table && (t in l.table[k].shared || l.table[k].exclusive == t)
  }

  predicate HoldsExclusive(l: LockTable, t: TxnId, k: Key) {
    k in l.table && l.table[k].exclusive == t
  }

  predicate CanGrant(ls: LockState, t: TxnId, mode: Mode) {
    if mode.Shared? then
      ls.exclusive == INVALID_TXN || ls.exclusive == t
    else if ls.exclusive != INVALID_TXN then
      ls.exclusive == t
    else
      ls.shared == {} || (|ls.shared| == 1 && t in ls.shared)
  }

  /** The table after `t` is granted `mode` on `k`. */
  function Grant(l: LockTable, t: TxnId, k: Key, mode: Mode): LockTable {
    var ls := StateOf(l, k);
    if mode.Shared? && ls.exclusive == t then
      l
    else
      var ls' := if mode.Shared? then LockState(ls.shared + {t}, ls.exclusive)
                 else LockState(ls.shared - {t}, t);
      var keys := if t in l.held then l.held[t] else [];
      LockTable(l.table[k := ls'], l.held[t := keys + [k]])
  }

  function Unheld(ls: LockState, t: TxnId): LockState {
    LockState(ls.shared - {t}, if ls.exclusive == t then INVALID_TXN else ls.exclusive)
  }

  /** The table with every trace of `t` gone and emptied entries pruned. */
  function Released(l: LockTable, t: TxnId): LockTable {
    LockTable(map k | k in l.table && Unheld(l.table[k], t) != UNLOCKED :: Unheld(l.table[k], t),
              l.held - {t})
  }

  /** The table without the entry of `k`, if that entry has no holder. */
  function Pruned(l: LockTable, k: Key): LockTable {
    if k in l.table && l.table[k] == UNLOCKED then l.(table := l.table - {k}) else l
  }

  /** Safety of one entry: it is in use, and an exclusive holder is the only holder. */
  predicate EntrySafe(ls: LockState) {
    && ls != UNLOCKED
    && INVALID_TXN !in ls.shared
    && (ls.exclusive != INVALID_TXN ==> ls.shared == {})
  }

  ghost predicate Safe(l: LockTable) {
    && (forall k :: k in l.table ==> EntrySafe(l.table[k]))
    && (forall t, k :: t != INVALID_TXN && Holds(l, t, k) ==> t in l.held && k in l.held[t])
  }

  /** Another transaction's lock on `k` is incompatible with the requested mode. */
  ghost predicate Blocked(l: LockTable, t: TxnId, k: Key, mode: Mode) {
    exists u :: u != INVALID_TXN && u != t && (if mode.Shared? then HoldsExclusive(l, u, k) else Holds(l, u, k))
  }

  /** A request is refused exactly when somebody else stands in its way: the requester's own
      locks never do, so holding X covers S, and a sole holder of S is upgraded. */
  lemma GrantedUnlessBlocked(l: LockTable, t: TxnId, k: Key, mode: Mode)
    requires Safe(l) && t != INVALID_TXN
    ensures CanGrant(StateOf(l, k), t, mode) <==> !Blocked(l, t, k, mode)
  {
    var ls := StateOf(l, k);
    if CanGrant(ls, t, mode) {
      if |ls.shared| == 1 && t in ls.shared { SingletonIs(ls.shared, t); }
    } else if ls.exclusive != INVALID_TXN {
      assert HoldsExclusive(l, ls.exclusive, k) && Holds(l, ls.exclusive, k);
    } else {
      var u := SomeOther(ls.shared, t);
      assert Holds(l, u, k);
    }
  }

  lemma SomeOther(s: set<TxnId>, t: TxnId) returns (u: TxnId)
    requires s != {} && !(|s| == 1 && t in s)
    ensures u in s && u != t
  {
    if t in s {
      assert |s - {t}| == |s| - 1;
      u := SomeMember(s - {t});
    } else {
      u := SomeMember(s);
    }
  }

  /** A request that must wait found a real holder, so it left no empty entry behind. */
  lemma WaitingLeavesTableUntouched(l: LockTable, t: TxnId, k: Key, mode: Mode)
    requires Safe(l) && !CanGrant(StateOf(l, k), t, mode)
    ensures k in l.table && l.table[k] != UNLOCKED
  {
  }

  lemma GrantIsSafe(l: LockTable, t: TxnId, k: Key, mode: Mode)
    requires Safe(l) && t != INVALID_TXN && CanGrant(StateOf(l, k), t, mode)
    ensures Safe(Grant(l, t, k, mode))
    ensures forall u, j :: u != INVALID_TXN ==>
              (Holds(Grant(l, t, k, mode), u, j) <==> Holds(l, u, j) || (u == t && j == k))
    ensures forall u, j :: u != INVALID_TXN ==>
              (HoldsExclusive(Grant(l, t, k, mode), u, j) <==> HoldsExclusive(l, u, j) || (u == t && j == k && mode.Exclusive?))
  {
    var ls := StateOf(l, k);
    if mode.Exclusive? && ls.exclusive == INVALID_TXN && ls.shared != {} {
      SingletonIs(ls.shared, t);
    }
    var l' := Grant(l, t, k, mode);
    forall j | j in l'.table ensures EntrySafe(l'.table[j]) {
      if j == k { assert t in l'.table[j].shared || l'.table[j].exclusive == t; }
    }
    forall u, j | u != INVALID_TXN && Holds(l', u, j) ensures u in l'.held && j in l'.held[u] {
      if u == t && j == k { } else { assert Holds(l, u, j); }
    }
  }

  lemma SingletonIs(s: set<TxnId>, t: TxnId)
    requires |s| == 1 && t in s
    ensures s == {t}
  {
    assert |s - {t}| == 0;
  }

  lemma ReleasedIsSafe(l: LockTable, t: TxnId)
    requires Safe(l) && t != INVALID_TXN
    ensures Safe(Released(l, t))
    ensures forall k :: !Holds(Released(l, t), t, k)
    ensures t !in Released(l, t).held
    ensures forall u, k :: u != t && u != INVALID_TXN ==> (Holds(Released(l, t), u, k) <==> Holds(l, u, k))
    ensures forall u, k :: u != t && u != INVALID_TXN ==> (HoldsExclusive(Released(l, t), u, k) <==> HoldsExclusive(l, u, k))
  {
    var l' := Released(l, t);
    forall u, k | u != t && u != INVALID_TXN && Holds(l, u, k) ensures Holds(l', u, k) {
      var w := Unheld(l.table[k], t);
      assert u in w.shared || w.exclusive == u;
    }
    forall u, k | u != INVALID_TXN && Holds(l', u, k) ensures u in l'.held && k in l'.held[u] {
      assert Holds(l, u, k);
    }
  }

  /** Two transactions never hold conflicting locks. */
  lemma Conflict(l: LockTable, t: TxnId, u: TxnId, k: Key)
    requires Safe(l) && t != INVALID_TXN && u != INVALID_TXN
    requires HoldsExclusive(l, t, k) && Holds(l, u, k)
    ensures t == u
  {
    assert EntrySafe(l.table[k]);
  }

  /** The lock manager. Each method is one critical section of the source's mutex. */
  class LockManager {
    var table: map<Key, LockState>
    var held: map<TxnId, seq<Key>>

    ghost function View(): LockTable
      reads this
    {
      LockTable(table, held)
    }

    constructor ()
      ensures View() == NO_LOCKS && Safe(View())
    {
      table, held := map[], map[];
    }

    /** One pass of the request loop: look the entry up, grant if compatible. */
    method Attempt(t: TxnId, k: Key, mode: Mode) returns (granted: bool)
      requires Safe(View()) && t != INVALID_TXN
      modifies this
      ensures granted == CanGrant(StateOf(old(View()), k), t, mode)
      ensures granted <==> !Blocked(old(View()), t, k, mode)
      ensures View() == if granted then Grant(old(View()), t, k, mode) else old(View())
      ensures Safe(View())
      ensures granted ==> Holds(View(), t, k) && (mode.Exclusive? ==> HoldsExclusive(View(), t, k))
    {
      ghost var before := View();
      GrantedUnlessBlocked(before, t, k, mode);
      if k !in table {
        table := table[k := UNLOCKED];   // the subscript creates a missing entry
      }
      granted := CanGrant(table[k], t, mode);
      if !granted {
        assert table == before.table;
        return;
      }
      GrantIsSafe(before, t, k, mode);
      if mode.Shared? {
        if table[k].exclusive == t {
          assert table == before.table;
          return;
        }
        table := table[k := LockState(table[k].shared + {t}, table[k].exclusive)];
      } else {
        table := table[k := LockState(table[k].shared - {t}, t)];
      }
      held := held[t := (if t in held then held[t] else []) + [k]];
      assert View() == Grant(before, t, k, mode);
    }

    /** A waiter gives up: it erases the entry of its own key if nobody holds it. */
    method Timeout(k: Key)
      requires Safe(Pruned(View(), k))
      modifies this
      ensures View() == Pruned(old(View()), k) && Safe(View())
    {
      if k in table && table[k] == UNLOCKED {
        table := table - {k};
      }
    }

    method ReleaseAll(t: TxnId)
      requires Safe(View()) && t != INVALID_TXN
      modifies this
      ensures View() == Released(old(View()), t)
      ensures Safe(View()) && forall k :: !Holds(View(), t, k)
    {
      ghost var before := View();
      ReleasedIsSafe(before, t);
      if t !in held {
        forall k | k in before.table ensures Unheld(before.table[k], t) == before.table[k] {
          assert !Holds(before, t, k);
        }
        assert View() == Released(before, t);
        return;
      }
      var keys := held[t];
      var i := 0;
      while i < |keys|
        invariant 0 <= i <= |keys| && held == before.held
        invariant forall k :: k in table ==> k in before.table
        invariant forall k :: k in before.table && k !in keys[..i] ==> k in table && table[k] == before.table[k]
        invariant forall k :: k in before.table && k in keys[..i] ==>
                                Lookup(table, k) == if Unheld(before.table[k], t) == UNLOCKED then None
                                                    else Some(Unheld(before.table[k], t))
      {
        var k := keys[i];
        ghost var done := keys[..i];
        assert keys[..i + 1] == done + [k];
        if k in table {
          assert (before.table[k].shared - {t}) - {t} == before.table[k].shared - {t};
          var ls := Unheld(table[k], t);
          if ls == UNLOCKED {
            table := table - {k};
          } else {
            table := table[k := ls];
          }
        }
        i := i + 1;
      }
      held := held - {t};
      forall k | k in before.table && k !in keys
        ensures Unheld(before.table[k], t) == before.table[k]
      {
        assert !Holds(before, t, k);
      }
      assert keys[..i] == keys;
      assert table == Released(before, t).table;
    }
  }
}
