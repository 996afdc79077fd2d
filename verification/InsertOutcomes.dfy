/** What becomes of an insert: decided by the pages on the search path before the call. */
module InsertOutcomes {
  import opened Base
  import opened Nodes
  import opened Trees
  import opened TreeBooks

  // ------------------------------------------------- why the limit is what it is

  function Zeros(n: nat): (v: Value)
    ensures |v| == n
  {
    seq(n, i => 0)
  }

  /** A full page of cells whose costs are 1010, 1011, 1010 and 1009. */
  function TightLeaf(): Node {
    EmptyLeaf(NO_PAGE).(entries := [KV([1], Zeros(1003)), KV([2], Zeros(1004)), KV([3], Zeros(1003)), KV([4], Zeros(1002))])
  }

  /** One byte above the limit is too much: in a tree of one leaf whose cells and new cell cost
      at most 1011 bytes the half that should take the new cell refuses it, and it is lost. */
  lemma LimitIsTight(rank: Rank)
    requires Ordered(rank) && Sorted(rank, TightLeaf().entries) && rank([4]) < rank([5])
    ensures AllWithin(TightLeaf().entries + [KV([5], Zeros(1004))], LEAF_LIMIT + 1)
    ensures Outcome(rank, map[1 := TightLeaf()], [], 1, [5], Zeros(1004)) == Dropped
  {
    hide Ordered, Zeros, InsertCell, Costs, Present, SplitPoint;
    var n := TightLeaf();
    TightCosts();
    var es := n.entries;
    assert rank(es[1].key) < rank(es[3].key);
    AbsentAbove(rank, es, [5]);
    InsertCellRoom(rank, n, [5], Zeros(1004));
    assert InsertCell(rank, n, [5], Zeros(1004)) == (false, n) by { PlacedAbove(rank, n, [5], Zeros(1004)); }
  }

  lemma PlacedAbove(rank: Rank, n: Node, k: Key, v: Value)
    requires n.leaf && n.dead == 0 && (forall e :: e in n.entries ==> e.KV?) && !Present(rank, n.entries, k)
    requires Costs(n.entries) + Cost(KV(k, v)) > USABLE
    ensures InsertCell(rank, n, k, v) == (false, n)
  {
    hide Costs;
  }

  lemma TightCosts()
    ensures var n := TightLeaf(); SplitPoint(n) == 1 && Costs(n.entries) == USABLE && Costs(n.entries[1..]) == 3030
  {
    hide Zeros;
    var n := TightLeaf();
    var es := n.entries;
    CostsPrefix(es, 0);
    CostsPrefix(es, 1);
    CostsPrefix(es, 2);
    CostsPrefix(es, 3);
    assert es[..4] == es;
    CostsSplit(es, 1);
    assert SplitPoint(n) == 1 by { assert SplitFrom(es, 2020, 1, 1010) == 1; }
  }

  lemma AbsentAbove(rank: Rank, es: seq<Entry>, k: Key)
    requires Sorted(rank, es) && |es| > 0 && rank(es[|es| - 1].key) < rank(k)
    ensures !Present(rank, es, k)
  {
    LowerBoundIs(rank, es, k, |es|);
  }

  // ------------------------------------------------------ what an insert leads to

  /** What the caller sees: the code's own error, or a failed assertion. */
  datatype TreeError = TooLarge | AssertionFails

  /** What becomes of an insert. Dropped is one that returns normally without storing anything. */
  datatype Fate = Stored | Dropped | Refused | Broken

  /** Splitting the full page `n` leaves room for the separator in the half it belongs to. */
  ghost predicate SplitTakes(rank: Rank, n: Node, sep: Key) {
    && |n.entries| >= 2
    && var mid := PromotePoint(Compacted(n));
       Costs(if rank(sep) < rank(n.entries[mid].key) then n.entries[..mid] else n.entries[mid + 1..]) + Cost(KP(sep, 0)) <= USABLE
  }

  /** A separator finds its place above: in the parent, or by splitting it and sending another
      separator further up, or in a new root. */
  ghost predicate Ascends(rank: Rank, pages: map<PageId, Node>, crumbs: seq<PageId>, sep: Key)
    decreases |crumbs|
  {
    if crumbs == [] then Cost(KP(sep, 0)) <= USABLE
    else
      var q := crumbs[|crumbs| - 1];
      && q in pages
      && (Costs(pages[q].entries) + Cost(KP(sep, 0)) <= USABLE
          || (SplitTakes(rank, pages[q], sep)
              && Ascends(rank, pages, crumbs[..|crumbs| - 1], pages[q].entries[PromotePoint(Compacted(pages[q]))].key)))
  }

  /** After a leaf split the half responsible for `k` has room for its cell. */
  ghost predicate HalfTakes(rank: Rank, n: Node, k: Key, v: Value)
    requires SplitPoint(n) < |n.entries|
  {
    var s := SplitPoint(n);
    Costs(if rank(k) < rank(n.entries[s].key) then n.entries[..s] else n.entries[s..]) + Cost(KV(k, v)) <= USABLE
  }

  /** What inserting at `leaf`, reached by way of `crumbs`, comes to; decided by the pages before the call. */
  ghost function Outcome(rank: Rank, pages: map<PageId, Node>, crumbs: seq<PageId>, leaf: PageId, k: Key, v: Value): Fate
    requires leaf in pages && pages[leaf].leaf && forall e :: e in pages[leaf].entries ==> e.KV?
  {
    if Cost(KV(k, v)) > USABLE then Refused
    else
      var (ok, n) := InsertCell(rank, pages[leaf], k, v);
      if ok then Stored
      else if |n.entries| < 2 || SplitPoint(n) >= |n.entries| then Broken
      else if !Ascends(rank, pages, crumbs, n.entries[SplitPoint(n)].key) then Broken
      else if HalfTakes(rank, n, k, v) then Stored
      else Dropped
  }

  lemma {:induction false} AscendsFrame(rank: Rank, pages: map<PageId, Node>, pages': map<PageId, Node>, crumbs: seq<PageId>, sep: Key)
    requires forall c :: c in crumbs ==> c in pages && c in pages' && pages'[c].entries == pages[c].entries
    ensures Ascends(rank, pages', crumbs, sep) == Ascends(rank, pages, crumbs, sep)
    decreases |crumbs|
  {
    hide SplitFrom, Costs;
    if crumbs != [] {
      var q, init := crumbs[|crumbs| - 1], crumbs[..|crumbs| - 1];
      assert q in crumbs && forall c :: c in init ==> c in crumbs;
      if |pages[q].entries| >= 2 {
        AscendsFrame(rank, pages, pages', init, pages[q].entries[PromotePoint(Compacted(pages[q]))].key);
      }
    }
  }

  // ------------------------------------------------------ the same, by sizes alone

  /** The cells of a page other than the one for `k`. */
  function Without(rank: Rank, es: seq<Entry>, k: Key): seq<Entry> {
    if Present(rank, es, k) then Removed(es, LowerBound(rank, es, k)) else es
  }

  /** An insert in terms of cell sizes. Where the other cells leave room it is stored. Else they are cut
      at the only balanced place `r`; the separator must find a place above, and the half in charge of
      the key must have room for it, or the key is lost. */
  lemma OutcomeByCosts(rank: Rank, pages: map<PageId, Node>, crumbs: seq<PageId>, leaf: PageId, k: Key, v: Value, r: nat)
    requires leaf in pages && pages[leaf].leaf && forall e :: e in pages[leaf].entries ==> e.KV?
    requires Sorted(rank, pages[leaf].entries) && Used(pages[leaf]) <= USABLE && Cost(KV(k, v)) <= USABLE
    ensures var es := Without(rank, pages[leaf].entries, k);
            var outcome := Outcome(rank, pages, crumbs, leaf, k, v);
            if Costs(es) + Cost(KV(k, v)) <= USABLE then outcome == Stored
            else if |es| < 2 then outcome == Broken
            else CutsAt(es, Costs(es) / 2, r) ==>
              && r < |es|
              && outcome == if !Ascends(rank, pages, crumbs, es[r].key) then Broken
                            else if Costs(if rank(k) < rank(es[r].key) then es[..r] else es[r..]) + Cost(KV(k, v)) <= USABLE then Stored
                            else Dropped
  {
    hide Costs, SplitPoint, Ascends, Sorted, Removed;
    var n0 := pages[leaf];
    var i := LowerBound(rank, n0.entries, k);
    var es := Without(rank, n0.entries, k);
    InsertCellRoom(rank, n0, k, v);
    if Present(rank, n0.entries, k) { CostsRemoved(n0.entries, i); }
    var (ok, n) := InsertCell(rank, n0, k, v);
    if !ok {
      RefusedCells(rank, n0, k, v);
      if |es| >= 2 {
        SplitPointIs(n, r);
        SplitIsInside(n);
      }
    }
  }

  lemma RefusedCells(rank: Rank, n: Node, k: Key, v: Value)
    requires n.leaf && (forall e :: e in n.entries ==> e.KV?) && !InsertCell(rank, n, k, v).0
    ensures var n' := InsertCell(rank, n, k, v).1; n'.entries == Without(rank, n.entries, k) && n'.dead == 0
  {
    hide Costs;
    var i := LowerBound(rank, n.entries, k);
    if Present(rank, n.entries, k) {
      PlaceRoom(RemoveAt(n, i), i, KV(k, v));
    } else {
      PlaceRoom(n, i, KV(k, v));
    }
  }

  /** Splitting a full parent in terms of cell sizes: the separator goes to the half it belongs to. */
  lemma SplitTakesByCosts(rank: Rank, n: Node, sep: Key, mid: nat)
    requires PromotesAt(n.entries, Costs(n.entries) / 2, mid)
    ensures SplitTakes(rank, n, sep) <==>
            Costs(if rank(sep) < rank(n.entries[mid].key) then n.entries[..mid] else n.entries[mid + 1..]) + Cost(KP(sep, 0)) <= USABLE
  {
    hide Costs, PromotePoint;
    PromotePointIs(Compacted(n), mid);
  }

  /** The separator a full page sends up when it is split; what is being inserted plays no part. */
  function Promoted(n: Node): Key {
    if |n.entries| >= 2 then n.entries[PromotePoint(Compacted(n))].key else []
  }

  ghost predicate Known(pages: map<PageId, Node>, crumbs: seq<PageId>) {
    forall j :: 0 <= j < |crumbs| ==> crumbs[j] in pages
  }

  /** The separator that reaches the page `crumbs[j]`, or a new root for -1, if all below were split. */
  ghost function Arriving(pages: map<PageId, Node>, crumbs: seq<PageId>, sep: Key, j: int): Key
    requires -1 <= j < |crumbs| && Known(pages, crumbs)
  {
    if j == |crumbs| - 1 then sep else Promoted(pages[crumbs[j + 1]])
  }

  /** All pages below `crumbs[s]` take their separator by splitting, and `crumbs[s]` has room, or a new root for -1. */
  ghost predicate RestsAt(rank: Rank, pages: map<PageId, Node>, crumbs: seq<PageId>, sep: Key, s: int)
    requires Known(pages, crumbs)
  {
    && -1 <= s < |crumbs|
    && (if s >= 0 then Costs(pages[crumbs[s]].entries) else 0) + Cost(KP(Arriving(pages, crumbs, sep, s), 0)) <= USABLE
    && forall j :: s < j < |crumbs| ==> SplitTakes(rank, pages[crumbs[j]], Arriving(pages, crumbs, sep, j))
  }

  /** A separator finds its place exactly when there is a level for it to come to rest on. */
  lemma {:induction false} AscendsToALevel(rank: Rank, pages: map<PageId, Node>, crumbs: seq<PageId>, sep: Key)
    requires Known(pages, crumbs)
    ensures Ascends(rank, pages, crumbs, sep) <==> exists s :: RestsAt(rank, pages, crumbs, sep, s)
    decreases |crumbs|
  {
    hide Costs, SplitTakes, PromotePoint;
    if crumbs == [] {
      assert Ascends(rank, pages, crumbs, sep) ==> RestsAt(rank, pages, crumbs, sep, -1);
    } else {
      var n, init := |crumbs| - 1, crumbs[..|crumbs| - 1];
      assert Known(pages, init);
      var up := Promoted(pages[crumbs[n]]);
      AscendsToALevel(rank, pages, init, up);
      forall s | s < n ensures RestsAt(rank, pages, crumbs, sep, s) <==>
                               SplitTakes(rank, pages[crumbs[n]], sep) && RestsAt(rank, pages, init, up, s)
      {
        if s >= -1 { RestsBelow(rank, pages, crumbs, sep, s); }
      }
      assert RestsAt(rank, pages, crumbs, sep, n) <==> Costs(pages[crumbs[n]].entries) + Cost(KP(sep, 0)) <= USABLE;
    }
  }

  lemma RestsBelow(rank: Rank, pages: map<PageId, Node>, crumbs: seq<PageId>, sep: Key, s: int)
    requires crumbs != [] && Known(pages, crumbs) && -1 <= s < |crumbs| - 1
    ensures var n, init := |crumbs| - 1, crumbs[..|crumbs| - 1];
            var up := Promoted(pages[crumbs[n]]);
            && Known(pages, init)
            && (RestsAt(rank, pages, crumbs, sep, s) <==> SplitTakes(rank, pages[crumbs[n]], sep) && RestsAt(rank, pages, init, up, s))
  {
    hide Costs, SplitTakes, Promoted;
    var n, init := |crumbs| - 1, crumbs[..|crumbs| - 1];
    var up := Promoted(pages[crumbs[n]]);
    assert Known(pages, init);
    forall j | -1 <= j < n ensures Arriving(pages, init, up, j) == Arriving(pages, crumbs, sep, j) { }
    if RestsAt(rank, pages, init, up, s) && SplitTakes(rank, pages[crumbs[n]], sep) {
      forall j | s < j < |crumbs| ensures SplitTakes(rank, pages[crumbs[j]], Arriving(pages, crumbs, sep, j)) {
        if j < n { assert init[j] == crumbs[j]; }
      }
    }
    if RestsAt(rank, pages, crumbs, sep, s) {
      assert SplitTakes(rank, pages[crumbs[n]], Arriving(pages, crumbs, sep, n));
      forall j | s < j < n ensures SplitTakes(rank, pages[init[j]], Arriving(pages, init, up, j)) {
        assert init[j] == crumbs[j];
      }
    }
  }
}
