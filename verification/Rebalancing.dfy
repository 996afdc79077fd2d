/** Rebalancing after a removal: which repair the code picks, when that repair is sound, and
    what the sound repairs keep. */
module Rebalancing {
  import opened Base
  import opened Nodes
  import opened Trees
  import opened TreeEdits
  import opened TreeRepairs
  import opened TreeBooks

  /** Position of `x` among the children, or one past the last position. */
  function ChildFrom(n: Node, x: PageId, from: nat): (i: nat)
    requires from <= |n.entries| + 1
    ensures from <= i <= |n.entries| + 1
    ensures i <= |n.entries| ==> Kid(n, i) == x
    ensures forall j :: from <= j < i ==> Kid(n, j) != x
    decreases |n.entries| + 1 - from
  {
    if from == |n.entries| + 1 || Kid(n, from) == x then from else ChildFrom(n, x, from + 1)
  }

  function ChildIndex(n: Node, x: PageId): (i: nat)
    ensures i <= |n.entries| + 1
    ensures i <= |n.entries| ==> Kid(n, i) == x
    ensures forall j :: 0 <= j < i ==> Kid(n, j) != x
  {
    ChildFrom(n, x, 0)
  }

  /** The code's scan of the parent. */
  method LocateChild(n: Node, x: PageId) returns (i: nat)
    ensures i == ChildIndex(n, x)
  {
    i := 0;
    while i <= |n.entries| && Kid(n, i) != x
      invariant i <= |n.entries| + 1 && ChildIndex(n, x) == ChildFrom(n, x, i)
    {
      i := i + 1;
    }
  }

  // --------------------------------------------------------------- node repairs

  /** Rename separator `s`: in place if the length is the same, else remove and insert again. */
  function MoveSeparator(rank: Rank, n: Node, s: nat, b: Key): (bool, Node)
    requires s < |n.entries|
  {
    if |n.entries[s].key| == |b| then (true, n.(entries := n.entries[s := KP(b, ChildOf(n.entries[s]))]))
    else InsertSep(rank, RemoveAt(n, s), b, ChildOf(n.entries[s]))
  }

  predicate SeparatorFits(n: Node, s: nat, b: Key)
    requires s < |n.entries|
  {
    Costs(n.entries) - Cost(n.entries[s]) + Cost(KP(b, 0)) <= USABLE
  }

  /** Between the same neighbours the renamed separator keeps its slot, and succeeds exactly when it fits. */
  lemma MovedSeparator(rank: Rank, n: Node, s: nat, b: Key)
    requires s < |n.entries| && Sorted(rank, n.entries) && n.entries[s].KP? && Used(n) <= USABLE
    requires s > 0 ==> rank(n.entries[s - 1].key) < rank(b)
    requires s + 1 < |n.entries| ==> rank(b) < rank(n.entries[s + 1].key)
    ensures var (ok, n') := MoveSeparator(rank, n, s, b);
            && (ok <==> SeparatorFits(n, s, b))
            && (ok ==> n' == n.(entries := n.entries[s := KP(b, ChildOf(n.entries[s]))], dead := n'.dead) && Used(n') <= USABLE)
  {
    hide Costs, Removed, Inserted;
    var e, e' := n.entries[s], KP(b, ChildOf(n.entries[s]));
    var es' := n.entries[s := e'];
    CostsRemoved(n.entries, s);
    CostsRemoved(es', s);
    assert Removed(es', s) == Removed(n.entries, s) by { RemovedEntries(n.entries, s); RemovedEntries(es', s); }
    if |e.key| != |b| {
      var m := RemoveAt(n, s);
      RemovedDrops(rank, n.entries, s);
      RemovedEntries(n.entries, s);
      assert s > 0 ==> m.entries[s - 1] == n.entries[s - 1];
      assert s < |m.entries| ==> m.entries[s] == n.entries[s + 1];
      LowerBoundIs(rank, m.entries, b, s);
      PlaceRoom(m, s, e');
      assert Inserted(m.entries, s, e') == es' by { InsertedEntries(m.entries, s, e'); }
    }
  }

  /** Wherever the renamed separator ends up, it is there exactly when it fits. */
  lemma RenamedRoom(rank: Rank, n: Node, s: nat, b: Key)
    requires s < |n.entries| && n.entries[s].KP? && Used(n) <= USABLE
    ensures var (ok, n') := MoveSeparator(rank, n, s, b);
            && (ok <==> SeparatorFits(n, s, b))
            && n' == n.(entries := n'.entries, dead := n'.dead)
            && (ok && |n.entries[s].key| != |b| ==>
                 n'.entries == Inserted(Removed(n.entries, s), LowerBound(rank, Removed(n.entries, s), b), KP(b, ChildOf(n.entries[s]))))
  {
    hide Costs, Removed, Inserted, LowerBound;
    CostsRemoved(n.entries, s);
    if |n.entries[s].key| != |b| {
      var m := RemoveAt(n, s);
      PlaceRoom(m, LowerBound(rank, m.entries, b), KP(b, ChildOf(n.entries[s])));
      PlacedKeeps(m, LowerBound(rank, m.entries, b), KP(b, ChildOf(n.entries[s])));
    }
  }

  /** Appending one more cell above all others. */
  lemma Appended(rank: Rank, n: Node, e: Entry)
    requires Sorted(rank, n.entries + [e])
    ensures LowerBound(rank, n.entries, e.key) == |n.entries|
    ensures var (ok, n') := PlaceAt(n, |n.entries|, e);
            && (ok <==> Costs(n.entries) + Cost(e) <= USABLE)
            && (ok ==> n' == n.(entries := n.entries + [e], dead := if Used(n) + Cost(e) <= USABLE then n.dead else 0) && Used(n') <= USABLE)
  {
    hide Costs;
    var es := n.entries + [e];
    if n.entries != [] {
      assert es[|n.entries| - 1] == n.entries[|n.entries| - 1] && es[|n.entries|] == e;
    }
    assert Sorted(rank, n.entries) by { HalvesSorted(rank, es, |n.entries|); assert es[..|n.entries|] == n.entries; }
    LowerBoundIs(rank, n.entries, e.key, |n.entries|);
    PlaceRoom(n, |n.entries|, e);
    assert Inserted(n.entries, |n.entries|, e) == es;
  }

  /** Adding cells of this total cost compacts a page once the gap is used up. */
  function DeadAfter(n: Node, more: nat): nat { if Used(n) + more <= USABLE then n.dead else 0 }

  /** Copy every cell of the right leaf into the left one; succeeds exactly when they fit. */
  method MergeLeaves(rank: Rank, l: Node, r: Node) returns (ok: bool, n: Node)
    requires l.leaf && Used(l) <= USABLE && Sorted(rank, l.entries + r.entries)
    requires forall e :: e in l.entries + r.entries ==> e.KV?
    ensures ok <==> Costs(l.entries) + Costs(r.entries) <= USABLE
    ensures ok ==> Used(n) <= USABLE
    ensures ok ==> n == l.(entries := l.entries + r.entries, dead := DeadAfter(l, Costs(r.entries)))
  {
    hide Costs, LowerBound, PlaceAt, Sorted;
    n := l;
    assert l.entries + r.entries[..0] == l.entries;
    CostsNone(r.entries);
    for i := 0 to |r.entries|
      invariant n == l.(entries := l.entries + r.entries[..i], dead := DeadAfter(l, Costs(r.entries[..i]))) && Used(n) <= USABLE
    {
      var e := r.entries[i];
      CostsPrefix(r.entries, i);
      CostsSplit(r.entries, i + 1);
      CostsConcat(l.entries, r.entries[..i]);
      MergeStep(rank, l.entries, r.entries, i);
      assert forall x :: x in n.entries ==> x in l.entries + r.entries;
      assert e in l.entries + r.entries;
      Appended(rank, n, e);
      AbsentAt(rank, n.entries, e.key);
      ok, n := InsertCell(rank, n, e.key, e.val).0, InsertCell(rank, n, e.key, e.val).1;
      if !ok { return; }
      assert l.entries + r.entries[..i] + [e] == l.entries + r.entries[..i + 1];
    }
    assert r.entries[..|r.entries|] == r.entries;
    CostsConcat(l.entries, r.entries);
    ok := true;
  }

  lemma MergeStep(rank: Rank, a: seq<Entry>, b: seq<Entry>, i: nat)
    requires Sorted(rank, a + b) && i < |b|
    ensures Sorted(rank, a + b[..i] + [b[i]])
  {
    assert a + b[..i] + [b[i]] == (a + b)[..|a| + i + 1];
    HalvesSorted(rank, a + b, |a| + i + 1);
  }

  lemma AbsentAt(rank: Rank, es: seq<Entry>, k: Key)
    requires LowerBound(rank, es, k) == |es|
    ensures !Present(rank, es, k)
  {
  }

  /** Pull a separator down into its place, then copy every entry of the right page. */
  method MergeInternals(rank: Rank, l: Node, sep: Key, r: Node) returns (ok: bool, n: Node)
    requires !l.leaf && Used(l) <= USABLE
    requires Sorted(rank, Inserted(l.entries, LowerBound(rank, l.entries, sep), KP(sep, r.first)) + r.entries)
    requires forall e :: e in r.entries ==> e.KP?
    ensures ok <==> Costs(l.entries) + Cost(KP(sep, r.first)) + Costs(r.entries) <= USABLE
    ensures ok ==>
      && n == l.(entries := Inserted(l.entries, LowerBound(rank, l.entries, sep), KP(sep, r.first)) + r.entries,
                 dead := DeadAfter(l, Cost(KP(sep, r.first)) + Costs(r.entries)))
      && Used(n) <= USABLE
  {
    hide Costs, LowerBound, PlaceAt, Sorted, Inserted;
    ghost var j := LowerBound(rank, l.entries, sep);
    ghost var head := Inserted(l.entries, j, KP(sep, r.first));
    CostsInserted(l.entries, j, KP(sep, r.first));
    PlaceRoom(l, j, KP(sep, r.first));
    PlacedKeeps(l, j, KP(sep, r.first));
    ok, n := InsertSep(rank, l, sep, r.first).0, InsertSep(rank, l, sep, r.first).1;
    if !ok { return; }
    assert head + r.entries[..0] == head;
    CostsNone(r.entries);
    for i := 0 to |r.entries|
      invariant n == l.(entries := head + r.entries[..i], dead := DeadAfter(l, Cost(KP(sep, r.first)) + Costs(r.entries[..i])))
      invariant Used(n) <= USABLE
    {
      var e := r.entries[i];
      assert e in r.entries;
      CostsPrefix(r.entries, i);
      CostsSplit(r.entries, i + 1);
      CostsConcat(head, r.entries[..i]);
      MergeStep(rank, head, r.entries, i);
      Appended(rank, n, e);
      ok, n := InsertSep(rank, n, e.key, e.child).0, InsertSep(rank, n, e.key, e.child).1;
      if !ok { return; }
      assert head + r.entries[..i] + [e] == head + r.entries[..i + 1];
    }
    assert r.entries[..|r.entries|] == r.entries;
    CostsConcat(head, r.entries);
    ok := true;
  }

  lemma CostsNone(es: seq<Entry>)
    ensures Costs(es[..0]) == 0
  {
  }

  lemma PlacedKeeps(n: Node, i: nat, e: Entry)
    requires i <= |n.entries|
    ensures var n' := PlaceAt(n, i, e).1; n' == n.(entries := n'.entries, dead := n'.dead)
  {
    hide Costs, Inserted;
  }

  /** Two underflowing leaves always fit into one. */
  lemma UnderflowingLeavesFit(l: Node, r: Node)
    requires Underflow(l) && Underflow(r)
    ensures Costs(l.entries) + Costs(r.entries) <= USABLE
  {
  }

  /** A page without dead bytes that does not underflow has a cell to spare. */
  lemma CompactDonorsSuffice(n: Node)
    requires n.dead == 0 && !Underflow(n) && AllWithin(n.entries, LEAF_LIMIT)
    ensures |n.entries| >= 2
  {
    if |n.entries| == 1 {
      assert n.entries == [n.entries[0]];
      CostsOne(n.entries[0]);
    }
  }

  /** A cell within the limit always fits into an underflowing leaf. */
  lemma SmallCellsFit(n: Node, e: Entry)
    requires Underflow(n) && Cost(e) <= LEAF_LIMIT
    ensures Costs(n.entries) + Cost(e) <= USABLE
  {
  }

  // ---------------------------------------------------------------- leaf loans

  /** One cell moves from one leaf to another that has no such key: no binding comes or goes. */
  lemma CellMoves(lim: nat, rank: Rank, donor: Node, j: nat, taker: Node)
    requires Ordered(rank) && donor.leaf && taker.leaf && Sorted(rank, donor.entries) && Sorted(rank, taker.entries)
    requires forall e :: e in donor.entries || e in taker.entries ==> e.KV?
    requires j < |donor.entries| && !HasKey(taker.entries, donor.entries[j].key)
    requires NodeSized(lim, donor) && NodeSized(lim, taker) && Costs(taker.entries) + Cost(donor.entries[j]) <= USABLE
    ensures var KV(k, v) := donor.entries[j];
            var d := RemoveAt(donor, j);
            var (ok, n) := InsertCell(rank, taker, k, v);
            && ok && n == taker.(entries := n.entries, dead := n.dead)
            && Sorted(rank, d.entries) && Sorted(rank, n.entries) && NodeSized(lim, d) && NodeSized(lim, n)
            && (forall e :: e in d.entries <==> e in donor.entries && e.key != k)
            && (forall e :: e in n.entries <==> e in taker.entries || e == KV(k, v))
  {
    hide Ordered, Costs, Removed, InsertCell, Sorted;
    var e := donor.entries[j];
    assert e in donor.entries;
    InsertCellContent(rank, taker, e.key, e.val);
    InsertCellRoom(rank, taker, e.key, e.val);
    PresentIffHas(rank, taker.entries, e.key);
    RemovedDrops(rank, donor.entries, j);
    CostsRemoved(donor.entries, j);
    SubWithin(donor.entries, Removed(donor.entries, j), lim);
    var n := InsertCell(rank, taker, e.key, e.val).1;
    SubWithin(taker.entries, n.entries, lim);
    NoSuchKey(taker.entries, e.key);
  }

  lemma NoSuchKey(es: seq<Entry>, k: Key)
    requires !HasKey(es, k)
    ensures forall e :: e in es ==> e.key != k
  {
    forall e | e in es ensures e.key != k {
      var i :| 0 <= i < |es| && es[i] == e;
    }
  }

  /** A leaf key makes an acceptable separator. */
  lemma SeparatorCost(lim: nat, es: seq<Entry>, i: nat, c: PageId)
    requires AllWithin(es, lim) && i < |es| && es[i].KV?
    ensures Cost(KP(es[i].key, c)) <= lim + 2
  {
  }

  lemma SortedUnique(rank: Rank, es: seq<Entry>, j: nat)
    requires Sorted(rank, es) && j < |es|
    ensures forall e :: e in es && e.key == es[j].key ==> e == es[j]
  {
    forall e | e in es && e.key == es[j].key ensures e == es[j] {
      var i :| 0 <= i < |es| && es[i] == e;
    }
  }

  /** The two leaves after a loan, with boundary `b` between them. */
  ghost predicate Lent(lim: nat, rank: Rank, t: Tree, q: PageId, s: nat, b: Key, l': Node, r': Node) {
    && q in t.pages && s < |t.pages[q].entries| && t.pages.Keys == t.info.Keys
    && var l, r := Kid(t.pages[q], s), Kid(t.pages[q], s + 1);
       && l in t.pages && r in t.pages
       && l' == t.pages[l].(entries := l'.entries, dead := l'.dead)
       && r' == t.pages[r].(entries := r'.entries, dead := r'.dead)
       && t.info[l].lo < rank(b) < t.info[r].hi && Cost(KP(b, r)) <= lim + 2
       && NodeOk(rank, l', t.info[l].(hi := rank(b))) && NodeOk(rank, r', t.info[r].(lo := rank(b)))
       && NodeSized(lim, l') && NodeSized(lim, r')
       && SameCells(t.pages[l].entries, t.pages[r].entries, l'.entries, r'.entries)
  }

  ghost predicate SameCells(a: seq<Entry>, b: seq<Entry>, a': seq<Entry>, b': seq<Entry>) {
    forall e :: e in a' || e in b' <==> e in a || e in b
  }

  /** The last cell of the left leaf moves to the right one and becomes the boundary. */
  lemma LentFromLeft(lim: nat, rank: Rank, t: Tree, q: PageId, s: nat)
    requires Ordered(rank) && Neighbours(rank, t, q, s)
    requires var l, r := t.pages[Kid(t.pages[q], s)], t.pages[Kid(t.pages[q], s + 1)];
             && l.leaf && l.entries != [] && NodeSized(lim, l) && NodeSized(lim, r)
             && t.info[Kid(t.pages[q], s)].lo < rank(l.entries[|l.entries| - 1].key)
             && Costs(r.entries) + Cost(l.entries[|l.entries| - 1]) <= USABLE
    ensures var l, r := t.pages[Kid(t.pages[q], s)], t.pages[Kid(t.pages[q], s + 1)];
            && (forall e :: e in r.entries ==> e.KV?) && l.entries[|l.entries| - 1].KV?
            && var KV(k, v) := l.entries[|l.entries| - 1];
               InsertCell(rank, r, k, v).0
               && Lent(lim, rank, t, q, s, k, RemoveAt(l, |l.entries| - 1), InsertCell(rank, r, k, v).1)
  {
    hide Ordered, Costs, InsertCell, RemoveAt, Removed, KidsOk, AttachedOk, ChainOk, NodeSized;
    var lp, rp := Kid(t.pages[q], s), Kid(t.pages[q], s + 1);
    var l, r, j := t.pages[lp], t.pages[rp], |t.pages[lp].entries| - 1;
    LeafCells(rank, l, t.info[lp]);
    LeafCells(rank, r, t.info[rp]);
    var KV(k, v) := l.entries[j];
    assert !HasKey(r.entries, k);
    CellMoves(lim, rank, l, j, r);
    SortedUnique(rank, l.entries, j);
    var l', r' := RemoveAt(l, j), InsertCell(rank, r, k, v).1;
    RemovedIs(l, j);
    BelowLast(rank, l.entries);
    LeafNodeOk(rank, l', l'.entries, t.info[lp].lo, rank(k));
    LeafNodeOk(rank, r', r'.entries, rank(k), t.info[rp].hi);
    LeafSeparator(lim, l, j, rp);
  }

  lemma LeafCells(rank: Rank, n: Node, x: Info)
    requires NodeOk(rank, n, x) && n.leaf
    ensures x.level == 0 && Sorted(rank, n.entries)
    ensures forall e :: e in n.entries ==> e.KV? && x.lo <= rank(e.key) < x.hi
    ensures forall i :: 0 <= i < |n.entries| ==> n.entries[i].KV? && x.lo <= rank(n.entries[i].key) < x.hi
  {
  }

  lemma RemovedIs(n: Node, j: nat)
    requires j < |n.entries|
    ensures RemoveAt(n, j) == n.(entries := Removed(n.entries, j), dead := RemoveAt(n, j).dead)
  {
  }

  lemma BelowLast(rank: Rank, es: seq<Entry>)
    requires Sorted(rank, es) && es != []
    ensures forall e :: e in es && e.key != es[|es| - 1].key ==> rank(e.key) < rank(es[|es| - 1].key)
  {
    forall e | e in es && e.key != es[|es| - 1].key ensures rank(e.key) < rank(es[|es| - 1].key) {
      var i :| 0 <= i < |es| && es[i] == e;
    }
  }

  lemma LeafSeparator(lim: nat, n: Node, j: nat, c: PageId)
    requires NodeSized(lim, n) && n.leaf && j < |n.entries| && n.entries[j].KV?
    ensures Cost(KP(n.entries[j].key, c)) <= lim + 2
  {
    SeparatorCost(lim, n.entries, j, c);
  }

  /** The first cell of the right leaf moves to the left one; its second key becomes the boundary. */
  lemma LentFromRight(lim: nat, rank: Rank, t: Tree, q: PageId, s: nat)
    requires Ordered(rank) && Neighbours(rank, t, q, s)
    requires var l, r := t.pages[Kid(t.pages[q], s)], t.pages[Kid(t.pages[q], s + 1)];
             && l.leaf && |r.entries| >= 2 && NodeSized(lim, l) && NodeSized(lim, r)
             && Costs(l.entries) + Cost(r.entries[0]) <= USABLE
    ensures var l, r := t.pages[Kid(t.pages[q], s)], t.pages[Kid(t.pages[q], s + 1)];
            && (forall e :: e in l.entries ==> e.KV?) && r.entries[0].KV?
            && var KV(k, v) := r.entries[0];
               InsertCell(rank, l, k, v).0
               && Lent(lim, rank, t, q, s, r.entries[1].key, InsertCell(rank, l, k, v).1, RemoveAt(r, 0))
               && RemoveAt(r, 0).entries != [] && RemoveAt(r, 0).entries[0].key == r.entries[1].key
  {
    hide Ordered, Costs, InsertCell, RemoveAt, Removed, KidsOk, AttachedOk, ChainOk, NodeSized;
    var lp, rp := Kid(t.pages[q], s), Kid(t.pages[q], s + 1);
    var l, r := t.pages[lp], t.pages[rp];
    LeafCells(rank, l, t.info[lp]);
    LeafCells(rank, r, t.info[rp]);
    var KV(k, v) := r.entries[0];
    var b := r.entries[1].key;
    assert rank(k) < rank(b);
    assert !HasKey(l.entries, k);
    CellMoves(lim, rank, r, 0, l);
    SortedUnique(rank, r.entries, 0);
    var l', r' := InsertCell(rank, l, k, v).1, RemoveAt(r, 0);
    RemovedIs(r, 0);
    RemovedEntries(r.entries, 0);
    AboveFirst(rank, r.entries);
    LeafNodeOk(rank, l', l'.entries, t.info[lp].lo, rank(b));
    LeafNodeOk(rank, r', r'.entries, rank(b), t.info[rp].hi);
    LeafSeparator(lim, r, 1, rp);
  }

  lemma AboveFirst(rank: Rank, es: seq<Entry>)
    requires Sorted(rank, es) && |es| >= 2
    ensures forall e :: e in es && e.key != es[0].key ==> rank(e.key) >= rank(es[1].key)
  {
    forall e | e in es && e.key != es[0].key ensures rank(e.key) >= rank(es[1].key) {
      var i :| 0 <= i < |es| && es[i] == e;
      if i > 1 { assert rank(es[1].key) < rank(es[i].key); }
    }
  }

  /** The bindings of two pages are shared out anew; all other leaves keep theirs. */
  lemma StoresShared(pages: map<PageId, Node>, pages': map<PageId, Node>, l: PageId, r: PageId, m: map<Key, Value>)
    requires Stores(pages, m) && l in pages && r in pages && l in pages' && pages[l].leaf && pages[r].leaf && pages'[l].leaf
    requires r in pages' ==> pages'[r].leaf
    requires SameCells(pages[l].entries, pages[r].entries, pages'[l].entries, if r in pages' then pages'[r].entries else [])
    requires forall p :: p in pages && p != l && p != r ==> p in pages' && pages'[p].leaf == pages[p].leaf
                                                            && (pages[p].leaf ==> pages'[p].entries == pages[p].entries)
    requires forall p :: p in pages' ==> p in pages
    ensures Stores(pages', m)
  {
    forall e ensures HasBinding(pages', e) <==> HasBinding(pages, e) {
      if HasBinding(pages, e) {
        var p :| p in pages && pages[p].leaf && e in pages[p].entries;
        if p != l && p != r { assert p in pages'; }
      }
      if HasBinding(pages', e) {
        var p :| p in pages' && pages'[p].leaf && e in pages'[p].entries;
        assert p in pages;
      }
    }
  }

  /** A loan whose new separator fits keeps the whole tree in order. */
  lemma LoanKeeps(lim: nat, rank: Rank, t: Tree, q: PageId, s: nat, b: Key, l': Node, r': Node, m: map<Key, Value>)
    requires Shape(rank, t) && Neighbours(rank, t, q, s) && Sized(lim, t.pages) && Stores(t.pages, m)
    requires t.pages[Kid(t.pages[q], s)].leaf && Lent(lim, rank, t, q, s, b, l', r') && SeparatorFits(t.pages[q], s, b)
    ensures var (ok, q') := MoveSeparator(rank, t.pages[q], s, b);
            var t' := Rebound(rank, t, q, s, b, q'.dead, l'.entries, l'.dead, r'.entries, r'.dead);
            && ok && Shape(rank, t') && Sized(lim, t'.pages) && Stores(t'.pages, m) && t'.pages.Keys == t.pages.Keys
            && t'.root == t.root && t'.pend == Whole
            && t'.pages == t.pages[q := q'][Kid(t.pages[q], s) := l'][Kid(t.pages[q], s + 1) := r']
  {
    hide Shape, NodeSized, Stores, Costs, MoveSeparator, SeparatorFits, PageOk, Rebound, Sorted;
    var l, r := Kid(t.pages[q], s), Kid(t.pages[q], s + 1);
    assert NodeSized(lim, t.pages[q]);
    BoundaryBetween(rank, t, q, s, b);
    SizedParent(lim, t.pages[q], s, b);
    MovedSeparator(rank, t.pages[q], s, b);
    var q' := MoveSeparator(rank, t.pages[q], s, b).1;
    var t' := Rebound(rank, t, q, s, b, q'.dead, l'.entries, l'.dead, r'.entries, r'.dead);
    assert NodeOk(rank, t.pages[l].(entries := l'.entries), t.info[l].(hi := rank(b))) by {
      SameNodeOk(rank, l', t.pages[l].(entries := l'.entries), t.info[l].(hi := rank(b)));
    }
    assert NodeOk(rank, t.pages[r].(entries := r'.entries), t.info[r].(lo := rank(b))) by {
      SameNodeOk(rank, r', t.pages[r].(entries := r'.entries), t.info[r].(lo := rank(b)));
    }
    ReboundFrame(rank, t, q, s, b, q'.dead, l'.entries, l'.dead, r'.entries, r'.dead);
    ReboundShape(rank, t, q, s, b, q'.dead, l'.entries, l'.dead, r'.entries, r'.dead);
    assert NodeSized(lim, q') by { ReplacedSized(lim, t.pages[q], s, b, q'); }
    StoresShared(t.pages, t'.pages, l, r, m);
    var ps := t.pages[q := q'][l := l'][r := r'];
    assert ps.Keys == t'.pages.Keys;
    assert forall c :: c in ps ==> ps[c] == t'.pages[c];
  }

  lemma BoundaryBetween(rank: Rank, t: Tree, q: PageId, s: nat, b: Key)
    requires Neighbours(rank, t, q, s)
    requires t.info[Kid(t.pages[q], s)].lo < rank(b) < t.info[Kid(t.pages[q], s + 1)].hi
    ensures var n := t.pages[q];
            && Sorted(rank, n.entries) && n.entries[s].KP? && ChildOf(n.entries[s]) == Kid(n, s + 1)
            && (s > 0 ==> rank(n.entries[s - 1].key) < rank(b))
            && (s + 1 < |n.entries| ==> rank(b) < rank(n.entries[s + 1].key))
  {
    hide AttachedOk, ChainOk, IsKid;
    assert KidOk(rank, t, q, s) && KidOk(rank, t, q, s + 1);
  }

  lemma SizedParent(lim: nat, n: Node, s: nat, b: Key)
    requires NodeSized(lim, n)
    ensures Used(n) <= USABLE
  {
  }

  lemma ReplacedSized(lim: nat, n: Node, s: nat, b: Key, n': Node)
    requires NodeSized(lim, n) && !n.leaf && s < |n.entries| && Cost(KP(b, ChildOf(n.entries[s]))) <= lim + 2
    requires n' == n.(entries := n.entries[s := KP(b, ChildOf(n.entries[s]))], dead := n'.dead) && Used(n') <= USABLE
    ensures NodeSized(lim, n')
  {
    hide Costs;
  }

  // -------------------------------------------------------------------- merges

  /** The cells of two neighbouring leaves follow one another. */
  lemma LeavesInOrder(rank: Rank, t: Tree, q: PageId, s: nat)
    requires Neighbours(rank, t, q, s) && t.pages[Kid(t.pages[q], s)].leaf
    ensures var l, r := t.pages[Kid(t.pages[q], s)], t.pages[Kid(t.pages[q], s + 1)];
            && Sorted(rank, l.entries + r.entries) && (forall e :: e in l.entries + r.entries ==> e.KV?)
            && NodeOk(rank, l.(entries := l.entries + r.entries),
                      t.info[Kid(t.pages[q], s)].(hi := t.info[Kid(t.pages[q], s + 1)].hi))
  {
    hide KidsOk, AttachedOk, ChainOk;
    var lp, rp := Kid(t.pages[q], s), Kid(t.pages[q], s + 1);
    LeafCells(rank, t.pages[lp], t.info[lp]);
    LeafCells(rank, t.pages[rp], t.info[rp]);
  }

  lemma InternalsInOrder(rank: Rank, t: Tree, q: PageId, s: nat)
    requires Neighbours(rank, t, q, s) && !t.pages[Kid(t.pages[q], s)].leaf
    ensures var l, r := t.pages[Kid(t.pages[q], s)], t.pages[Kid(t.pages[q], s + 1)];
            && Sorted(rank, l.entries + [KP(t.pages[q].entries[s].key, r.first)] + r.entries)
            && LowerBound(rank, l.entries, t.pages[q].entries[s].key) == |l.entries|
            && Inserted(l.entries, |l.entries|, KP(t.pages[q].entries[s].key, r.first)) == l.entries + [KP(t.pages[q].entries[s].key, r.first)]
            && (forall e :: e in r.entries ==> e.KP?)
  {
    hide KidsOk, AttachedOk, ChainOk;
    var l := t.pages[Kid(t.pages[q], s)];
    LowerBoundIs(rank, l.entries, t.pages[q].entries[s].key, |l.entries|);
  }

  /** The tree after child `s + 1` of `q` was merged into child `s`. */
  function Merged(t: Tree, q: PageId, s: nat, dq: nat, n: Node): Tree
    requires q in t.pages && s < |t.pages[q].entries| && t.pages.Keys == t.info.Keys
    requires Kid(t.pages[q], s) in t.pages && Kid(t.pages[q], s + 1) in t.pages
  {
    var cut := Detach(t, q, s, dq);
    if n.leaf then JoinLeaves(cut, n.entries, n.dead) else JoinInternal(cut, t.pages[q].entries[s].key, n.dead)
  }

  /** What the code computes for the surviving page. */
  ghost predicate MergedNode(t: Tree, q: PageId, s: nat, n: Node) {
    && q in t.pages && s < |t.pages[q].entries| && Kid(t.pages[q], s) in t.pages && Kid(t.pages[q], s + 1) in t.pages
    && Used(n) <= USABLE
    && var l, r := t.pages[Kid(t.pages[q], s)], t.pages[Kid(t.pages[q], s + 1)];
       if l.leaf then n == l.(entries := l.entries + r.entries, dead := n.dead)
       else n == JoinedNode(l, t.pages[q].entries[s].key, r, n.dead)
  }

  lemma MergedShape(rank: Rank, t: Tree, q: PageId, s: nat, dq: nat, n: Node)
    requires Shape(rank, t) && Neighbours(rank, t, q, s) && MergedNode(t, q, s, n)
    ensures Shape(rank, Merged(t, q, s, dq, n))
  {
    hide Shape, PageOk, NodeOk, Costs, Detach, JoinLeaves, JoinInternal;
    var cut := Detach(t, q, s, dq);
    DetachShape(rank, t, q, s, dq);
    DetachFrame(rank, t, q, s, dq);
    DetachInfo(t, q, s, dq);
    PagesOk(rank, cut, cut.pend.left, cut.pend.right);
    if n.leaf {
      LeavesInOrder(rank, t, q, s);
      JoinShape(rank, cut, n.entries, n.dead);
    } else {
      FuseShape(rank, cut, t.pages[q].entries[s].key, n.dead);
    }
  }

  lemma PagesOk(rank: Rank, t: Tree, l: PageId, r: PageId)
    requires Shape(rank, t) && l in t.pages && r in t.pages
    ensures Framed(t) && PageOk(rank, t, l) && PageOk(rank, t, r)
  {
    hide PageOk;
  }

  /** Pages other than the survivor: the parent loses a separator, the right page its existence. */
  lemma MergedPages(rank: Rank, t: Tree, q: PageId, s: nat, n: Node)
    requires Shape(rank, t) && Neighbours(rank, t, q, s) && MergedNode(t, q, s, n)
    ensures var l, r := Kid(t.pages[q], s), Kid(t.pages[q], s + 1);
            var q' := RemoveAt(t.pages[q], s);
            var t' := Merged(t, q, s, q'.dead, n);
            && t'.pages.Keys == t.pages.Keys - {r} && t'.root == t.root && t'.pend == Whole
            && t'.pages[q] == q' && t'.pages[l].leaf == n.leaf && t'.pages[l].entries == n.entries && t'.pages[l].dead == n.dead
            && (forall c :: c in t.pages && c != q && c != l && c != r ==>
                  t'.pages[c] == t.pages[c].(parent := t'.pages[c].parent, left := t'.pages[c].left))
            && (forall c :: c in t.pages && c != r && t.info[c].level > t.info[l].level ==>
                  c in t'.info && t'.info[c] == t.info[c] && t'.pages[c].parent == t.pages[c].parent
                  && (c != q ==> t'.pages[c] == t.pages[c]))
  {
    hide Shape, PageOk, NodeOk, Costs, Detach, JoinLeaves, JoinInternal, IsKid;
    var q' := RemoveAt(t.pages[q], s);
    var cut := Detach(t, q, s, q'.dead);
    DetachFrame(rank, t, q, s, q'.dead);
    DetachInfo(t, q, s, q'.dead);
    DetachShape(rank, t, q, s, q'.dead);
    PagesOk(rank, cut, cut.pend.left, cut.pend.right);
    LeafLevels(rank, t);
    if n.leaf {
      LeavesInOrder(rank, t, q, s);
      JoinFrame(rank, cut, n.entries, n.dead);
      JoinInfo(cut, n.entries, n.dead);
      NextIsLeaf(rank, t, Kid(t.pages[q], s + 1));
    } else {
      FuseFrame(rank, cut, t.pages[q].entries[s].key, n.dead);
      FuseKids(rank, cut, t.pages[q].entries[s].key);
    }
  }

  lemma LeafLevels(rank: Rank, t: Tree)
    requires Shape(rank, t)
    ensures t.pages.Keys == t.info.Keys && forall c :: c in t.pages ==> (t.pages[c].leaf <==> t.info[c].level == 0)
  {
    forall c | c in t.pages ensures t.pages[c].leaf <==> t.info[c].level == 0 { assert PageOk(rank, t, c); }
  }

  lemma NextIsLeaf(rank: Rank, t: Tree, p: PageId)
    requires Framed(t) && p in t.pages && t.pages[p].leaf && PageOk(rank, t, p)
    ensures var n := t.pages[p].right; n != NO_PAGE ==> n in t.pages && t.pages[n].leaf
  {
  }

  /** Dropping or adding internal pages changes no binding. */
  lemma SameLeaves(pages: map<PageId, Node>, pages': map<PageId, Node>, m: map<Key, Value>)
    requires Stores(pages, m)
    requires forall p :: p in pages && pages[p].leaf ==> p in pages' && pages'[p].leaf && pages'[p].entries == pages[p].entries
    requires forall p :: p in pages' && pages'[p].leaf ==> p in pages && pages[p].leaf
    ensures Stores(pages', m)
  {
    forall e ensures HasBinding(pages', e) <==> HasBinding(pages, e) {
      if HasBinding(pages, e) {
        var p :| p in pages && pages[p].leaf && e in pages[p].entries;
        assert p in pages';
      }
      if HasBinding(pages', e) {
        var p :| p in pages' && pages'[p].leaf && e in pages'[p].entries;
        assert p in pages;
      }
    }
  }

  lemma MergedSized(lim: nat, t: Tree, q: PageId, s: nat, n: Node)
    requires MergedNode(t, q, s, n) && Sized(lim, t.pages) && !t.pages[q].leaf && t.pages[q].entries[s].KP?
    requires t.pages[Kid(t.pages[q], s)].leaf == t.pages[Kid(t.pages[q], s + 1)].leaf
    ensures NodeSized(lim, n) && NodeSized(lim, RemoveAt(t.pages[q], s))
  {
    hide Costs, Removed;
    var l, r, e := t.pages[Kid(t.pages[q], s)], t.pages[Kid(t.pages[q], s + 1)], t.pages[q].entries[s];
    assert NodeSized(lim, l) && NodeSized(lim, r) && NodeSized(lim, t.pages[q]);
    CostsRemoved(t.pages[q].entries, s);
    RemovedEntries(t.pages[q].entries, s);
    assert Cost(KP(e.key, r.first)) == Cost(e) <= lim + 2;
  }

  /** A merge keeps sizes and bindings. */
  lemma MergedBooks(lim: nat, rank: Rank, t: Tree, q: PageId, s: nat, n: Node, m: map<Key, Value>)
    requires Shape(rank, t) && Neighbours(rank, t, q, s) && MergedNode(t, q, s, n) && Sized(lim, t.pages) && Stores(t.pages, m)
    ensures var pages := Merged(t, q, s, RemoveAt(t.pages[q], s).dead, n).pages; Sized(lim, pages) && Stores(pages, m)
  {
    hide Shape, PageOk, Costs, Merged, Stores, NodeSized, Neighbours;
    var l, r := Kid(t.pages[q], s), Kid(t.pages[q], s + 1);
    NeighbourFacts(rank, t, q, s);
    var pages := Merged(t, q, s, RemoveAt(t.pages[q], s).dead, n).pages;
    MergedPages(rank, t, q, s, n);
    MergedSized(lim, t, q, s, n);
    forall p | p in pages ensures NodeSized(lim, pages[p]) {
      if p == l {
        SameSized(lim, n, pages[p]);
      } else if p != q {
        assert NodeSized(lim, t.pages[p]);
        SameSized(lim, t.pages[p], pages[p]);
      }
    }
    if n.leaf {
      assert SameCells(t.pages[l].entries, t.pages[r].entries, pages[l].entries, []);
      StoresShared(t.pages, pages, l, r, m);
    } else {
      SameLeaves(t.pages, pages, m);
    }
  }

  lemma NeighbourFacts(rank: Rank, t: Tree, q: PageId, s: nat)
    requires Neighbours(rank, t, q, s)
    ensures var l, r := Kid(t.pages[q], s), Kid(t.pages[q], s + 1);
            && t.pages.Keys == t.info.Keys && l != r && l != q && r != q && t.pages[l].leaf == t.pages[r].leaf
            && !t.pages[q].leaf && t.pages[q].entries[s].KP? && l in t.pages && r in t.pages && q in t.pages
            && r != t.root && l != t.root && r != NO_PAGE
            && t.info[q].level == t.info[l].level + 1 && t.info[r].level == t.info[l].level
  {
    hide AttachedOk, ChainOk, KidsOk, IsKid, Sorted;
  }

  lemma SameSized(lim: nat, n: Node, n': Node)
    requires NodeSized(lim, n) && n'.leaf == n.leaf && n'.entries == n.entries && n'.dead == n.dead
    ensures NodeSized(lim, n')
  {
  }

  // ------------------------------------------------------- removal and collapse

  /** Removing a cell from its leaf removes the binding from the tree. */
  lemma DropKeeps(lim: nat, rank: Rank, t: Tree, p: PageId, slot: nat, m: map<Key, Value>)
    requires Shape(rank, t) && t.pend == Whole && p in t.pages && t.pages[p].leaf && slot < |t.pages[p].entries|
    requires Sized(lim, t.pages) && Stores(t.pages, m)
    ensures var n := RemoveAt(t.pages[p], slot);
            var pages := t.pages[p := n];
            Shape(rank, t.(pages := pages)) && Sized(lim, pages) && Stores(pages, m - {t.pages[p].entries[slot].key})
  {
    hide Shape, Costs, Removed, Sorted, Stores;
    var n, k := RemoveAt(t.pages[p], slot), t.pages[p].entries[slot].key;
    var pages := t.pages[p := n];
    FramedTree(rank, t);
    LeafEntries(rank, t, p);
    RemovedDrops(rank, t.pages[p].entries, slot);
    LeafNodeOk(rank, n, n.entries, t.info[p].lo, t.info[p].hi);
    LeafEdit(rank, t, p, n.entries, n.dead);
    assert NodeSized(lim, t.pages[p]);
    CostsRemoved(t.pages[p].entries, slot);
    SubWithin(t.pages[p].entries, n.entries, lim);
    assert t.pages[p].entries[slot] in t.pages[p].entries;
    StoresDrop(rank, t, p, k, m, pages);
  }

  lemma StoresDrop(rank: Rank, t: Tree, p: PageId, k: Key, m: map<Key, Value>, pages: map<PageId, Node>)
    requires Shape(rank, t) && t.pend == Whole && p in t.pages && t.pages[p].leaf && Covers(rank, t.info[p], k)
    requires Stores(t.pages, m) && p in pages && pages == t.pages[p := pages[p]] && pages[p].leaf
    requires Drops(t.pages[p].entries, pages[p].entries, k)
    ensures Stores(pages, m - {k})
  {
    hide Shape, Covers;
    forall e ensures HasBinding(pages, e) <==> HasBinding(t.pages, e) && e.key != k {
      if HasBinding(t.pages, e) && e.key != k {
        var q :| q in t.pages && t.pages[q].leaf && e in t.pages[q].entries;
        assert q in pages && e in pages[q].entries;
      }
      if HasBinding(pages, e) {
        var q :| q in pages && pages[q].leaf && e in pages[q].entries;
        assert q in t.pages && e in t.pages[q].entries;
        if q != p && e.key == k { ElsewhereNot(rank, t, p, q, k, e); }
      }
    }
  }

  lemma CollapseKeeps(lim: nat, rank: Rank, t: Tree, m: map<Key, Value>)
    requires Shape(rank, t) && t.pend == Whole && t.root in t.pages && !t.pages[t.root].leaf && t.pages[t.root].entries == []
    requires Sized(lim, t.pages) && Stores(t.pages, m)
    ensures t.pages[t.root].first in t.pages
    ensures var t' := Collapsed(t);
            && Shape(rank, t') && Sized(lim, t'.pages) && Stores(t'.pages, m)
            && t'.pages.Keys == t.pages.Keys - {t.root} && t'.root == t.pages[t.root].first && t'.pend == Whole
  {
    hide PageOk, Costs, Stores, NodeSized, Collapsed;
    CollapsedShape(rank, t);
    assert PageOk(rank, t, t.root);
    CollapsedFrame(rank, t);
    CollapsedInfo(t);
    var pages := Collapsed(t).pages;
    forall p | p in pages ensures NodeSized(lim, pages[p]) {
      assert NodeSized(lim, t.pages[p]);
      SameSized(lim, t.pages[p], pages[p]);
    }
    SameLeaves(t.pages, pages, m);
  }

  // --------------------------------------------- the pages the code leaves behind

  lemma MergedLeafPages(rank: Rank, t: Tree, q: PageId, s: nat, n: Node)
    requires Shape(rank, t) && Neighbours(rank, t, q, s) && MergedNode(t, q, s, n) && n.leaf
    ensures var l, r := Kid(t.pages[q], s), Kid(t.pages[q], s + 1);
            var next := t.pages[r].right;
            var q' := RemoveAt(t.pages[q], s);
            var joined := t.pages[l := n.(right := next)];
            && (next != NO_PAGE ==> next in t.pages && next != l && next != r && next != q)
            && var linked := if next != NO_PAGE then joined[next := joined[next].(left := l)] else joined;
               Merged(t, q, s, q'.dead, n).pages == linked[q := q'] - {r}
  {
    hide Shape, PageOk, NodeOk, Costs, JoinLeaves;
    var l, r := Kid(t.pages[q], s), Kid(t.pages[q], s + 1);
    var next, q' := t.pages[r].right, RemoveAt(t.pages[q], s);
    var cut := Detach(t, q, s, q'.dead);
    NextIsLeaf(rank, t, r);
    DetachShape(rank, t, q, s, q'.dead);
    PagesOk(rank, cut, l, r);
    LeavesInOrder(rank, t, q, s);
    JoinFrame(rank, cut, n.entries, n.dead);
    var joined := t.pages[l := n.(right := next)];
    var linked := if next != NO_PAGE then joined[next := joined[next].(left := l)] else joined;
    var pages := linked[q := q'] - {r};
    var pages' := Merged(t, q, s, q'.dead, n).pages;
    assert pages.Keys == pages'.Keys;
    assert forall c :: c in pages ==> pages[c] == pages'[c];
  }

  lemma MergedInternalPages(rank: Rank, t: Tree, q: PageId, s: nat, n: Node)
    requires Shape(rank, t) && Neighbours(rank, t, q, s) && MergedNode(t, q, s, n) && !n.leaf
    ensures var l, r := Kid(t.pages[q], s), Kid(t.pages[q], s + 1);
            var q' := RemoveAt(t.pages[q], s);
            && (forall j :: 0 <= j <= |t.pages[r].entries| ==> Kid(t.pages[r], j) in t.pages)
            && Reparented(t.pages[l := n], t.pages[r], l).Keys == t.pages.Keys
            && Reparented(t.pages[l := n], t.pages[r], l)[q] == t.pages[q]
            && Merged(t, q, s, q'.dead, n).pages == Reparented(t.pages[l := n], t.pages[r], l)[q := q'] - {r}
  {
    hide Shape, PageOk, Costs, JoinInternal;
    var l, r := Kid(t.pages[q], s), Kid(t.pages[q], s + 1);
    var q', sep := RemoveAt(t.pages[q], s), t.pages[q].entries[s].key;
    var cut := Detach(t, q, s, q'.dead);
    DetachShape(rank, t, q, s, q'.dead);
    PagesOk(rank, cut, l, r);
    FuseFrame(rank, cut, sep, n.dead);
    FuseKids(rank, cut, sep);
    var pages := Reparented(t.pages[l := n], t.pages[r], l)[q := q'] - {r};
    var pages' := Merged(t, q, s, q'.dead, n).pages;
    forall j | 0 <= j <= |t.pages[r].entries| ensures Kid(t.pages[r], j) in t.pages { assert IsKid(t.pages[r], Kid(t.pages[r], j)); }
    assert !IsKid(t.pages[r], q);
    assert pages.Keys == pages'.Keys;
    assert forall c :: c in pages ==> pages[c] == pages'[c];
  }

  lemma AllocFree(live: set<PageId>, free: seq<PageId>, n: nat, p: PageId)
    requires AllocOk(live, free, n) && p in live
    ensures AllocOk(live - {p}, free + [p], n)
  {
  }

  lemma UpdateOrder(pages: map<PageId, Node>, q: PageId, a: Node, l: PageId, b: Node, r: PageId, c: Node)
    requires q != l && q != r && l != r
    ensures pages[l := b][r := c][q := a] == pages[q := a][l := b][r := c] == pages[r := c][l := b][q := a]
  {
  }
}
