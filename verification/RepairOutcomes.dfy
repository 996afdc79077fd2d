/** What each repair makes of the whole tree: kept in order, or ruined. */
module RepairOutcomes {
  import opened Base
  import opened Nodes
  import opened Trees
  import opened TreeEdits
  import opened TreeRepairs
  import opened TreeBooks
  import opened Rebalancing
  import opened Diagnoses
  import opened RepairFaults

  lemma SizedAt(lim: nat, pages: map<PageId, Node>, p: PageId)
    requires Sized(lim, pages) && p in pages
    ensures NodeSized(lim, pages[p]) && Used(pages[p]) <= USABLE
  {
  }

  /** Two adjacent children and all pages below them are there. */
  lemma LoanIsReady(rank: Rank, t: Tree, q: PageId, j: nat)
    requires Shape(rank, t) && t.pend == Whole && q in t.pages && !t.pages[q].leaf && j < |t.pages[q].entries|
    ensures LoanReady(t.pages, q, j)
    ensures var l, r := Kid(t.pages[q], j), Kid(t.pages[q], j + 1);
            && l in t.info && r in t.info && q in t.info && l != r && l != q && r != q && l != NO_PAGE && r != NO_PAGE
            && NodeOk(rank, t.pages[l], t.info[l]) && NodeOk(rank, t.pages[r], t.info[r]) && NodeOk(rank, t.pages[q], t.info[q])
            && t.info[l].hi == t.info[r].lo == rank(t.pages[q].entries[j].key)
            && t.pages[q].entries[j].KP? && ChildOf(t.pages[q].entries[j]) == r
    ensures t.pages.Keys == t.info.Keys
  {
    hide Shape, PageOk, Sorted;
    FramedTree(rank, t);
    AreNeighboursApart(rank, t, q, j);
    KidIn(rank, t, q, j);
    KidIn(rank, t, q, j + 1);
    AllKidsThere(rank, t, q);
    var l, r := Kid(t.pages[q], j), Kid(t.pages[q], j + 1);
    if !t.pages[l].leaf { AllKidsThere(rank, t, l); AllKidsThere(rank, t, r); }
  }

  lemma AllKidsThere(rank: Rank, t: Tree, q: PageId)
    requires Shape(rank, t) && t.pend == Whole && q in t.pages && !t.pages[q].leaf
    ensures KidsThere(t.pages, q)
  {
    hide Shape, PageOk;
    forall i | 0 <= i <= |t.pages[q].entries| ensures Kid(t.pages[q], i) in t.pages { KidIn(rank, t, q, i); }
  }

  // ------------------------------------------------------------ loans from the left

  /** Both places have room exactly when the diagnosis says so. */
  lemma LeftLoanRoom(rank: Rank, q: Node, s: nat, l: Node, x: Node, a: Info, b: Info)
    requires NodeOk(rank, l, a) && NodeOk(rank, x, b) && a.hi == b.lo && l.leaf == x.leaf && l.entries != []
    requires Used(q) <= USABLE && Used(x) <= USABLE && s < |q.entries| && q.entries[s].KP?
    ensures var e := l.entries[|l.entries| - 1];
            && (x.leaf ==> e.KV? && forall d :: d in x.entries + [e] ==> d.KV?)
            && (LeftBorrower(rank, x, e).0 <==> Costs(x.entries) + Cost(e) <= USABLE)
            && (MoveSeparator(rank, q, s, e.key).0 <==> SeparatorFits(q, s, e.key))
            && (e.KP? <==> !x.leaf)
  {
    hide Costs, SeparatorFits, MoveSeparator;
    var e := l.entries[|l.entries| - 1];
    RenamedRoom(rank, q, s, e.key);
    if x.leaf {
      assert !HasKey(x.entries, e.key);
      PresentIffHas(rank, x.entries, e.key);
      InsertCellRoom(rank, x, e.key, e.val);
    } else {
      PlaceRoom(x.(first := ChildOf(e)), 0, KP(e.key, x.first));
    }
  }

  ghost function LeftFault(rank: Rank, t: Tree, q: PageId, s: nat): Option<Fault>
    requires q in t.pages && s < |t.pages[q].entries| && Kid(t.pages[q], s) in t.pages && Kid(t.pages[q], s + 1) in t.pages
  {
    LeftLoan(rank, Low(t.info, Kid(t.pages[q], s)), t.pages[q], s, t.pages[Kid(t.pages[q], s)], t.pages[Kid(t.pages[q], s + 1)])
  }

  /** A loan from the left keeps the tree in order, or ruins it, as diagnosed. */
  lemma LeftLoanOutcome(lim: nat, rank: Rank, t: Tree, crumbs: seq<PageId>, q: PageId, s: nat, m: map<Key, Value>)
    returns (info: map<PageId, Info>)
    requires Ordered(rank) && Shape(rank, t) && t.pend == Whole && q in t.pages && !t.pages[q].leaf && s < |t.pages[q].entries|
    requires LoanReady(t.pages, q, s) && PathTo(t, crumbs, q) && Sized(lim, t.pages) && Stores(t.pages, m)
    requires !Stops(LeftFault(rank, t, q, s))
    ensures t.pages[Kid(t.pages[q], s)].entries != []
    ensures var pages := LeftLoanPages(rank, t.pages, q, s);
            && (LeftFault(rank, t, q, s) == None ==>
                 Shape(rank, Tree(pages, info, t.root, Whole)) && Sized(lim, pages) && Stores(pages, m) && pages.Keys == t.pages.Keys)
            && (LeftFault(rank, t, q, s).Some? ==> NoTree(rank, pages, t.root))
  {
    hide Shape, PageOk, Ordered, Stores, Costs, InsertCell, MoveSeparator, SeparatorFits, Lent, Rebound, Neighbours, NodeSized, RemoveAt, LoanReady, NoTree, PathTo;
    var l, x := Kid(t.pages[q], s), Kid(t.pages[q], s + 1);
    LoanIsReady(rank, t, q, s);
    SizedAt(lim, t.pages, q);
    info := t.info;
    if LeftFault(rank, t, q, s) == Some(StolenSeparator) {
      StolenLeftBreaks(rank, t, q, s);
    } else if LeftFault(rank, t, q, s) == Some(EmptiedLender) {
      EmptiedLenderBreaks(rank, t, crumbs, q, s);
    } else {
      info := SoundLeftLoan(lim, rank, t, q, s, m);
    }
  }

  lemma SoundLeftLoan(lim: nat, rank: Rank, t: Tree, q: PageId, s: nat, m: map<Key, Value>) returns (info: map<PageId, Info>)
    requires Ordered(rank) && Shape(rank, t) && t.pend == Whole && q in t.pages && !t.pages[q].leaf && s < |t.pages[q].entries|
    requires LoanReady(t.pages, q, s) && Sized(lim, t.pages) && Stores(t.pages, m) && LeftFault(rank, t, q, s) == None
    ensures t.pages[Kid(t.pages[q], s)].entries != []
    ensures var pages := LeftLoanPages(rank, t.pages, q, s);
            Shape(rank, Tree(pages, info, t.root, Whole)) && Sized(lim, pages) && Stores(pages, m) && pages.Keys == t.pages.Keys
  {
    hide Shape, PageOk, Ordered, Stores, Costs, InsertCell, MoveSeparator, SeparatorFits, Lent, Rebound, Neighbours, NodeSized, RemoveAt;
    var l, x := Kid(t.pages[q], s), Kid(t.pages[q], s + 1);
    AreNeighbours(rank, t, q, s);
    NeighbourFacts(rank, t, q, s);
    SizedAt(lim, t.pages, l);
    SizedAt(lim, t.pages, x);
    LentFromLeft(lim, rank, t, q, s);
    var last := |t.pages[l].entries| - 1;
    var KV(k, v) := t.pages[l].entries[last];
    var l', x' := RemoveAt(t.pages[l], last), InsertCell(rank, t.pages[x], k, v).1;
    var q' := MoveSeparator(rank, t.pages[q], s, k).1;
    LoanKeeps(lim, rank, t, q, s, k, l', x', m);
    UpdateOrder(t.pages, q, q', l, l', x, x');
    info := Rebound(rank, t, q, s, k, q'.dead, l'.entries, l'.dead, x'.entries, x'.dead).info;
    assert Rebound(rank, t, q, s, k, q'.dead, l'.entries, l'.dead, x'.entries, x'.dead) == Tree(LeftLoanPages(rank, t.pages, q, s), info, t.root, Whole);
  }

  // ----------------------------------------------------------- loans from the right

  lemma RightLoanRoom(rank: Rank, q: Node, i: nat, x: Node, r: Node, a: Info, b: Info)
    requires Ordered(rank) && NodeOk(rank, x, a) && NodeOk(rank, r, b) && a.hi == b.lo && x.leaf == r.leaf
    requires |r.entries| >= if r.leaf then 2 else 1
    requires Used(q) <= USABLE && Used(x) <= USABLE && i < |q.entries| && q.entries[TurnSlot(i)].KP?
    ensures (r.entries[0].KV? <==> x.leaf) && (x.leaf ==> forall d :: d in x.entries + r.entries ==> d.KV?)
    ensures RightBorrower(rank, x, r).0 <==> Costs(x.entries) + Cost(r.entries[0]) <= USABLE
    ensures MoveSeparator(rank, q, TurnSlot(i), RightBoundary(r)).0 <==> SeparatorFits(q, TurnSlot(i), RightBoundary(r))
    ensures r.leaf ==> RemoveAt(r, 0).entries != [] && RemoveAt(r, 0).entries[0].key == RightBoundary(r)
  {
    hide Costs, SeparatorFits, MoveSeparator, Ordered;
    RenamedRoom(rank, q, TurnSlot(i), RightBoundary(r));
    RemovedEntries(r.entries, 0);
    var e := if x.leaf then r.entries[0] else KP(r.entries[0].key, r.first);
    assert Sorted(rank, x.entries + [e]);
    Appended(rank, x, e);
    AbsentAt(rank, x.entries, e.key);
  }

  ghost function RightFault(t: Tree, q: PageId, i: nat): Option<Fault>
    requires q in t.pages && i < |t.pages[q].entries| && Kid(t.pages[q], i) in t.pages && Kid(t.pages[q], i + 1) in t.pages
  {
    RightLoan(t.pages[q], i, t.pages[Kid(t.pages[q], i + 1)], t.pages[Kid(t.pages[q], i)])
  }

  lemma RightLoanOutcome(lim: nat, rank: Rank, t: Tree, q: PageId, i: nat, m: map<Key, Value>) returns (info: map<PageId, Info>)
    requires Ordered(rank) && Shape(rank, t) && t.pend == Whole && q in t.pages && !t.pages[q].leaf && i < |t.pages[q].entries|
    requires LoanReady(t.pages, q, i) && Sized(lim, t.pages) && Stores(t.pages, m) && !Stops(RightFault(t, q, i))
    ensures var lender := t.pages[Kid(t.pages[q], i + 1)]; |lender.entries| >= if lender.leaf then 2 else 1
    ensures var pages := RightLoanPages(rank, t.pages, q, i);
            && (RightFault(t, q, i) == None ==>
                 Shape(rank, Tree(pages, info, t.root, Whole)) && Sized(lim, pages) && Stores(pages, m) && pages.Keys == t.pages.Keys)
            && (RightFault(t, q, i).Some? ==> NoTree(rank, pages, t.root))
  {
    hide Shape, PageOk, Ordered, Stores, Costs, InsertCell, MoveSeparator, SeparatorFits, NodeSized, RemoveAt, LoanReady, NoTree;
    LoanIsReady(rank, t, q, i);
    SizedAt(lim, t.pages, q);
    SizedAt(lim, t.pages, Kid(t.pages[q], i));
    info := t.info;
    if RightFault(t, q, i) == Some(MisplacedSeparator) {
      MiddleLoanBreaks(rank, t, q, i);
    } else if RightFault(t, q, i) == Some(StolenSeparator) {
      StolenRightBreaks(rank, t, q);
    } else {
      info := SoundRightLoan(lim, rank, t, q, m);
    }
  }

  lemma SoundRightLoan(lim: nat, rank: Rank, t: Tree, q: PageId, m: map<Key, Value>) returns (info: map<PageId, Info>)
    requires Ordered(rank) && Shape(rank, t) && t.pend == Whole && q in t.pages && !t.pages[q].leaf && 0 < |t.pages[q].entries|
    requires LoanReady(t.pages, q, 0) && Sized(lim, t.pages) && Stores(t.pages, m) && RightFault(t, q, 0) == None
    ensures var lender := t.pages[Kid(t.pages[q], 1)]; |lender.entries| >= if lender.leaf then 2 else 1
    ensures var pages := RightLoanPages(rank, t.pages, q, 0);
            Shape(rank, Tree(pages, info, t.root, Whole)) && Sized(lim, pages) && Stores(pages, m) && pages.Keys == t.pages.Keys
  {
    hide Shape, PageOk, Ordered, Stores, Costs, InsertCell, MoveSeparator, SeparatorFits, Lent, Rebound, Neighbours, NodeSized, RemoveAt;
    var x, r := Kid(t.pages[q], 0), Kid(t.pages[q], 1);
    AreNeighbours(rank, t, q, 0);
    NeighbourFacts(rank, t, q, 0);
    SizedAt(lim, t.pages, x);
    SizedAt(lim, t.pages, r);
    LentFromRight(lim, rank, t, q, 0);
    var KV(k, v) := t.pages[r].entries[0];
    var b := t.pages[r].entries[1].key;
    var x', r' := InsertCell(rank, t.pages[x], k, v).1, RemoveAt(t.pages[r], 0);
    var q' := MoveSeparator(rank, t.pages[q], 0, b).1;
    LoanKeeps(lim, rank, t, q, 0, b, x', r', m);
    UpdateOrder(t.pages, q, q', x, x', r, r');
    info := Rebound(rank, t, q, 0, b, q'.dead, x'.entries, x'.dead, r'.entries, r'.dead).info;
    assert Rebound(rank, t, q, 0, b, q'.dead, x'.entries, x'.dead, r'.entries, r'.dead) == Tree(RightLoanPages(rank, t.pages, q, 0), info, t.root, Whole);
  }

  // --------------------------------------------------------------------- merges

  /** The separator a middle child uses goes in front of its entries. */
  lemma MisplacedInOrder(rank: Rank, t: Tree, q: PageId, j: nat)
    requires Shape(rank, t) && t.pend == Whole && q in t.pages && !t.pages[q].leaf && 0 < j < |t.pages[q].entries|
    requires Kid(t.pages[q], j) in t.pages && Kid(t.pages[q], j + 1) in t.pages && !t.pages[Kid(t.pages[q], j)].leaf
    ensures var l, r, sep := t.pages[Kid(t.pages[q], j)], t.pages[Kid(t.pages[q], j + 1)], t.pages[q].entries[j - 1].key;
            && Sorted(rank, Inserted(l.entries, LowerBound(rank, l.entries, sep), KP(sep, r.first)) + r.entries)
            && (forall e :: e in r.entries ==> e.KP?)
  {
    hide Shape, PageOk;
    KidIn(rank, t, q, j);
    KidIn(rank, t, q, j + 1);
    AreNeighboursApart(rank, t, q, j);
    var l, sep := t.pages[Kid(t.pages[q], j)], t.pages[q].entries[j - 1].key;
    LowerBoundIs(rank, l.entries, sep, 0);
  }

  /** What a merge has to link: the pages below the merged page, or its right neighbour. */
  lemma MergeLinks(rank: Rank, t: Tree, q: PageId, j: nat)
    requires Shape(rank, t) && t.pend == Whole && Neighbours(rank, t, q, j)
    ensures var l, r := Kid(t.pages[q], j), Kid(t.pages[q], j + 1);
            && (t.pages[r].leaf ==> var next := t.pages[r].right;
                  next != NO_PAGE ==> next in t.pages && next != l && next != r && next != q)
            && (!t.pages[r].leaf ==> forall i :: 0 <= i <= |t.pages[r].entries| ==>
                  Kid(t.pages[r], i) in t.pages && Kid(t.pages[r], i) != l && Kid(t.pages[r], i) != q && Kid(t.pages[r], i) != r)
  {
    hide Shape, PageOk;
    var l, r := Kid(t.pages[q], j), Kid(t.pages[q], j + 1);
    if t.pages[r].leaf {
      NextApart(rank, t, q, j);
    } else {
      forall i | 0 <= i <= |t.pages[r].entries|
        ensures Kid(t.pages[r], i) in t.pages && Kid(t.pages[r], i) != l && Kid(t.pages[r], i) != q && Kid(t.pages[r], i) != r
      {
        GrandchildApart(rank, t, q, j, r, i);
      }
    }
  }

  lemma NextApart(rank: Rank, t: Tree, q: PageId, j: nat)
    requires Shape(rank, t) && Neighbours(rank, t, q, j) && t.pages[Kid(t.pages[q], j + 1)].leaf
    ensures var l, r := Kid(t.pages[q], j), Kid(t.pages[q], j + 1);
            var next := t.pages[r].right;
            next != NO_PAGE ==> next in t.pages && next != l && next != r && next != q
  {
    hide Shape, KidsOk, AttachedOk, Sorted;
  }

  /** The tree after a sound merge: in order, and higher pages but the parent as they were. */
  ghost predicate MergedWell(lim: nat, rank: Rank, t: Tree, q: PageId, j: nat, pages: map<PageId, Node>, info: map<PageId, Info>,
                             m: map<Key, Value>) {
    && Shape(rank, Tree(pages, info, t.root, Whole)) && Sized(lim, pages) && Stores(pages, m)
    && q in t.pages && q in t.info && j < |t.pages[q].entries| && q in pages && pages[q] == RemoveAt(t.pages[q], j)
    && (forall c :: c in t.pages && c in t.info && t.info[c].level >= t.info[q].level ==>
          && c in pages && c in info && info[c] == t.info[c] && pages[c].parent == t.pages[c].parent
          && (c != q ==> pages[c] == t.pages[c]))
    && (forall c :: c in t.info && c != Kid(t.pages[q], j + 1) ==> c in info && info[c].level == t.info[c].level)
  }

  lemma MergedLevels(t: Tree, q: PageId, s: nat, dq: nat, n: Node)
    requires q in t.pages && s < |t.pages[q].entries| && t.pages.Keys == t.info.Keys
    requires Kid(t.pages[q], s) in t.pages && Kid(t.pages[q], s + 1) in t.pages
    ensures var info := Merged(t, q, s, dq, n).info;
            forall c :: c in t.info && c != Kid(t.pages[q], s + 1) ==> c in info && info[c].level == t.info[c].level
  {
    hide Removed, IsKid;
  }

  /** A merge around the right separator keeps the tree; around another one it ruins it. */
  lemma MergeOutcome(lim: nat, rank: Rank, t: Tree, q: PageId, slot: nat, j: nat, n: Node, m: map<Key, Value>)
    returns (info: map<PageId, Info>)
    requires Ordered(rank) && Shape(rank, t) && t.pend == Whole && q in t.pages && !t.pages[q].leaf && j < |t.pages[q].entries|
    requires slot == j || (0 < j && slot == TurnSlot(j))
    requires Sized(lim, t.pages) && Stores(t.pages, m) && KidsThere(t.pages, q)
    requires slot == j ==> MergedNode(t, q, j, n)
    ensures var l, r := Kid(t.pages[q], j), Kid(t.pages[q], j + 1);
            var pages := AbsorbedPages(t.pages, q, slot, l, r, n);
            && pages.Keys == t.pages.Keys - {r}
            && (slot == j ==> MergedWell(lim, rank, t, q, j, pages, info, m))
            && (slot != j ==> NoTree(rank, pages, t.root))
  {
    hide Shape, PageOk, Ordered, Stores, Costs, Merged, MergedNode, Neighbours, NoTree, NodeSized, Reparented, Sized, RemoveAt;
    AreNeighbours(rank, t, q, j);
    NeighbourFacts(rank, t, q, j);
    MergeLinks(rank, t, q, j);
    var l, r := Kid(t.pages[q], j), Kid(t.pages[q], j + 1);
    info := t.info;
    AbsorbedKeys(t.pages, q, slot, l, r, n);
    if slot != j {
      MiddleMergeBreaks(rank, t, q, j, n);
    } else {
      var dq := RemoveAt(t.pages[q], j).dead;
      MergedIsAbsorbed(rank, t, q, j, n);
      MergedShape(rank, t, q, j, dq, n);
      MergedPages(rank, t, q, j, n);
      MergedBooks(lim, rank, t, q, j, n, m);
      MergedLevels(t, q, j, dq, n);
      info := Merged(t, q, j, dq, n).info;
      assert Merged(t, q, j, dq, n) == Tree(AbsorbedPages(t.pages, q, slot, l, r, n), info, t.root, Whole);
    }
  }

  lemma AbsorbedKeys(pages: map<PageId, Node>, q: PageId, slot: nat, l: PageId, r: PageId, n: Node)
    requires q in pages && l in pages && r in pages && slot < |pages[q].entries|
    ensures AbsorbedPages(pages, q, slot, l, r, n).Keys == pages.Keys - {r}
  {
    hide IsKid, RemoveAt;
  }

  lemma MergedIsAbsorbed(rank: Rank, t: Tree, q: PageId, s: nat, n: Node)
    requires Shape(rank, t) && Neighbours(rank, t, q, s) && MergedNode(t, q, s, n)
    ensures Merged(t, q, s, RemoveAt(t.pages[q], s).dead, n).pages
         == AbsorbedPages(t.pages, q, s, Kid(t.pages[q], s), Kid(t.pages[q], s + 1), n)
  {
    hide Shape, PageOk, Costs, Merged, Reparented, RemoveAt;
    if n.leaf {
      MergedLeafPages(rank, t, q, s, n);
    } else {
      MergedInternalPages(rank, t, q, s, n);
    }
  }
}
