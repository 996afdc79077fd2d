/** The pages the code leaves behind after a repair, and why no assignment of levels and key
    ranges makes the faulty ones a search tree. */
module RepairFaults {
  import opened Base
  import opened Nodes
  import opened Trees
  import opened TreeEdits
  import opened TreeRepairs
  import opened TreeBooks
  import opened Rebalancing
  import opened Diagnoses

  ghost predicate NoTree(rank: Rank, pages: map<PageId, Node>, root: PageId) {
    forall info: map<PageId, Info> :: !Shape(rank, Tree(pages, info, root, Whole))
  }

  // ------------------------------------------------------- what the code computes

  ghost predicate LoanReady(pages: map<PageId, Node>, q: PageId, j: nat) {
    && q in pages && j < |pages[q].entries| && KidsThere(pages, q)
    && var l, r := pages[Kid(pages[q], j)], pages[Kid(pages[q], j + 1)];
       && l.leaf == r.leaf
       && (forall e :: e in l.entries || e in r.entries ==> (e.KV? <==> l.leaf))
       && (!l.leaf ==> KidsThere(pages, Kid(pages[q], j)) && KidsThere(pages, Kid(pages[q], j + 1)))
  }

  /** The borrower after a loan from the left. */
  ghost function LeftBorrower(rank: Rank, x: Node, e: Entry): (bool, Node)
    requires x.leaf ==> forall d :: d in x.entries + [e] ==> d.KV?
  {
    if x.leaf then assert e in x.entries + [e]; InsertCell(rank, x, e.key, e.val)
    else PlaceAt(x.(first := ChildOf(e)), 0, KP(e.key, x.first))
  }

  /** Child `s` of `q` lends its last cell to child `s + 1`. */
  ghost function LeftLoanPages(rank: Rank, pages: map<PageId, Node>, q: PageId, s: nat): map<PageId, Node>
    requires LoanReady(pages, q, s) && pages[Kid(pages[q], s)].entries != []
  {
    var l, x := Kid(pages[q], s), Kid(pages[q], s + 1);
    var last := |pages[l].entries| - 1;
    var e := pages[l].entries[last];
    var taken := pages[l := RemoveAt(pages[l], last)][x := LeftBorrower(rank, pages[x], e).1];
    Moved(taken, ChildOf(e), x)[q := MoveSeparator(rank, pages[q], s, e.key).1]
  }

  /** The page table after child `c`, if it is a page, was told that its parent is `x`. */
  function Moved(pages: map<PageId, Node>, c: PageId, x: PageId): map<PageId, Node> {
    if c != NO_PAGE && c in pages then pages[c := pages[c].(parent := x)] else pages
  }

  /** The lender and the borrower after a loan from the right. */
  function RightLender(lender: Node): Node
    requires lender.entries != []
  {
    RemoveAt(if lender.leaf then lender else lender.(first := ChildOf(lender.entries[0])), 0)
  }

  ghost function RightBorrower(rank: Rank, x: Node, lender: Node): (bool, Node)
    requires lender.entries != [] && (x.leaf ==> forall d :: d in x.entries + lender.entries ==> d.KV?)
  {
    var e := lender.entries[0];
    if x.leaf then assert e in x.entries + lender.entries; InsertCell(rank, x, e.key, e.val)
    else InsertSep(rank, x, e.key, lender.first)
  }

  /** Child `i + 1` of `q` lends its first cell to child `i`. */
  ghost function RightLoanPages(rank: Rank, pages: map<PageId, Node>, q: PageId, i: nat): map<PageId, Node>
    requires LoanReady(pages, q, i)
    requires var lender := pages[Kid(pages[q], i + 1)]; |lender.entries| >= if lender.leaf then 2 else 1
  {
    var x, r := Kid(pages[q], i), Kid(pages[q], i + 1);
    var taken := pages[r := RightLender(pages[r])][x := RightBorrower(rank, pages[x], pages[r]).1];
    Moved(taken, if pages[r].leaf then NO_PAGE else pages[r].first, x)
      [q := MoveSeparator(rank, pages[q], TurnSlot(i), RightBoundary(pages[r])).1]
  }

  /** Page `l` becomes `n`, links into `r` are mended, separator `slot` and page `r` go. */
  function AbsorbedPages(pages: map<PageId, Node>, q: PageId, slot: nat, l: PageId, r: PageId, n: Node): map<PageId, Node>
    requires q in pages && l in pages && r in pages && slot < |pages[q].entries|
  {
    var next := pages[r].right;
    var joined := if n.leaf then pages[l := n.(right := next)] else Reparented(pages[l := n], pages[r], l);
    var linked := if n.leaf && next != NO_PAGE && next in joined then joined[next := joined[next].(left := l)] else joined;
    linked[q := RemoveAt(pages[q], slot)] - {r}
  }

  // -------------------------------------------------------------------- damage

  /** A child of a well-shaped tree's page, with its range. */
  lemma KidIn(rank: Rank, t: Tree, q: PageId, i: nat)
    requires Shape(rank, t) && t.pend == Whole && q in t.pages && !t.pages[q].leaf && i <= |t.pages[q].entries|
    ensures Kid(t.pages[q], i) in t.pages && Kid(t.pages[q], i) in t.info && q in t.info
    ensures t.info[Kid(t.pages[q], i)] == KidRange(rank, t.pages[q], t.info[q], i)
    ensures NodeOk(rank, t.pages[Kid(t.pages[q], i)], t.info[Kid(t.pages[q], i)]) && NodeOk(rank, t.pages[q], t.info[q])
  {
    assert PageOk(rank, t, q);
    assert KidOk(rank, t, q, i);
    assert PageOk(rank, t, Kid(t.pages[q], i));
  }

  // ------------------------------------------- a middle child that turns right

  /** Merging with the right sibling removes slot `i - 1`: the deleted page stays a child and
      the surviving one is cut off, so what is left is not a tree whatever the ranges. */
  lemma MiddleMergeBreaks(rank: Rank, t: Tree, q: PageId, i: nat, n: Node)
    requires Shape(rank, t) && t.pend == Whole && q in t.pages && !t.pages[q].leaf && 0 < i < |t.pages[q].entries|
    requires KidsThere(t.pages, q)
    ensures var x, r := Kid(t.pages[q], i), Kid(t.pages[q], i + 1);
            var pages := AbsorbedPages(t.pages, q, TurnSlot(i), x, r, n);
            && q in pages && !IsKid(pages[q], x) && IsKid(pages[q], r) && r !in pages
            && NoTree(rank, pages, t.root)
  {
    hide Shape, Removed, PageOk, Reparented;
    var x, r := Kid(t.pages[q], i), Kid(t.pages[q], i + 1);
    var pages := AbsorbedPages(t.pages, q, i - 1, x, r, n);
    AreNeighboursApart(rank, t, q, i);
    var p, p' := t.pages[q], pages[q];
    RemovedEntries(p.entries, i - 1);
    assert Kid(p', i) == r;
    FramedTree(rank, t);
    PagesOk(rank, t, q, q);
    if IsKid(p', x) {
      var j :| 0 <= j <= |p'.entries| && Kid(p', j) == x;
      KidOnce(rank, t, q, i, if j < i then j else j + 1);
    }
    forall info: map<PageId, Info> ensures !Shape(rank, Tree(pages, info, t.root, Whole)) {
      if Shape(rank, Tree(pages, info, t.root, Whole)) { KidIn(rank, Tree(pages, info, t.root, Whole), q, i); }
    }
  }

  /** Two children of `q` and `q` itself are three pages. */
  lemma AreNeighboursApart(rank: Rank, t: Tree, q: PageId, j: nat)
    requires Shape(rank, t) && t.pend == Whole && q in t.pages && !t.pages[q].leaf && j < |t.pages[q].entries|
    ensures var l, r := Kid(t.pages[q], j), Kid(t.pages[q], j + 1);
            && l in t.pages && r in t.pages && l != r && l != q && r != q && l != NO_PAGE && r != NO_PAGE
            && t.info[l].level == t.info[r].level == t.info[q].level - 1 && t.pages[l].leaf == t.pages[r].leaf
  {
    assert PageOk(rank, t, q);
    assert KidOk(rank, t, q, j) && KidOk(rank, t, q, j + 1);
    KidOnce(rank, t, q, j, j + 1);
    assert PageOk(rank, t, Kid(t.pages[q], j)) && PageOk(rank, t, Kid(t.pages[q], j + 1));
  }

  /** A page below a child of `q` is none of `q` and its children. */
  lemma GrandchildApart(rank: Rank, t: Tree, q: PageId, j: nat, p: PageId, m: nat)
    requires Shape(rank, t) && t.pend == Whole && q in t.pages && !t.pages[q].leaf && j < |t.pages[q].entries|
    requires (p == Kid(t.pages[q], j) || p == Kid(t.pages[q], j + 1)) && p in t.pages && !t.pages[p].leaf && m <= |t.pages[p].entries|
    ensures var c := Kid(t.pages[p], m);
            c in t.pages && c != NO_PAGE && c != q && c != Kid(t.pages[q], j) && c != Kid(t.pages[q], j + 1) && t.pages[c].parent == p
  {
    AreNeighboursApart(rank, t, q, j);
    assert PageOk(rank, t, p);
    assert KidOk(rank, t, p, m);
  }

  /** Where the misdirected rename puts its entry. */
  lemma Renamed(rank: Rank, n: Node, i: nat, b: Key)
    requires Ordered(rank) && Sorted(rank, n.entries) && 0 < i < |n.entries| && n.entries[i - 1].KP? && Used(n) <= USABLE
    requires rank(n.entries[i].key) < rank(b) && (i + 1 < |n.entries| ==> rank(b) < rank(n.entries[i + 1].key))
    requires SeparatorFits(n, i - 1, b)
    ensures var es := MoveSeparator(rank, n, i - 1, b).1.entries;
            && |es| == |n.entries|
            && (|n.entries[i - 1].key| == |b| ==> es[i - 1].key == b && es[i] == n.entries[i])
            && (|n.entries[i - 1].key| != |b| ==> es[i] == KP(b, ChildOf(n.entries[i - 1])))
  {
    hide Ordered, Costs, Removed, Inserted, SeparatorFits;
    RenamedRoom(rank, n, i - 1, b);
    if |n.entries[i - 1].key| != |b| {
      var m := RemoveAt(n, i - 1);
      RemovedEntries(n.entries, i - 1);
      RemovedDrops(rank, n.entries, i - 1);
      LowerBoundIs(rank, m.entries, b, i);
      InsertedEntries(m.entries, i, KP(b, ChildOf(n.entries[i - 1])));
    }
  }

  /** Borrowing from the right sibling renames the separator on the left: either the separators
      are out of order, or the borrower ends up to the right of its lender. */
  lemma MiddleRename(rank: Rank, t: Tree, q: PageId, i: nat, b: Key, k: Key, t': Tree)
    requires Ordered(rank) && Shape(rank, t) && t.pend == Whole && q in t.pages && !t.pages[q].leaf && Used(t.pages[q]) <= USABLE
    requires 0 < i < |t.pages[q].entries| && Kid(t.pages[q], i + 1) in t.info
    requires rank(t.pages[q].entries[i].key) < rank(b) < t.info[Kid(t.pages[q], i + 1)].hi && SeparatorFits(t.pages[q], i - 1, b)
    requires var x := Kid(t.pages[q], i);
             && t'.pend == Whole && q in t'.pages && x in t'.pages && HasKey(t'.pages[x].entries, k)
             && t'.pages[q] == MoveSeparator(rank, t.pages[q], i - 1, b).1
             && (if t'.pages[x].leaf then rank(k) < rank(b) else k == b)
    ensures !Shape(rank, t')
  {
    hide Shape, PageOk, Ordered, MoveSeparator, Costs, SeparatorFits;
    var n := t.pages[q];
    KidIn(rank, t, q, i + 1);
    KidIn(rank, t, q, i);
    if Shape(rank, t') {
      Renamed(rank, n, i, b);
      RenamedRoom(rank, n, i - 1, b);
      KidIn(rank, t', q, i + 1);
    }
  }

  lemma MiddleLoanBreaks(rank: Rank, t: Tree, q: PageId, i: nat)
    requires Ordered(rank) && Shape(rank, t) && t.pend == Whole && LoanReady(t.pages, q, i) && !t.pages[q].leaf
    requires Used(t.pages[q]) <= USABLE && (forall p :: p == Kid(t.pages[q], i) ==> Used(t.pages[p]) <= USABLE)
    requires RightLoan(t.pages[q], i, t.pages[Kid(t.pages[q], i + 1)], t.pages[Kid(t.pages[q], i)]) == Some(MisplacedSeparator)
    ensures NoTree(rank, RightLoanPages(rank, t.pages, q, i), t.root)
  {
    hide Shape, PageOk, Ordered, MoveSeparator, Costs, SeparatorFits, InsertCell, InsertSep, RemoveAt;
    var pages := RightLoanPages(rank, t.pages, q, i);
    var x, r := Kid(t.pages[q], i), Kid(t.pages[q], i + 1);
    var b := RightBoundary(t.pages[r]);
    AreNeighboursApart(rank, t, q, i);
    KidIn(rank, t, q, i);
    KidIn(rank, t, q, i + 1);
    if !t.pages[r].leaf { GrandchildApart(rank, t, q, i, r, 0); }
    RightBorrowerHas(rank, t.pages[x], t.pages[r], t.info[x], t.info[r]);
    assert pages[x].entries == RightBorrower(rank, t.pages[x], t.pages[r]).1.entries;
    assert pages[x].leaf == t.pages[x].leaf;
    forall info: map<PageId, Info> ensures !Shape(rank, Tree(pages, info, t.root, Whole)) {
      MiddleRename(rank, t, q, i, b, t.pages[r].entries[0].key, Tree(pages, info, t.root, Whole));
    }
  }

  /** The borrower holds the moved key afterwards, as its last. */
  lemma RightBorrowerHas(rank: Rank, x: Node, lender: Node, a: Info, b: Info)
    requires Ordered(rank) && NodeOk(rank, x, a) && NodeOk(rank, lender, b) && a.hi == b.lo && x.leaf == lender.leaf && Used(x) <= USABLE
    requires |lender.entries| >= (if lender.leaf then 2 else 1) && Costs(x.entries) + Cost(lender.entries[0]) <= USABLE
    requires forall e :: e in x.entries || e in lender.entries ==> (e.KV? <==> x.leaf)
    ensures forall d :: d in x.entries + lender.entries ==> (d.KV? <==> x.leaf)
    ensures var (ok, n) := RightBorrower(rank, x, lender);
            && ok && n == x.(entries := n.entries, dead := n.dead) && HasKey(n.entries, lender.entries[0].key)
            && n.entries == x.entries + [if x.leaf then lender.entries[0] else KP(lender.entries[0].key, lender.first)]
  {
    hide Costs, Ordered;
    var e := if x.leaf then lender.entries[0] else KP(lender.entries[0].key, lender.first);
    assert lender.entries[0] in lender.entries;
    assert Sorted(rank, x.entries + [e]);
    Appended(rank, x, e);
    AbsentAt(rank, x.entries, e.key);
    assert (x.entries + [e])[|x.entries|] == e;
  }

  // ------------------------------------------------------------ internal loans

  /** `i` is where the descent for `k` goes. */
  predicate Descends(rank: Rank, n: Node, k: Key, i: nat) {
    && i <= |n.entries|
    && (i > 0 ==> rank(n.entries[i - 1].key) <= rank(k))
    && (i < |n.entries| ==> rank(k) < rank(n.entries[i].key))
  }

  /** The moved key becomes the parent's separator too, so no key that reaches the borrower
      is ever sent on to the child that came with it. */
  lemma StolenLeftUnreachable(rank: Rank, x: Node, left: Node, k: Key, i: nat)
    requires !x.leaf && left.entries != [] && Costs(x.entries) + Cost(KP(left.entries[|left.entries| - 1].key, x.first)) <= USABLE
    requires rank(left.entries[|left.entries| - 1].key) <= rank(k)
    requires Descends(rank, LeftBorrower(rank, x, left.entries[|left.entries| - 1]).1, k, i)
    ensures LeftBorrower(rank, x, left.entries[|left.entries| - 1]).1.first == ChildOf(left.entries[|left.entries| - 1])
    ensures i > 0
  {
    hide Costs;
    var e := left.entries[|left.entries| - 1];
    PlaceRoom(x.(first := ChildOf(e)), 0, KP(e.key, x.first));
  }

  lemma StolenRightUnreachable(rank: Rank, x: Node, right: Node, k: Key, i: nat)
    requires !x.leaf && right.entries != [] && Sorted(rank, x.entries)
    requires forall e :: e in x.entries ==> rank(e.key) < rank(right.entries[0].key)
    requires Costs(x.entries) + Cost(KP(right.entries[0].key, right.first)) <= USABLE
    requires rank(k) < rank(right.entries[0].key)
    requires Descends(rank, RightBorrower(rank, x, right).1, k, i)
    ensures var n := RightBorrower(rank, x, right).1; |n.entries| == |x.entries| + 1 && Kid(n, |n.entries|) == right.first
    ensures i < |RightBorrower(rank, x, right).1.entries|
  {
    hide Costs, Inserted;
    var e := KP(right.entries[0].key, right.first);
    assert forall j :: 0 <= j < |x.entries| ==> x.entries[j] in x.entries;
    LowerBoundIs(rank, x.entries, e.key, |x.entries|);
    PlaceRoom(x, |x.entries|, e);
    InsertedEntries(x.entries, |x.entries|, e);
  }

  /** A separator that is also a key of an internal child beside it fits no tree. */
  lemma RepeatedSeparator(rank: Rank, t: Tree, q: PageId, s: nat, j: nat)
    requires t.pend == Whole && q in t.pages && !t.pages[q].leaf && s < |t.pages[q].entries|
    requires var l, r := Kid(t.pages[q], s), Kid(t.pages[q], s + 1);
             || (r in t.pages && !t.pages[r].leaf && j < |t.pages[r].entries| && t.pages[r].entries[j].key == t.pages[q].entries[s].key)
             || (l in t.pages && !t.pages[l].leaf && j < |t.pages[l].entries| && t.pages[l].entries[j].key == t.pages[q].entries[s].key)
    ensures !Shape(rank, t)
  {
    hide Shape;
    if Shape(rank, t) {
      KidIn(rank, t, q, s);
      KidIn(rank, t, q, s + 1);
    }
  }

  /** An internal loan from the left leaves no tree. */
  lemma StolenLeftBreaks(rank: Rank, t: Tree, q: PageId, s: nat)
    requires Ordered(rank) && Shape(rank, t) && t.pend == Whole && LoanReady(t.pages, q, s) && !t.pages[q].leaf
    requires Used(t.pages[q]) <= USABLE
    requires LeftLoan(rank, Low(t.info, Kid(t.pages[q], s)), t.pages[q], s, t.pages[Kid(t.pages[q], s)], t.pages[Kid(t.pages[q], s + 1)])
             == Some(StolenSeparator)
    ensures NoTree(rank, LeftLoanPages(rank, t.pages, q, s), t.root)
  {
    hide Shape, PageOk, Ordered, MoveSeparator, Costs, SeparatorFits, InsertCell, RemoveAt, Inserted;
    var pages := LeftLoanPages(rank, t.pages, q, s);
    var l, x := Kid(t.pages[q], s), Kid(t.pages[q], s + 1);
    var e := t.pages[l].entries[|t.pages[l].entries| - 1];
    assert e in t.pages[l].entries;
    AreNeighboursApart(rank, t, q, s);
    KidIn(rank, t, q, s);
    KidIn(rank, t, q, s + 1);
    GrandchildApart(rank, t, q, s, l, |t.pages[l].entries|);
    MovedSeparator(rank, t.pages[q], s, e.key);
    PlaceRoom(t.pages[x].(first := ChildOf(e)), 0, KP(e.key, t.pages[x].first));
    PlacedKeeps(t.pages[x].(first := ChildOf(e)), 0, KP(e.key, t.pages[x].first));
    InsertedEntries(t.pages[x].entries, 0, KP(e.key, t.pages[x].first));
    assert pages[x].entries[0].key == e.key && pages[q].entries[s] == KP(e.key, x);
    forall info: map<PageId, Info> ensures !Shape(rank, Tree(pages, info, t.root, Whole)) {
      RepeatedSeparator(rank, Tree(pages, info, t.root, Whole), q, s, 0);
    }
  }

  /** An internal loan from the right to a first child leaves no tree. */
  lemma StolenRightBreaks(rank: Rank, t: Tree, q: PageId)
    requires Ordered(rank) && Shape(rank, t) && t.pend == Whole && LoanReady(t.pages, q, 0) && !t.pages[q].leaf
    requires Used(t.pages[q]) <= USABLE && (forall p :: p == Kid(t.pages[q], 0) ==> Used(t.pages[p]) <= USABLE)
    requires RightLoan(t.pages[q], 0, t.pages[Kid(t.pages[q], 1)], t.pages[Kid(t.pages[q], 0)]) == Some(StolenSeparator)
    ensures NoTree(rank, RightLoanPages(rank, t.pages, q, 0), t.root)
  {
    hide Shape, PageOk, Ordered, MoveSeparator, Costs, SeparatorFits, InsertCell, InsertSep, RemoveAt;
    var pages := RightLoanPages(rank, t.pages, q, 0);
    var x, r := Kid(t.pages[q], 0), Kid(t.pages[q], 1);
    var b := t.pages[r].entries[0].key;
    AreNeighboursApart(rank, t, q, 0);
    KidIn(rank, t, q, 0);
    KidIn(rank, t, q, 1);
    GrandchildApart(rank, t, q, 0, r, 0);
    RightBorrowerHas(rank, t.pages[x], t.pages[r], t.info[x], t.info[r]);
    MovedSeparator(rank, t.pages[q], 0, b);
    var j := |t.pages[x].entries|;
    assert pages[x].entries == t.pages[x].entries + [KP(b, t.pages[r].first)];
    assert pages[x].entries[j].key == b && pages[q].entries[0].key == b;
    forall info: map<PageId, Info> ensures !Shape(rank, Tree(pages, info, t.root, Whole)) {
      RepeatedSeparator(rank, Tree(pages, info, t.root, Whole), q, 0, j);
    }
  }

  // ---------------------------------------------------------- an emptied lender

  /** Ranges are determined by the pages above. */
  lemma {:induction false} RangeStarts(rank: Rank, t: Tree, t': Tree, crumbs: seq<PageId>, q: PageId)
    requires Shape(rank, t) && t.pend == Whole && Shape(rank, t') && t'.pend == Whole && t'.root == t.root
    requires q in t.pages && PathTo(t, crumbs, q)
    requires forall c :: c in crumbs ==> c in t.pages && c in t'.pages && t'.pages[c] == t.pages[c]
    ensures q in t'.info && t'.info[q].lo == t.info[q].lo
    decreases |crumbs|
  {
    hide PageOk;
    if crumbs != [] {
      var p, init := crumbs[|crumbs| - 1], crumbs[..|crumbs| - 1];
      assert p in crumbs && forall c :: c in init ==> c in crumbs;
      RangeStarts(rank, t, t', init, p);
      SiblingLevels(rank, t, p, q);
      var j := ChildIndex(t.pages[p], q);
      KidIn(rank, t, p, j);
      KidIn(rank, t', p, j);
    }
  }

  /** A lender whose only cell is its lower bound: the new separator repeats the one before it,
      here or in an ancestor. */
  lemma EmptiedLenderBreaks(rank: Rank, t: Tree, crumbs: seq<PageId>, q: PageId, s: nat)
    requires Ordered(rank) && Shape(rank, t) && t.pend == Whole && LoanReady(t.pages, q, s) && !t.pages[q].leaf
    requires Used(t.pages[q]) <= USABLE && PathTo(t, crumbs, q)
    requires LeftLoan(rank, Low(t.info, Kid(t.pages[q], s)), t.pages[q], s, t.pages[Kid(t.pages[q], s)], t.pages[Kid(t.pages[q], s + 1)])
             == Some(EmptiedLender)
    ensures NoTree(rank, LeftLoanPages(rank, t.pages, q, s), t.root)
  {
    hide Shape, PageOk, Ordered, MoveSeparator, Costs, SeparatorFits, InsertCell, RemoveAt;
    var pages := LeftLoanPages(rank, t.pages, q, s);
    var l, x := Kid(t.pages[q], s), Kid(t.pages[q], s + 1);
    var e := t.pages[l].entries[|t.pages[l].entries| - 1];
    assert e in t.pages[l].entries;
    AreNeighboursApart(rank, t, q, s);
    KidIn(rank, t, q, s);
    PathApart(rank, t, crumbs, q, s);
    RepeatedKey(rank, t.pages[q], s, e.key);
    RenamedRoom(rank, t.pages[q], s, e.key);
    forall info: map<PageId, Info> ensures !Shape(rank, Tree(pages, info, t.root, Whole)) {
      var t' := Tree(pages, info, t.root, Whole);
      if Shape(rank, t') { RangeStarts(rank, t, t', crumbs, q); }
      RepeatedKeyBreaks(rank, t, t', q, s, e.key);
    }
  }

  lemma RepeatedKeyBreaks(rank: Rank, t: Tree, t': Tree, q: PageId, s: nat, b: Key)
    requires Ordered(rank) && q in t.pages && q in t.info && s < |t.pages[q].entries| && q in t'.pages && !t'.pages[q].leaf
    requires Shape(rank, t') ==> q in t'.info && t'.info[q].lo == t.info[q].lo
    requires rank(b) <= KidRange(rank, t.pages[q], t.info[q], s).lo && HasKey(t'.pages[q].entries, b)
    requires s > 0 && t.pages[q].entries[s - 1].key == b ==> Twice(t'.pages[q].entries, b)
    requires s > 0 ==> rank(t.pages[q].entries[s - 1].key) <= rank(b)
    ensures !Shape(rank, t')
  {
    hide KidsOk, AttachedOk, ChainOk, Ordered;
    if Shape(rank, t') { assert PageOk(rank, t', q); }
    if s > 0 { SameRank(rank, t.pages[q].entries[s - 1].key, b); }
  }

  ghost predicate Twice(es: seq<Entry>, k: Key) {
    exists i, j :: 0 <= i < j < |es| && es[i].key == k && es[j].key == k
  }

  lemma RepeatedKey(rank: Rank, n: Node, s: nat, b: Key)
    requires s < |n.entries| && n.entries[s].KP? && Used(n) <= USABLE && SeparatorFits(n, s, b)
    ensures HasKey(MoveSeparator(rank, n, s, b).1.entries, b)
    ensures s > 0 && n.entries[s - 1].key == b ==> Twice(MoveSeparator(rank, n, s, b).1.entries, b)
  {
    hide Costs, SeparatorFits, Inserted, Removed, LowerBound;
    RenamedRoom(rank, n, s, b);
    var es := MoveSeparator(rank, n, s, b).1.entries;
    if |n.entries[s].key| == |b| {
      assert es[s].key == b && (s > 0 ==> es[s - 1] == n.entries[s - 1]);
    } else {
      var cut := Removed(n.entries, s);
      var j := LowerBound(rank, cut, b);
      RemovedEntries(n.entries, s);
      InsertedEntries(cut, j, KP(b, ChildOf(n.entries[s])));
      assert es[j].key == b;
      if s > 0 && n.entries[s - 1].key == b {
        assert cut[s - 1] == n.entries[s - 1];
        assert j <= s - 1 && es[s].key == b;
      }
    }
  }

  /** A leaf loan leaves the ancestors of `q` alone. */
  lemma PathApart(rank: Rank, t: Tree, crumbs: seq<PageId>, q: PageId, s: nat)
    requires Shape(rank, t) && t.pend == Whole && LoanReady(t.pages, q, s) && !t.pages[q].leaf && PathTo(t, crumbs, q)
    requires t.pages[Kid(t.pages[q], s)].leaf && t.pages[Kid(t.pages[q], s)].entries != []
    ensures var pages := LeftLoanPages(rank, t.pages, q, s);
            forall c :: c in crumbs ==> c in t.pages && c in pages && pages[c] == t.pages[c]
  {
    hide Shape, PageOk, MoveSeparator, InsertCell, RemoveAt;
    FramedTree(rank, t);
    AreNeighboursApart(rank, t, q, s);
    PathLevels(t, crumbs, q);
    forall c | c in crumbs ensures c in t.pages && c in t.info && t.info[c].level > t.info[q].level {
      var i :| 0 <= i < |crumbs| && crumbs[i] == c;
    }
  }

  // ------------------------------------------------------------- dead bytes

  /** Removing every cell, one by one, triggers the repair only if the dead bytes stay under half a page. */
  lemma EmptiedUnderflows(n: Node)
    ensures KeepFirst(n, 0).entries == []
    ensures Underflow(KeepFirst(n, 0)) <==> n.dead + Payloads(n.entries) < USABLE / 2
  {
    assert n.entries[0..] == n.entries;
  }

  /** A leaf filled within the limit whose cells were all removed, and that still counts as half full. */
  lemma EmptyYetNotUnderflowing()
    ensures exists n: Node :: n.leaf && NodeSized(LEAF_LIMIT, n) && !Underflow(KeepFirst(n, 0)) && KeepFirst(n, 0).entries == []
  {
    var v: Value := seq(1003, i => 0);
    var es := [KV([1], v), KV([2], v), KV([3], v)];
    var n := EmptyLeaf(NO_PAGE).(entries := es);
    CostsPrefix(es, 0);
    CostsPrefix(es, 1);
    CostsPrefix(es, 2);
    assert es[..3] == es;
    PayloadsCosts(es);
    EmptiedUnderflows(n);
    assert NodeSized(LEAF_LIMIT, n);
  }
}
