/** What a repair without faults leaves behind: the root still branches, no page on the search path
    that lost entries is left underflowing, and pages below the repair keep their cells. */
module Relief {
  import opened Base
  import opened Nodes
  import opened Trees
  import opened TreeEdits
  import opened TreeRepairs
  import opened TreeBooks
  import opened Rebalancing
  import opened Diagnoses
  import opened RepairFaults
  import opened RepairOutcomes
  import FreeLists

  /** A root that is not a leaf has a separator, so at least two children. */
  ghost predicate RootBranches(t: Tree) {
    t.root in t.pages && (!t.pages[t.root].leaf ==> t.pages[t.root].entries != [])
  }

  /** If `c` is still there, not the root, and has fewer entries than before, it does not underflow. */
  ghost predicate Relieved(was: map<PageId, Node>, now: map<PageId, Node>, root: PageId, c: PageId) {
    c in was && c in now && c != root && |now[c].entries| < |was[c].entries| ==> !Underflow(now[c])
  }

  ghost predicate AllRelieved(was: map<PageId, Node>, now: map<PageId, Node>, root: PageId, crumbs: seq<PageId>) {
    forall i :: 0 <= i < |crumbs| ==> Relieved(was, now, root, crumbs[i])
  }

  ghost predicate SameBelow(was: map<PageId, Node>, info: map<PageId, Info>, now: map<PageId, Node>, level: int) {
    forall c :: c in was && c in info && info[c].level < level ==> c in now && now[c].entries == was[c].entries
  }

  /** A page that underflowed has grown or is gone. Leaves may also have been given one cell. */
  ghost predicate Grew(was: map<PageId, Node>, now: map<PageId, Node>, x: PageId) {
    x in was && x in now ==> |now[x].entries| > |was[x].entries|
  }

  /** What the repair of `x` below `crumbs` achieves. */
  ghost predicate Repaired(was: map<PageId, Node>, info: map<PageId, Info>, now: map<PageId, Node>, root: PageId,
                           crumbs: seq<PageId>, x: PageId) {
    && x in was && x in info && now.Keys <= was.Keys
    && AllRelieved(was, now, root, crumbs)
    && SameBelow(was, info, now, info[x].level)
    && (!was[x].leaf ==> Grew(was, now, x))
  }

  /** What has to be achieved above a merge, for its parent `q`. */
  ghost predicate Settled(was: map<PageId, Node>, info: map<PageId, Info>, now: map<PageId, Node>, root: PageId,
                          crumbs: seq<PageId>, q: PageId) {
    && q in was && q in info && now.Keys <= was.Keys
    && AllRelieved(was, now, root, crumbs)
    && SameBelow(was, info, now, info[q].level)
    && (q in now && q != root && Underflow(now[q]) ==> Grew(was, now, q))
  }

  /** All pages but these three kept their kind and their cells. */
  ghost predicate Touches(was: map<PageId, Node>, now: map<PageId, Node>, a: PageId, b: PageId, q: PageId) {
    forall c :: c in was && c != a && c != b && c != q ==>
                  c in now && now[c].leaf == was[c].leaf && now[c].entries == was[c].entries
  }

  /** Which repair was made of the pages before: the left neighbour lends if it does not underflow,
      else the right one if it does not, else `x` absorbs its right neighbour, and without one the
      left neighbour absorbs `x`. */
  ghost predicate Chosen(rank: Rank, was: map<PageId, Node>, now: map<PageId, Node>, q: PageId, x: PageId) {
    && KidsThere(was, q)
    && var parent, i := was[q], ChildIndex(was[q], x);
       && i <= |parent.entries|
       && if i > 0 && !Underflow(was[Kid(parent, i - 1)]) then
            LoanReady(was, q, i - 1) && was[Kid(parent, i - 1)].entries != [] && now == LeftLoanPages(rank, was, q, i - 1)
          else if i < |parent.entries| && !Underflow(was[Kid(parent, i + 1)]) then
            && LoanReady(was, q, i)
            && var lender := was[Kid(parent, i + 1)];
               |lender.entries| >= (if lender.leaf then 2 else 1) && now == RightLoanPages(rank, was, q, i)
          else (if i < |parent.entries| then Kid(parent, i + 1) else x) !in now
  }

  /** What the code makes of two neighbours: all cells in order, around the separator if they are
      internal; dead bytes survive unless a compaction was needed on the way. */
  ghost predicate JoinedFrom(rank: Rank, l: Node, r: Node, sep: Key, n: Node) {
    if l.leaf then n == l.(entries := l.entries + r.entries, dead := l.dead)
    else n == l.(entries := Inserted(l.entries, LowerBound(rank, l.entries, sep), KP(sep, r.first)) + r.entries,
                 dead := DeadAfter(l, Cost(KP(sep, r.first)) + Costs(r.entries)))
  }

  lemma JoinedGrows(rank: Rank, l: Node, r: Node, sep: Key, n: Node)
    requires JoinedFrom(rank, l, r, sep, n)
    ensures n.leaf == l.leaf && (!l.leaf ==> |n.entries| > |l.entries|)
  {
    hide Costs, LowerBound;
  }

  lemma ChosenLeft(rank: Rank, was: map<PageId, Node>, now: map<PageId, Node>, q: PageId, x: PageId, i: nat)
    requires KidsThere(was, q) && i == ChildIndex(was[q], x) && 0 < i <= |was[q].entries|
    requires !Underflow(was[Kid(was[q], i - 1)]) && LoanReady(was, q, i - 1) && was[Kid(was[q], i - 1)].entries != []
    requires now == LeftLoanPages(rank, was, q, i - 1)
    ensures Chosen(rank, was, now, q, x) && now.Keys == was.Keys
  {
    hide LeftLoanPages, LoanReady, Underflow;
    LeftLoanFrame(rank, was, q, i - 1);
  }

  lemma ChosenRight(rank: Rank, was: map<PageId, Node>, now: map<PageId, Node>, q: PageId, x: PageId, i: nat)
    requires KidsThere(was, q) && i == ChildIndex(was[q], x) && i < |was[q].entries| && (i > 0 ==> Underflow(was[Kid(was[q], i - 1)]))
    requires !Underflow(was[Kid(was[q], i + 1)]) && LoanReady(was, q, i)
    requires var lender := was[Kid(was[q], i + 1)];
             |lender.entries| >= (if lender.leaf then 2 else 1) && now == RightLoanPages(rank, was, q, i)
    ensures Chosen(rank, was, now, q, x) && now.Keys == was.Keys
  {
    hide RightLoanPages, LoanReady, Underflow;
    RightLoanFrame(rank, was, q, i);
  }

  lemma ChosenMerge(rank: Rank, was: map<PageId, Node>, now: map<PageId, Node>, q: PageId, x: PageId, i: nat)
    requires KidsThere(was, q) && i == ChildIndex(was[q], x) && i <= |was[q].entries|
    requires i > 0 ==> Underflow(was[Kid(was[q], i - 1)])
    requires i < |was[q].entries| ==> Underflow(was[Kid(was[q], i + 1)])
    requires (if i < |was[q].entries| then Kid(was[q], i + 1) else x) !in now
    ensures Chosen(rank, was, now, q, x)
  {
    hide Underflow;
  }

  // --------------------------------------------------------------------- frames

  lemma MovedCount(rank: Rank, n: Node, s: nat, b: Key)
    requires s < |n.entries| && n.entries[s].KP? && Used(n) <= USABLE && SeparatorFits(n, s, b)
    ensures var n' := MoveSeparator(rank, n, s, b).1; n'.leaf == n.leaf && |n'.entries| == |n.entries|
  {
    hide Costs, LowerBound, PlaceAt;
    RenamedRoom(rank, n, s, b);
  }

  lemma LeftLoanFrame(rank: Rank, pages: map<PageId, Node>, q: PageId, s: nat)
    requires LoanReady(pages, q, s) && pages[Kid(pages[q], s)].entries != []
    ensures var now := LeftLoanPages(rank, pages, q, s);
            var l := pages[Kid(pages[q], s)];
            && now.Keys == pages.Keys && Touches(pages, now, Kid(pages[q], s), Kid(pages[q], s + 1), q)
            && now[q] == MoveSeparator(rank, pages[q], s, l.entries[|l.entries| - 1].key).1
  {
    hide LeftBorrower, MoveSeparator, RemoveAt;
  }

  lemma RightLoanFrame(rank: Rank, pages: map<PageId, Node>, q: PageId, i: nat)
    requires LoanReady(pages, q, i)
    requires var lender := pages[Kid(pages[q], i + 1)]; |lender.entries| >= if lender.leaf then 2 else 1
    ensures var now := RightLoanPages(rank, pages, q, i);
            && now.Keys == pages.Keys && Touches(pages, now, Kid(pages[q], i), Kid(pages[q], i + 1), q)
            && now[q] == MoveSeparator(rank, pages[q], TurnSlot(i), RightBoundary(pages[Kid(pages[q], i + 1)])).1
  {
    hide RightBorrower, MoveSeparator, RemoveAt;
  }

  lemma AbsorbedFrame(pages: map<PageId, Node>, q: PageId, slot: nat, l: PageId, r: PageId, n: Node)
    requires q in pages && l in pages && r in pages && slot < |pages[q].entries| && q != l && q != r && l != r
    ensures var now := AbsorbedPages(pages, q, slot, l, r, n);
            && now.Keys == pages.Keys - {r} && Touches(pages, now, l, r, q)
            && now[q] == RemoveAt(pages[q], slot) && now[l].entries == n.entries && now[l].leaf == n.leaf
  {
    hide RemoveAt, IsKid;
  }

  // ------------------------------------------------------------- one repair step

  lemma LeafByLevel(rank: Rank, t: Tree, p: PageId)
    requires Shape(rank, t) && p in t.pages
    ensures p in t.info && t.root in t.pages && t.root in t.info && (t.pages[p].leaf <==> t.info[p].level == 0)
    ensures t.info[p].level <= t.info[t.root].level
  {
    assert PageOk(rank, t, p);
  }

  /** The root keeps its separators when its entries and its level stay. */
  lemma RootKept(rank: Rank, t: Tree, t': Tree)
    requires Shape(rank, t) && Shape(rank, t') && RootBranches(t) && t'.root == t.root
    requires t.root in t'.pages && t.root in t'.info && t.root in t.info
    requires t'.info[t.root].level == t.info[t.root].level && t'.pages[t.root].entries == t.pages[t.root].entries
    ensures RootBranches(t')
  {
    hide Shape;
    LeafByLevel(rank, t, t.root);
    LeafByLevel(rank, t', t.root);
  }

  /** A loan between two leaves on the level of `x`. */
  lemma LoanRelieves(rank: Rank, t: Tree, crumbs: seq<PageId>, x: PageId, a: PageId, b: PageId, now: map<PageId, Node>)
    requires Shape(rank, t) && crumbs != [] && PathTo(t, crumbs, x) && x in t.pages && x in t.info && t.pages[x].leaf
    requires a in t.info && b in t.info && t.info[a].level == t.info[b].level == t.info[x].level
    requires var q := crumbs[|crumbs| - 1];
             && now.Keys == t.pages.Keys && q in t.pages && Touches(t.pages, now, a, b, q)
             && now[q].leaf == t.pages[q].leaf && |now[q].entries| == |t.pages[q].entries|
    ensures Repaired(t.pages, t.info, now, t.root, crumbs, x)
    ensures RootBranches(t) ==> RootBranches(t.(pages := now))
  {
    hide Shape, PathTo, Underflow;
    var q := crumbs[|crumbs| - 1];
    PathLevels(t, crumbs, x);
    LeafByLevel(rank, t, x);
    LeafByLevel(rank, t, q);
    forall i | 0 <= i < |crumbs| ensures Relieved(t.pages, now, t.root, crumbs[i]) {
      assert crumbs[i] != a && crumbs[i] != b;
    }
  }

  lemma LeftLoanRelieves(rank: Rank, t: Tree, crumbs: seq<PageId>, x: PageId, s: nat)
    requires Shape(rank, t) && t.pend == Whole && crumbs != [] && PathTo(t, crumbs, x) && x in t.pages
    requires var q := crumbs[|crumbs| - 1];
             && q in t.pages && !t.pages[q].leaf && Used(t.pages[q]) <= USABLE && s < |t.pages[q].entries|
             && LoanReady(t.pages, q, s) && Kid(t.pages[q], s + 1) == x
             && var l := Kid(t.pages[q], s);
                LeftLoan(rank, Low(t.info, l), t.pages[q], s, t.pages[l], t.pages[x]) == None
    ensures var q := crumbs[|crumbs| - 1];
            var now := LeftLoanPages(rank, t.pages, q, s);
            && Repaired(t.pages, t.info, now, t.root, crumbs, x)
            && (RootBranches(t) ==> RootBranches(t.(pages := now)))
  {
    hide Shape, PathTo, Underflow, Costs, MoveSeparator, LeftLoanPages, LoanReady, Repaired, RootBranches, SeparatorFits, NodeOk;
    var q := crumbs[|crumbs| - 1];
    var l := Kid(t.pages[q], s);
    ParentAbove(t, crumbs, x);
    LoanIsReady(rank, t, q, s);
    SiblingLevels(rank, t, q, x);
    LeftLoanFrame(rank, t.pages, q, s);
    MovedCount(rank, t.pages[q], s, t.pages[l].entries[|t.pages[l].entries| - 1].key);
    LoanRelieves(rank, t, crumbs, x, l, x, LeftLoanPages(rank, t.pages, q, s));
  }

  lemma RightLoanRelieves(rank: Rank, t: Tree, crumbs: seq<PageId>, x: PageId, i: nat)
    requires Shape(rank, t) && t.pend == Whole && crumbs != [] && PathTo(t, crumbs, x) && x in t.pages
    requires var q := crumbs[|crumbs| - 1];
             && q in t.pages && !t.pages[q].leaf && Used(t.pages[q]) <= USABLE && i < |t.pages[q].entries|
             && LoanReady(t.pages, q, i) && Kid(t.pages[q], i) == x
             && RightLoan(t.pages[q], i, t.pages[Kid(t.pages[q], i + 1)], t.pages[x]) == None
    ensures var q := crumbs[|crumbs| - 1];
            var now := RightLoanPages(rank, t.pages, q, i);
            && Repaired(t.pages, t.info, now, t.root, crumbs, x)
            && (RootBranches(t) ==> RootBranches(t.(pages := now)))
  {
    hide Shape, PathTo, Underflow, Costs, MoveSeparator, RightLoanPages, LoanReady, Repaired, RootBranches, SeparatorFits, NodeOk;
    var q := crumbs[|crumbs| - 1];
    var r := Kid(t.pages[q], i + 1);
    ParentAbove(t, crumbs, x);
    LoanIsReady(rank, t, q, i);
    SiblingLevels(rank, t, q, x);
    RightLoanFrame(rank, t.pages, q, i);
    MovedCount(rank, t.pages[q], TurnSlot(i), RightBoundary(t.pages[r]));
    LoanRelieves(rank, t, crumbs, x, x, r, RightLoanPages(rank, t.pages, q, i));
  }

  /** `l` has absorbed `r`, one of them being `x`, and the parent `q` has lost a separator. */
  ghost predicate MergedInto(t: Tree, q: PageId, x: PageId, l: PageId, r: PageId, mid: map<PageId, Node>, info: map<PageId, Info>) {
    && x in t.pages && x in t.info && (x == l || x == r) && t.pages.Keys == t.info.Keys
    && l in t.info && r in t.info && t.info[l].level == t.info[r].level == t.info[x].level
    && (forall c :: c in t.info && c != r ==> c in info && info[c].level == t.info[c].level)
    && q in t.pages && Touches(t.pages, mid, l, r, q) && mid.Keys == t.pages.Keys - {r} && l in mid && q in mid
    && |mid[q].entries| == |t.pages[q].entries| - 1
    && (!t.pages[x].leaf ==> |mid[l].entries| > |t.pages[l].entries|)
  }

  /** A merge of `l` and `r` below `q`, and what was achieved above it. */
  lemma MergeRelieves(t: Tree, crumbs: seq<PageId>, x: PageId, l: PageId, r: PageId, mid: map<PageId, Node>,
                      info: map<PageId, Info>, now: map<PageId, Node>, root: PageId)
    requires crumbs != [] && PathTo(t, crumbs, x) && x in t.pages && x in t.info
    requires var q := crumbs[|crumbs| - 1];
             MergedInto(t, q, x, l, r, mid, info) && Settled(mid, info, now, root, crumbs[..|crumbs| - 1], q)
    ensures Repaired(t.pages, t.info, now, root, crumbs, x) && r !in now
  {
    hide PathTo, Underflow;
    var q, init := crumbs[|crumbs| - 1], crumbs[..|crumbs| - 1];
    PathLevels(t, crumbs, x);
    ParentAbove(t, crumbs, x);
    PathLevels(t, init, q);
    forall i | 0 <= i < |crumbs| ensures Relieved(t.pages, now, root, crumbs[i]) {
      if i < |init| {
        assert init[i] == crumbs[i] && Relieved(mid, now, root, init[i]);
        assert crumbs[i] != l && crumbs[i] != r && crumbs[i] != q;
      }
    }
    forall c | c in t.pages && c in t.info && t.info[c].level < t.info[x].level
      ensures c in now && now[c].entries == t.pages[c].entries
    {
      assert c != l && c != r && c != q;
    }
  }

  lemma AftermathFrame(rank: Rank, t: Tree, pages: map<PageId, Node>, info: map<PageId, Info>, freed: nat,
                       crumbs: seq<PageId>, q: PageId, nq: Node)
    requires Shape(rank, t) && t.pend == Whole && PathTo(t, crumbs, q) && q in t.pages
    requires forall c :: c in t.pages && c != q && t.info[c].level >= t.info[q].level ==>
               c in pages && pages[c] == t.pages[c] && c in info && info[c] == t.info[c]
    requires PathThere(t.pages, crumbs) && PathThere(pages, crumbs)
    ensures Aftermath(rank, info, pages, t.root, freed, crumbs, q, nq) == Aftermath(rank, t.info, t.pages, t.root, freed, crumbs, q, nq)
  {
    hide Shape, Diagnosis, PathTo, PathThere, Underflow;
    DiagnosisFrame(rank, t, pages, info, freed, crumbs, q, nq);
  }

  lemma RemovedFirst(n: Node, j: nat)
    requires j < |n.entries|
    ensures var n' := RemoveAt(n, j);
            && n'.leaf == n.leaf && n'.first == n.first && |n'.entries| == |n.entries| - 1
            && (n'.entries == [] ==> Kid(n, j) == n'.first)
  {
  }

  /** A merge below a page that is not the root leaves the root as it was. */
  lemma MergeKeepsRoot(rank: Rank, t: Tree, q: PageId, j: nat, pages: map<PageId, Node>)
    requires Shape(rank, t) && t.pend == Whole && RootBranches(t) && q in t.pages && !t.pages[q].leaf && j < |t.pages[q].entries|
    requires Touches(t.pages, pages, Kid(t.pages[q], j), Kid(t.pages[q], j + 1), q)
    ensures q != t.root ==> RootBranches(t.(pages := pages))
  {
    hide NodeOk, ChainOk, AttachedOk;
    assert PageOk(rank, t, q);
    assert KidOk(rank, t, q, j) && KidOk(rank, t, q, j + 1);
  }

  lemma PathInit(pages: map<PageId, Node>, crumbs: seq<PageId>)
    requires PathThere(pages, crumbs) && crumbs != []
    ensures PathThere(pages, crumbs[..|crumbs| - 1])
  {
    var init := crumbs[..|crumbs| - 1];
    forall i | 0 <= i < |init| ensures KidsThere(pages, init[i]) { assert init[i] == crumbs[i]; }
  }

  /** After a sound merge of children `j` and `j + 1` the way up is as it was, and so is what will be
      diagnosed there. */
  lemma AfterMerge(lim: nat, rank: Rank, t: Tree, crumbs: seq<PageId>, x: PageId, j: nat, joined: Node,
                   mid: map<PageId, Node>, info: map<PageId, Info>, m: map<Key, Value>, freed: nat)
    requires Shape(rank, t) && t.pend == Whole && RootBranches(t) && crumbs != [] && PathTo(t, crumbs, x) && x in t.pages
    requires PathThere(t.pages, crumbs)
    requires var q := crumbs[|crumbs| - 1];
             && q in t.pages && !t.pages[q].leaf && j < |t.pages[q].entries| && KidsThere(t.pages, q)
             && MergedWell(lim, rank, t, q, j, mid, info, m)
             && var l, r := Kid(t.pages[q], j), Kid(t.pages[q], j + 1);
                && (x == l || x == r) && mid == AbsorbedPages(t.pages, q, j, l, r, joined)
                && JoinedFrom(rank, t.pages[l], t.pages[r], t.pages[q].entries[j].key, joined)
    ensures var q, init := crumbs[|crumbs| - 1], crumbs[..|crumbs| - 1];
            var l, r := Kid(t.pages[q], j), Kid(t.pages[q], j + 1);
            && MergedInto(t, q, x, l, r, mid, info)
            && PathTo(Tree(mid, info, t.root, Whole), init, q) && PathThere(mid, init) && PathThere(t.pages, init)
            && Aftermath(rank, info, mid, t.root, freed, init, q, mid[q]) == Aftermath(rank, t.info, t.pages, t.root, freed, init, q, mid[q])
            && mid[q] == RemoveAt(t.pages[q], j) && !mid[q].leaf && (mid[q].entries == [] ==> l == mid[q].first)
            && (if q != t.root then RootBranches(Tree(mid, info, t.root, Whole)) else l in mid && (mid[l].leaf || mid[l].entries != []))
  {
    hide Shape, PathTo, PathThere, Costs, Underflow, Aftermath, AbsorbedPages, JoinedFrom, NodeOk, Stores, Sized;
    var q, init := crumbs[|crumbs| - 1], crumbs[..|crumbs| - 1];
    var l, r := Kid(t.pages[q], j), Kid(t.pages[q], j + 1);
    var t' := Tree(mid, info, t.root, Whole);
    ParentAbove(t, crumbs, x);
    LoanIsReady(rank, t, q, j);
    SiblingLevels(rank, t, q, x);
    AbsorbedFrame(t.pages, q, j, l, r, joined);
    JoinedGrows(rank, t.pages[l], t.pages[r], t.pages[q].entries[j].key, joined);
    RemovedFirst(t.pages[q], j);
    MergeKeepsRoot(rank, t, q, j, mid);
    PathInit(t.pages, crumbs);
    PathFrame(t, t', init, q);
    PathIsThere(rank, t', init, q);
    AftermathFrame(rank, t, mid, info, freed, init, q, mid[q]);
  }

  lemma ParentAbove(t: Tree, crumbs: seq<PageId>, x: PageId)
    requires crumbs != [] && PathTo(t, crumbs, x)
    ensures var q := crumbs[|crumbs| - 1];
            && x in t.pages && q in t.pages && x in t.info && q in t.info && t.info[q].level == t.info[x].level + 1
            && PathTo(t, crumbs[..|crumbs| - 1], q) && x != t.root && t.pages[x].parent == q
  {
  }

  /** A repair of an internal page settles what the merge below it asked for. */
  lemma RepairSettles(was: map<PageId, Node>, info: map<PageId, Info>, now: map<PageId, Node>, root: PageId,
                      crumbs: seq<PageId>, q: PageId)
    requires Repaired(was, info, now, root, crumbs, q) && !was[q].leaf
    ensures Settled(was, info, now, root, crumbs, q)
  {
    hide Underflow;
  }

  /** Nothing was done above the merge: `q` does not underflow or is the root. */
  lemma AlreadySettled(pages: map<PageId, Node>, info: map<PageId, Info>, root: PageId, crumbs: seq<PageId>, q: PageId)
    requires q in pages && q in info && (Underflow(pages[q]) ==> q == root)
    ensures Settled(pages, info, pages, root, crumbs, q)
  {
    hide Underflow;
  }

  /** The root `q` gave way to its only child. */
  lemma CollapseSettles(pages: map<PageId, Node>, info: map<PageId, Info>, now: map<PageId, Node>, root: PageId, q: PageId)
    requires q in pages && q in info && now.Keys == pages.Keys - {q}
    requires forall c :: c in now ==> now[c].entries == pages[c].entries
    ensures Settled(pages, info, now, root, [], q)
  {
    hide Underflow;
  }

  // ------------------------------------------------------- when an assertion fails

  /** The page operations of the chosen repair of `x` below `q` succeed: the lender has a cell to
      give, the borrower and the parent accept theirs, or the joined cells fit and the free list has room. */
  ghost predicate Doable(rank: Rank, pages: map<PageId, Node>, freed: nat, q: PageId, x: PageId)
    requires KidsThere(pages, q) && x in pages
  {
    var parent, i := pages[q], ChildIndex(pages[q], x);
    && parent.entries != [] && i <= |parent.entries|
    && if i > 0 && !Underflow(pages[Kid(parent, i - 1)]) then
         && LoanReady(pages, q, i - 1)
         && var lender := pages[Kid(parent, i - 1)];
            lender.entries != [] && LeftTaken(rank, parent, i - 1, lender, pages[x])
       else if i < |parent.entries| && !Underflow(pages[Kid(parent, i + 1)]) then
         && LoanReady(pages, q, i)
         && var lender := pages[Kid(parent, i + 1)];
            |lender.entries| >= (if lender.leaf then 2 else 1) && RightTaken(rank, parent, i, lender, pages[x])
       else
         var l, r := pages[Kid(parent, MergeSlot(parent, i))], pages[Kid(parent, MergeSlot(parent, i) + 1)];
         && freed < FreeLists.MAX_FREE_PAGES
         && Costs(l.entries) + (if l.leaf then 0 else Cost(KP(parent.entries[TurnSlot(i)].key, r.first))) + Costs(r.entries) <= USABLE
  }

  ghost predicate LeftTaken(rank: Rank, parent: Node, s: nat, lender: Node, x: Node)
    requires s < |parent.entries| && lender.entries != [] && lender.leaf == x.leaf
    requires forall e :: e in lender.entries || e in x.entries ==> (e.KV? <==> lender.leaf)
  {
    var e := lender.entries[|lender.entries| - 1];
    LeftBorrower(rank, x, e).0 && MoveSeparator(rank, parent, s, e.key).0
  }

  ghost predicate RightTaken(rank: Rank, parent: Node, i: nat, lender: Node, x: Node)
    requires i < |parent.entries| && lender.leaf == x.leaf && |lender.entries| >= if lender.leaf then 2 else 1
    requires forall e :: e in lender.entries || e in x.entries ==> (e.KV? <==> lender.leaf)
  {
    RightBorrower(rank, x, lender).0 && MoveSeparator(rank, parent, TurnSlot(i), RightBoundary(lender)).0
  }

  /** Child `i` is merged with its right neighbour, or with its left one if it is the last. */
  function MergeSlot(parent: Node, i: nat): nat
    requires i <= |parent.entries| && parent.entries != []
  {
    if i < |parent.entries| then i else i - 1
  }

  /** A sound merge leaves the parent `q` in need of repair, or a root to be dropped that cannot be. */
  ghost predicate GoesOn(pages: map<PageId, Node>, root: PageId, freed: nat, q: PageId, x: PageId)
    requires KidsThere(pages, q)
  {
    var parent, i := pages[q], ChildIndex(pages[q], x);
    && parent.entries != [] && i <= |parent.entries|
    && (i > 0 ==> Underflow(pages[Kid(parent, i - 1)])) && (i < |parent.entries| ==> Underflow(pages[Kid(parent, i + 1)]))
    && TurnSlot(i) == MergeSlot(parent, i)
    && var nq := RemoveAt(parent, TurnSlot(i));
       if q == root then nq.entries == [] && freed + 1 >= FreeLists.MAX_FREE_PAGES else Underflow(nq)
  }

  /** An assertion fails exactly when a page operation of the repair refuses or, after a sound merge,
      the root cannot be freed or an assertion fails further up. */
  lemma StopsWhen(lim: nat, rank: Rank, t: Tree, freed: nat, crumbs: seq<PageId>, x: PageId)
    requires Ordered(rank) && Shape(rank, t) && t.pend == Whole && Sized(lim, t.pages) && crumbs != [] && PathTo(t, crumbs, x)
    requires PathThere(t.pages, crumbs) && x in t.pages && Underflow(t.pages[x])
    ensures var q, init := crumbs[|crumbs| - 1], crumbs[..|crumbs| - 1];
            && KidsThere(t.pages, q) && PathThere(t.pages, init)
            && (Stops(Diagnosis(rank, t.info, t.pages, t.root, freed, crumbs, x, t.pages[x])) <==>
                  || !Doable(rank, t.pages, freed, q, x)
                  || (GoesOn(t.pages, t.root, freed, q, x)
                      && (q == t.root || Stops(Diagnosis(rank, t.info, t.pages, t.root, freed + 1, init, q,
                                                         RemoveAt(t.pages[q], TurnSlot(ChildIndex(t.pages[q], x))))))))
  {
    hide Shape, Ordered, Sized, PathTo, PathThere, Costs, LeftLoan, RightLoan, Join, LeftTaken, RightTaken, LoanReady, RemoveAt, NodeOk, Underflow;
    var q := crumbs[|crumbs| - 1];
    PathInit(t.pages, crumbs);
    ParentAbove(t, crumbs, x);
    assert KidsThere(t.pages, q) by { PathStep(t.pages, crumbs); }
    SiblingLevels(rank, t, q, x);
    SizedAt(lim, t.pages, q);
    SizedAt(lim, t.pages, x);
    var parent, i := t.pages[q], ChildIndex(t.pages[q], x);
    if parent.entries != [] {
      if i > 0 && !Underflow(t.pages[Kid(parent, i - 1)]) {
        LoanIsReady(rank, t, q, i - 1);
        LeftStops(rank, t, q, i - 1);
      } else if i < |parent.entries| && !Underflow(t.pages[Kid(parent, i + 1)]) {
        LoanIsReady(rank, t, q, i);
        RightStops(rank, t, q, i);
      } else {
        LoanIsReady(rank, t, q, MergeSlot(parent, i));
        var l, r := t.pages[Kid(parent, MergeSlot(parent, i))], t.pages[Kid(parent, MergeSlot(parent, i) + 1)];
        JoinStops(parent, TurnSlot(i), TurnSlot(i) == MergeSlot(parent, i), l, r, freed);
        KindsAlike(t.pages, q, MergeSlot(parent, i));
        var d := MergeDiagnosis(rank, t.info, t.pages, t.root, freed, crumbs, i, t.pages[x]);
        assert Diagnosis(rank, t.info, t.pages, t.root, freed, crumbs, x, t.pages[x]) == d;
        var up := Aftermath(rank, t.info, t.pages, t.root, freed + 1, crumbs[..|crumbs| - 1], q, RemoveAt(parent, TurnSlot(i)));
        assert Stops(d) <==> Stops(Join(parent, TurnSlot(i), TurnSlot(i) == MergeSlot(parent, i), l, r, freed))
                             || (TurnSlot(i) == MergeSlot(parent, i) && Stops(up));
      }
    }
  }

  lemma PathStep(pages: map<PageId, Node>, crumbs: seq<PageId>)
    requires PathThere(pages, crumbs) && crumbs != []
    ensures KidsThere(pages, crumbs[|crumbs| - 1])
  {
  }

  lemma KindsAlike(pages: map<PageId, Node>, q: PageId, j: nat)
    requires LoanReady(pages, q, j)
    ensures pages[Kid(pages[q], j)].leaf == pages[Kid(pages[q], j + 1)].leaf
  {
  }

  lemma LeftStops(rank: Rank, t: Tree, q: PageId, s: nat)
    requires Shape(rank, t) && t.pend == Whole && q in t.pages && !t.pages[q].leaf && s < |t.pages[q].entries|
    requires LoanReady(t.pages, q, s) && Used(t.pages[q]) <= USABLE && Used(t.pages[Kid(t.pages[q], s + 1)]) <= USABLE
    ensures var l, x := Kid(t.pages[q], s), Kid(t.pages[q], s + 1);
            Stops(LeftLoan(rank, Low(t.info, l), t.pages[q], s, t.pages[l], t.pages[x])) <==>
              t.pages[l].entries == [] || !LeftTaken(rank, t.pages[q], s, t.pages[l], t.pages[x])
  {
    hide Shape, Costs, SeparatorFits, MoveSeparator, LeftBorrower, NodeOk;
    LoanIsReady(rank, t, q, s);
    var l, x := Kid(t.pages[q], s), Kid(t.pages[q], s + 1);
    if t.pages[l].entries != [] { LeftLoanRoom(rank, t.pages[q], s, t.pages[l], t.pages[x], t.info[l], t.info[x]); }
  }

  lemma RightStops(rank: Rank, t: Tree, q: PageId, i: nat)
    requires Ordered(rank) && Shape(rank, t) && t.pend == Whole && q in t.pages && !t.pages[q].leaf && i < |t.pages[q].entries|
    requires LoanReady(t.pages, q, i) && Used(t.pages[q]) <= USABLE && Used(t.pages[Kid(t.pages[q], i)]) <= USABLE
    ensures var x, r := Kid(t.pages[q], i), Kid(t.pages[q], i + 1);
            Stops(RightLoan(t.pages[q], i, t.pages[r], t.pages[x])) <==>
              |t.pages[r].entries| < (if t.pages[r].leaf then 2 else 1) || !RightTaken(rank, t.pages[q], i, t.pages[r], t.pages[x])
  {
    hide Shape, Costs, SeparatorFits, MoveSeparator, RightBorrower, NodeOk, Ordered;
    LoanIsReady(rank, t, q, i);
    LoanIsReady(rank, t, q, TurnSlot(i));
    var x, r := Kid(t.pages[q], i), Kid(t.pages[q], i + 1);
    if |t.pages[r].entries| >= (if t.pages[r].leaf then 2 else 1) {
      RightLoanRoom(rank, t.pages[q], i, t.pages[x], t.pages[r], t.info[x], t.info[r]);
    }
  }

  lemma JoinStops(parent: Node, slot: nat, apt: bool, l: Node, r: Node, freed: nat)
    requires slot < |parent.entries| && Underflow(l) && Underflow(r)
    ensures Stops(Join(parent, slot, apt, l, r, freed)) <==>
            || freed >= FreeLists.MAX_FREE_PAGES
            || Costs(l.entries) + (if l.leaf then 0 else Cost(KP(parent.entries[slot].key, r.first))) + Costs(r.entries) > USABLE
    ensures apt ==> (Join(parent, slot, apt, l, r, freed) == None || Stops(Join(parent, slot, apt, l, r, freed)))
    ensures !apt ==> Join(parent, slot, apt, l, r, freed).Some?
  {
    hide Costs;
    UnderflowingLeavesFit(l, r);
  }

  // ---------------------------------------------------- a child without siblings

  /** The assertion that an underflowing page has a sibling can fail only below a page that is
      neither the root nor left with a separator. */
  lemma {:induction false} NoSiblingNeedsBareParent(rank: Rank, t: Tree, freed: nat, crumbs: seq<PageId>, x: PageId, nx: Node)
    requires Shape(rank, t) && t.pend == Whole && RootBranches(t) && PathTo(t, crumbs, x) && x in t.pages
    requires PathThere(t.pages, crumbs)
    requires Diagnosis(rank, t.info, t.pages, t.root, freed, crumbs, x, nx) == Some(NoSibling)
    ensures exists i :: 1 <= i < |crumbs| && t.pages[crumbs[i]].entries == []
    decreases |crumbs|
  {
    hide Shape, LeftLoan, RightLoan, Join, Underflow, RemoveAt;
    var q, init := crumbs[|crumbs| - 1], crumbs[..|crumbs| - 1];
    assert KidsThere(t.pages, q);
    ParentAbove(t, crumbs, x);
    SiblingLevels(rank, t, q, x);
    var i := ChildIndex(t.pages[q], x);
    if t.pages[q].entries == [] {
      assert t.pages[crumbs[|crumbs| - 1]].entries == [];
      assert init != [] ==> |crumbs| - 1 >= 1;
    } else {
      LoanVerdicts(rank, t, q, i, nx, freed);
      var nq := RemoveAt(t.pages[q], TurnSlot(i));
      assert forall j :: 0 <= j < |init| ==> init[j] == crumbs[j];
      assert Aftermath(rank, t.info, t.pages, t.root, freed + 1, init, q, nq) == Some(NoSibling);
      NoSiblingNeedsBareParent(rank, t, freed + 1, init, q, nq);
      var j :| 1 <= j < |init| && t.pages[init[j]].entries == [];
      assert t.pages[crumbs[j]].entries == [];
    }
  }

  /** No single repair reports a missing sibling. */
  lemma LoanVerdicts(rank: Rank, t: Tree, q: PageId, i: nat, nx: Node, freed: nat)
    requires KidsThere(t.pages, q) && i <= |t.pages[q].entries|
    ensures var p := t.pages[q];
            && (i > 0 ==>
                 && LeftLoan(rank, Low(t.info, Kid(p, i - 1)), p, i - 1, t.pages[Kid(p, i - 1)], nx) != Some(NoSibling)
                 && Join(p, i - 1, true, t.pages[Kid(p, i - 1)], nx, freed) != Some(NoSibling))
            && (i < |p.entries| ==>
                 && RightLoan(p, i, t.pages[Kid(p, i + 1)], nx) != Some(NoSibling)
                 && Join(p, TurnSlot(i), i == 0, nx, t.pages[Kid(p, i + 1)], freed) != Some(NoSibling))
  {
    hide Costs, SeparatorFits;
  }

  /** So no child of the root is ever found without a sibling. */
  lemma RootChildHasSibling(rank: Rank, t: Tree, freed: nat, x: PageId, nx: Node)
    requires Shape(rank, t) && t.pend == Whole && RootBranches(t) && PathTo(t, [t.root], x) && x in t.pages
    requires PathThere(t.pages, [t.root])
    ensures Diagnosis(rank, t.info, t.pages, t.root, freed, [t.root], x, nx) != Some(NoSibling)
  {
    hide Shape, Diagnosis, PathTo, PathThere;
    if Diagnosis(rank, t.info, t.pages, t.root, freed, [t.root], x, nx) == Some(NoSibling) {
      NoSiblingNeedsBareParent(rank, t, freed, [t.root], x, nx);
    }
  }
}
