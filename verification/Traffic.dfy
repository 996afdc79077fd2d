/** The page traffic of a tree operation: which pages it fetches, creates, edits, unpins and
    deletes, in the order the code does so. */
module Traffic {
  import opened Nodes
  import FreeLists

  datatype PoolOp = Fetch(p: PageId) | New(p: PageId) | Edit(p: PageId) | Unpin(p: PageId, dirty: bool) | Drop(p: PageId)

  /** Pins held, pages edited but not yet unpinned dirty, the file's pages, the most pins ever
      held at once, and the pages deleted so far. */
  datatype Ledger = Ledger(pins: multiset<PageId>, edited: set<PageId>, live: set<PageId>, free: seq<PageId>,
                           numPages: nat, peak: nat, drops: nat)

  function Max(a: nat, b: nat): nat { if a >= b then a else b }

  /** The page id the allocator hands out next. */
  function NextPage(free: seq<PageId>, numPages: nat): PageId {
    if free == [] then numPages else free[|free| - 1]
  }

  /** Only live pages are fetched, only pinned pages are edited or unpinned, an edited page is
      unpinned dirty, and only unpinned live pages are deleted. */
  predicate Allowed(l: Ledger, op: PoolOp) {
    match op
    case Fetch(p) => p in l.live
    case New(p) => p == NextPage(l.free, l.numPages) && p !in l.live && p !in l.pins
    case Edit(p) => p in l.pins
    case Unpin(p, dirty) => p in l.pins && (p in l.edited ==> dirty)
    case Drop(p) => p in l.live && p !in l.pins && |l.free| < FreeLists.MAX_FREE_PAGES
  }

  function Pinned(l: Ledger, p: PageId): Ledger {
    l.(pins := l.pins + multiset{p}, peak := Max(l.peak, |l.pins| + 1))
  }

  function Step(l: Ledger, op: PoolOp): Ledger {
    match op
    case Fetch(p) => Pinned(l, p)
    case New(p) =>
      Pinned(l, p).(edited := l.edited + {p}, live := l.live + {p},
                    free := if l.free == [] then [] else l.free[..|l.free| - 1],
                    numPages := if l.free == [] then l.numPages + 1 else l.numPages)
    case Edit(p) => l.(edited := l.edited + {p})
    case Unpin(p, dirty) => l.(pins := l.pins - multiset{p}, edited := if dirty then l.edited - {p} else l.edited)
    case Drop(p) => l.(live := l.live - {p}, free := l.free + [p], drops := l.drops + 1)
  }

  datatype Trace = Start(ledger: Ledger) | Then(before: Trace, op: PoolOp)

  function Now(tr: Trace): Ledger {
    match tr
    case Start(l) => l
    case Then(before, op) => Step(Now(before), op)
  }

  predicate Legal(tr: Trace) {
    tr.Start? || (Legal(tr.before) && Allowed(Now(tr.before), tr.op))
  }

  lemma DoIs(tr: Trace, op: PoolOp)
    requires Legal(tr) && Allowed(Now(tr), op)
    ensures Legal(Then(tr, op)) && Now(Then(tr, op)) == Step(Now(tr), op)
  {
  }

  /** `n` more pins at the same time. */
  function Raised(l: Ledger, n: nat): Ledger { l.(peak := Max(l.peak, |l.pins| + n)) }

  lemma PinsBack(m: multiset<PageId>, p: PageId)
    ensures m + multiset{p} - multiset{p} == m
  {
  }

  lemma PinsPass(m: multiset<PageId>, p: PageId, q: PageId)
    requires p in m
    ensures m + multiset{q} - multiset{p} - multiset{q} == m - multiset{p}
    ensures q in m + multiset{q} - multiset{p}
  {
  }

  /** Fetch a page and let go of it unchanged. */
  function Glance(tr: Trace, p: PageId): Trace { Then(Then(tr, Fetch(p)), Unpin(p, false)) }

  lemma GlanceIs(tr: Trace, p: PageId)
    requires Legal(tr) && p in Now(tr).live && p !in Now(tr).edited
    ensures Legal(Glance(tr, p)) && Now(Glance(tr, p)) == Raised(Now(tr), 1)
  {
    PinsBack(Now(tr).pins, p);
  }

  /** Fetch a page, change its header and unpin it dirty. */
  function Visit(tr: Trace, p: PageId): Trace { Then(Then(Then(tr, Fetch(p)), Edit(p)), Unpin(p, true)) }

  lemma VisitIs(tr: Trace, p: PageId)
    requires Legal(tr) && p in Now(tr).live && p !in Now(tr).edited
    ensures Legal(Visit(tr, p)) && Now(Visit(tr, p)) == Raised(Now(tr), 1)
  {
    hide Now, Legal;
    PinsBack(Now(tr).pins, p);
    DoIs(tr, Fetch(p));
    DoIs(Then(tr, Fetch(p)), Edit(p));
    DoIs(Then(Then(tr, Fetch(p)), Edit(p)), Unpin(p, true));
  }

  /** Visit a page if there is one. */
  function VisitAny(tr: Trace, p: PageId): Trace { if p == NO_PAGE then tr else Visit(tr, p) }

  lemma VisitAnyIs(tr: Trace, p: PageId)
    requires Legal(tr) && (p != NO_PAGE ==> p in Now(tr).live && p !in Now(tr).edited)
    ensures var r := VisitAny(tr, p);
            && Legal(r) && Now(r) == Now(tr).(peak := Now(r).peak)
            && Now(tr).peak <= Now(r).peak <= Max(Now(tr).peak, |Now(tr).pins| + 1)
  {
    hide Visit, Now, Legal;
    if p != NO_PAGE { VisitIs(tr, p); }
  }

  /** Unpin a page that was edited. */
  function LetGo(tr: Trace, p: PageId): Trace { Then(Then(tr, Edit(p)), Unpin(p, true)) }

  lemma LetGoIs(tr: Trace, p: PageId)
    requires Legal(tr) && p in Now(tr).pins
    ensures var r := LetGo(tr, p);
            Legal(r) && Now(r) == Now(tr).(pins := Now(tr).pins - multiset{p}, edited := Now(tr).edited - {p})
  {
    hide Now, Legal;
    DoIs(tr, Edit(p));
    DoIs(Then(tr, Edit(p)), Unpin(p, true));
  }

  /** A pinned leaf splits: a new page, the old right neighbour's link, then both are let go. */
  function LeafSplitTraffic(tr: Trace, leaf: PageId, right: PageId, next: PageId): Trace {
    LetGo(LetGo(VisitAny(Then(Then(tr, New(right)), Edit(leaf)), next), leaf), right)
  }

  lemma LeafSplitTrafficIs(tr: Trace, leaf: PageId, right: PageId, next: PageId)
    requires Legal(tr) && leaf in Now(tr).pins && Now(tr).edited == {} && Allowed(Now(tr), New(right)) && leaf != right
    requires next != NO_PAGE ==> next in Now(tr).live && next != leaf && next != right
    ensures var r, l := LeafSplitTraffic(tr, leaf, right, next), Step(Now(tr), New(right));
            && Legal(r) && Now(r).peak <= Max(Now(tr).peak, |Now(tr).pins| + 2)
            && Now(r) == l.(pins := Now(tr).pins - multiset{leaf}, edited := {}, peak := Now(r).peak)
  {
    hide VisitAny, LetGo, Now, Legal;
    var m := Now(tr).pins;
    PinsPass(m, leaf, right);
    var made := Then(Then(tr, New(right)), Edit(leaf));
    MadeIs(tr, leaf, right);
    VisitAnyIs(made, next);
    var linked := VisitAny(made, next);
    LetGoIs(linked, leaf);
    var half := LetGo(linked, leaf);
    assert Now(half).pins == m + multiset{right} - multiset{leaf} && Now(half).edited == {right};
    LetGoIs(half, right);
    assert Now(LetGo(half, right)).edited == {};
  }

  lemma MadeIs(tr: Trace, leaf: PageId, right: PageId)
    requires Legal(tr) && leaf in Now(tr).pins && Now(tr).edited == {} && Allowed(Now(tr), New(right)) && leaf != right
    ensures var r, l := Then(Then(tr, New(right)), Edit(leaf)), Step(Now(tr), New(right));
            && Legal(r) && Now(r) == l.(edited := {leaf, right}) && leaf in Now(r).pins
            && l.pins == Now(tr).pins + multiset{right} && |l.pins| == |Now(tr).pins| + 1
            && l.peak == Max(Now(tr).peak, |Now(tr).pins| + 1)
  {
    hide Now, Legal;
    DoIs(tr, New(right));
    DoIs(Then(tr, New(right)), Edit(leaf));
  }

  /** A new root is made and let go, then both of its children learn about it. */
  function NewRootTraffic(tr: Trace, root: PageId, left: PageId, right: PageId): Trace {
    Visit(Visit(LetGo(Then(tr, New(root)), root), left), right)
  }

  lemma NewRootTrafficIs(tr: Trace, root: PageId, left: PageId, right: PageId)
    requires Legal(tr) && Now(tr).edited == {} && Allowed(Now(tr), New(root)) && left in Now(tr).live && right in Now(tr).live
    ensures var r, l := NewRootTraffic(tr, root, left, right), Step(Now(tr), New(root));
            && Legal(r) && Now(r).peak <= Max(Now(tr).peak, |Now(tr).pins| + 1)
            && Now(r) == l.(pins := Now(tr).pins, edited := {}, peak := Now(r).peak)
  {
    hide Visit, LetGo, Now, Legal;
    PinsBack(Now(tr).pins, root);
    DoIs(tr, New(root));
    var made := LetGo(Then(tr, New(root)), root);
    LetGoIs(Then(tr, New(root)), root);
    VisitIs(made, left);
    VisitIs(Visit(made, left), right);
  }

  /** The parent and a lender are pinned; the borrower is fetched, perhaps a child changes
      hands, and all three are let go. */
  function LoanTraffic(tr: Trace, q: PageId, lender: PageId, x: PageId, child: PageId): Trace {
    var busy := Then(Then(Then(tr, Fetch(x)), Edit(x)), Edit(lender));
    LetGo(LetGo(LetGo(VisitAny(busy, child), x), lender), q)
  }

  lemma LoanTrafficIs(tr: Trace, q: PageId, lender: PageId, x: PageId, child: PageId)
    requires Legal(tr) && q in Now(tr).pins && lender in Now(tr).pins && q != lender && Now(tr).edited == {} && x in Now(tr).live
    requires child != NO_PAGE ==> child in Now(tr).live && child != x && child != lender
    ensures var r := LoanTraffic(tr, q, lender, x, child);
            && Legal(r) && Now(r).peak <= Max(Now(tr).peak, |Now(tr).pins| + 2)
            && Now(r) == Now(tr).(pins := Now(tr).pins - multiset{lender} - multiset{q}, peak := Now(r).peak)
  {
    hide VisitAny, LetGo, Now, Legal;
    var busy := Then(Then(Then(tr, Fetch(x)), Edit(x)), Edit(lender));
    var back := LetGo(VisitAny(busy, child), x);
    BorrowerServed(tr, q, lender, x, child);
    LetGoIs(back, lender);
    assert (Now(tr).pins - multiset{lender})[q] == Now(tr).pins[q];
    LetGoIs(LetGo(back, lender), q);
  }

  lemma BorrowerServed(tr: Trace, q: PageId, lender: PageId, x: PageId, child: PageId)
    requires Legal(tr) && q in Now(tr).pins && lender in Now(tr).pins && q != lender && Now(tr).edited == {} && x in Now(tr).live
    requires child != NO_PAGE ==> child in Now(tr).live && child != x && child != lender
    ensures var r := LetGo(VisitAny(Then(Then(Then(tr, Fetch(x)), Edit(x)), Edit(lender)), child), x);
            && Legal(r) && Now(r).peak <= Max(Now(tr).peak, |Now(tr).pins| + 2)
            && Now(r) == Now(tr).(edited := {lender} - {x}, peak := Now(r).peak)
  {
    hide VisitAny, LetGo, Now, Legal;
    PinsBack(Now(tr).pins, x);
    var busy := Then(Then(Then(tr, Fetch(x)), Edit(x)), Edit(lender));
    BusyIs(tr, q, lender, x);
    VisitAnyIs(busy, child);
    LetGoIs(VisitAny(busy, child), x);
    assert {x, lender} - {x} == {lender} - {x};
  }

  lemma BusyIs(tr: Trace, q: PageId, lender: PageId, x: PageId)
    requires Legal(tr) && q in Now(tr).pins && lender in Now(tr).pins && q != lender && Now(tr).edited == {} && x in Now(tr).live
    ensures var r := Then(Then(Then(tr, Fetch(x)), Edit(x)), Edit(lender));
            && Legal(r) && Now(r) == Pinned(Now(tr), x).(edited := {x, lender})
            && |Now(r).pins| == |Now(tr).pins| + 1 && x in Now(r).pins
            && lender in Now(tr).pins && q in Now(tr).pins - multiset{lender}
  {
    hide Now, Legal;
    var m := Now(tr).pins;
    assert (m - multiset{lender})[q] == m[q];
    DoIs(tr, Fetch(x));
    DoIs(Then(tr, Fetch(x)), Edit(x));
    DoIs(Then(Then(tr, Fetch(x)), Edit(x)), Edit(lender));
  }

  /** The end of a merge: survivor and merged page are let go, the latter is deleted, and the
      parent is let go. */
  function MergeEndTraffic(tr: Trace, q: PageId, l: PageId, m: PageId): Trace {
    LetGo(Then(LetGo(LetGo(tr, l), m), Drop(m)), q)
  }

  lemma MergeEndTrafficIs(tr: Trace, q: PageId, l: PageId, m: PageId)
    requires Legal(tr) && q in Now(tr).pins && l in Now(tr).pins && q != l && Now(tr).edited <= {l} && m in Now(tr).live
    requires Now(tr).pins[m] == 1 && |Now(tr).free| < FreeLists.MAX_FREE_PAGES && q != m && l != m
    ensures var r := MergeEndTraffic(tr, q, l, m);
            && Legal(r)
            && Now(r) == Step(Now(tr), Drop(m)).(pins := Now(tr).pins - multiset{l} - multiset{m} - multiset{q}, edited := {})
  {
    hide LetGo, Now, Legal;
    var pins := Now(tr).pins;
    assert l in pins && m in pins - multiset{l} && q in pins - multiset{l} - multiset{m};
    LetGoIs(tr, l);
    LetGoIs(LetGo(tr, l), m);
    var done := LetGo(LetGo(tr, l), m);
    assert m !in Now(done).pins;
    DoIs(done, Drop(m));
    LetGoIs(Then(done, Drop(m)), q);
  }

  /** A pinned internal page splits: a new page, then the child whose separator is on its way. */
  function SplitStart(tr: Trace, q: PageId, r: PageId, child: PageId): Trace {
    Visit(Then(Then(tr, New(r)), Edit(q)), child)
  }

  lemma SplitStartIs(tr: Trace, q: PageId, r: PageId, child: PageId)
    requires Legal(tr) && Now(tr).pins == multiset{q} && Now(tr).edited == {} && Allowed(Now(tr), New(r)) && q != r
    requires child in Now(tr).live && child != q && child != r
    ensures var t, l := SplitStart(tr, q, r, child), Step(Now(tr), New(r));
            Legal(t) && Now(t) == l.(pins := multiset{q, r}, edited := {q, r}, peak := Max(Now(tr).peak, 3))
  {
    hide Visit, Now, Legal;
    MadeIs(tr, q, r);
    VisitIs(Then(Then(tr, New(r)), Edit(q)), child);
    assert multiset{q} + multiset{r} == multiset{q, r};
  }

  lemma SplitEndIs(tr: Trace, q: PageId, r: PageId)
    requires Legal(tr) && Now(tr).pins == multiset{q, r} && Now(tr).edited == {q, r} && q != r
    ensures var t := LetGo(LetGo(tr, q), r); Legal(t) && Now(t) == Now(tr).(pins := multiset{}, edited := {})
  {
    hide LetGo, Now, Legal;
    LetGoIs(tr, q);
    assert multiset{q, r} - multiset{q} == multiset{r} && multiset{r} - multiset{r} == multiset{};
    LetGoIs(LetGo(tr, q), r);
  }

  /** With the parent pinned, the lender is fetched and the loan carried through. */
  function LendTraffic(tr: Trace, q: PageId, lender: PageId, x: PageId, child: PageId): Trace {
    LoanTraffic(Then(tr, Fetch(lender)), q, lender, x, child)
  }

  lemma LendTrafficIs(tr: Trace, q: PageId, lender: PageId, x: PageId, child: PageId)
    requires Legal(tr) && Now(tr).pins == multiset{q} && Now(tr).edited == {} && lender in Now(tr).live && x in Now(tr).live
    requires q != lender && (child != NO_PAGE ==> child in Now(tr).live && child != x && child != lender)
    ensures var r := LendTraffic(tr, q, lender, x, child);
            && Legal(r) && Now(r).peak <= Max(Now(tr).peak, 4)
            && Now(r) == Now(tr).(pins := multiset{}, peak := Now(r).peak)
  {
    hide LoanTraffic, Now, Legal;
    DoIs(tr, Fetch(lender));
    LoanTrafficIs(Then(tr, Fetch(lender)), q, lender, x, child);
    assert multiset{q} + multiset{lender} - multiset{lender} - multiset{q} == multiset{};
  }

  /** With the parent pinned, both pages of a merge are fetched and the left one edited. */
  function MergeStart(tr: Trace, l: PageId, m: PageId): Trace {
    Then(Then(Then(tr, Fetch(l)), Fetch(m)), Edit(l))
  }

  lemma MergeStartIs(tr: Trace, q: PageId, l: PageId, m: PageId)
    requires Legal(tr) && Now(tr).pins == multiset{q} && Now(tr).edited == {} && l in Now(tr).live && m in Now(tr).live
    ensures var r := MergeStart(tr, l, m);
            Legal(r) && Now(r) == Now(tr).(pins := multiset{q, l, m}, edited := {l}, peak := Max(Now(tr).peak, 3))
  {
    hide Now, Legal;
    DoIs(tr, Fetch(l));
    DoIs(Then(tr, Fetch(l)), Fetch(m));
    assert multiset{q} + multiset{l} + multiset{m} == multiset{q, l, m};
    DoIs(Then(Then(tr, Fetch(l)), Fetch(m)), Edit(l));
  }

  lemma MergeDone(tr: Trace, q: PageId, l: PageId, m: PageId)
    requires Legal(tr) && Now(tr).pins == multiset{q, l, m} && Now(tr).edited == {l} && m in Now(tr).live
    requires |Now(tr).free| < FreeLists.MAX_FREE_PAGES && q != m && l != m && q != l
    ensures var r := MergeEndTraffic(tr, q, l, m);
            Legal(r) && Now(r) == Step(Now(tr), Drop(m)).(pins := multiset{}, edited := {})
  {
    hide MergeEndTraffic, Now, Legal;
    MergeEndTrafficIs(tr, q, l, m);
    assert multiset{q, l, m} - multiset{l} - multiset{m} - multiset{q} == multiset{};
  }

  /** `tr'` goes on from `tr` with at most `pins` pins held at once and `dropped` pages deleted. */
  predicate Bounded(tr: Trace, tr': Trace, pins: nat, dropped: nat) {
    Now(tr').peak <= Max(Now(tr).peak, pins) && Now(tr').drops <= Now(tr).drops + dropped
  }

  /** The trace is legal and has led to ledger `l`, its statistics aside. */
  predicate Agrees(tr: Trace, l: Ledger) {
    Legal(tr) && Now(tr) == l.(peak := Now(tr).peak, drops := Now(tr).drops)
  }

  lemma Chain(a: Trace, b: Trace, c: Trace, n1: nat, d1: nat, n2: nat, d2: nat, n: nat, d: nat)
    requires Bounded(a, b, n1, d1) && Bounded(b, c, n2, d2) && n1 <= n && n2 <= n && d1 + d2 <= d
    ensures Bounded(a, c, n, d)
  {
    hide Now;
  }

  lemma Still(tr: Trace, n: nat, d: nat)
    ensures Bounded(tr, tr, n, d)
  {
  }

  lemma FetchFirst(tr: Trace, l: Ledger, p: PageId)
    requires Agrees(tr, l) && l.pins == multiset{} && p in l.live
    ensures Agrees(Then(tr, Fetch(p)), l.(pins := multiset{p})) && Bounded(tr, Then(tr, Fetch(p)), 1, 0)
  {
    hide Now, Legal;
    DoIs(tr, Fetch(p));
    assert multiset{} + multiset{p} == multiset{p};
  }

  lemma GlanceAgrees(tr: Trace, l: Ledger, p: PageId)
    requires Agrees(tr, l) && l.edited == {} && p in l.live
    ensures Agrees(Glance(tr, p), l) && Bounded(tr, Glance(tr, p), |l.pins| + 1, 0)
  {
    hide Now, Legal, Glance;
    GlanceIs(tr, p);
  }

  lemma UnpinLast(tr: Trace, l: Ledger, p: PageId)
    requires Agrees(tr, l) && l.edited == {} && l.pins == multiset{p}
    ensures Agrees(Then(tr, Unpin(p, false)), l.(pins := multiset{})) && Bounded(tr, Then(tr, Unpin(p, false)), 0, 0)
  {
    hide Now, Legal;
    DoIs(tr, Unpin(p, false));
    assert multiset{p} - multiset{p} == multiset{};
  }

  lemma LetGoLast(tr: Trace, l: Ledger, p: PageId)
    requires Agrees(tr, l) && l.edited == {} && l.pins == multiset{p}
    ensures Agrees(LetGo(tr, p), l.(pins := multiset{})) && Bounded(tr, LetGo(tr, p), 0, 0)
  {
    hide Now, Legal, LetGo;
    LetGoIs(tr, p);
    assert multiset{p} - multiset{p} == multiset{};
  }

  lemma VisitAgrees(tr: Trace, l: Ledger, p: PageId)
    requires Agrees(tr, l) && p in l.live && p !in l.edited
    ensures Agrees(Visit(tr, p), l) && Bounded(tr, Visit(tr, p), |l.pins| + 1, 0)
  {
    hide Now, Legal, Visit;
    VisitIs(tr, p);
  }

  lemma VisitAnyAgrees(tr: Trace, l: Ledger, p: PageId)
    requires Agrees(tr, l) && (p != NO_PAGE ==> p in l.live && p !in l.edited)
    ensures Agrees(VisitAny(tr, p), l) && Bounded(tr, VisitAny(tr, p), |l.pins| + 1, 0)
  {
    hide Now, Legal, VisitAny;
    VisitAnyIs(tr, p);
  }

  /** `l` after page `p` was allocated. */
  function Allocated(l: Ledger, p: PageId): Ledger {
    l.(live := l.live + {p}, free := if l.free == [] then [] else l.free[..|l.free| - 1],
       numPages := if l.free == [] then l.numPages + 1 else l.numPages)
  }

  lemma LeafSplitAgrees(tr: Trace, l: Ledger, leaf: PageId, right: PageId, next: PageId)
    requires Agrees(tr, l) && l.pins == multiset{leaf} && l.edited == {} && right == NextPage(l.free, l.numPages)
    requires right !in l.live && leaf in l.live && (next != NO_PAGE ==> next in l.live && next != leaf)
    ensures var r := LeafSplitTraffic(tr, leaf, right, next);
            Agrees(r, Allocated(l, right).(pins := multiset{})) && Bounded(tr, r, 3, 0)
  {
    hide Now, Legal, LeafSplitTraffic;
    LeafSplitTrafficIs(tr, leaf, right, next);
    assert multiset{leaf} - multiset{leaf} == multiset{};
  }

  lemma NewRootAgrees(tr: Trace, l: Ledger, root: PageId, left: PageId, right: PageId)
    requires Agrees(tr, l) && l.pins == multiset{} && l.edited == {} && root == NextPage(l.free, l.numPages) && root !in l.live
    requires left in l.live && right in l.live
    ensures var r := NewRootTraffic(tr, root, left, right); Agrees(r, Allocated(l, root)) && Bounded(tr, r, 1, 0)
  {
    hide Now, Legal, NewRootTraffic;
    NewRootTrafficIs(tr, root, left, right);
  }

  lemma SplitStartAgrees(tr: Trace, l: Ledger, q: PageId, r: PageId, child: PageId)
    requires Agrees(tr, l) && l.pins == multiset{q} && l.edited == {} && r == NextPage(l.free, l.numPages) && r !in l.live
    requires q in l.live && child in l.live && child != q
    ensures var t := SplitStart(tr, q, r, child);
            Agrees(t, Allocated(l, r).(pins := multiset{q, r}, edited := {q, r})) && Bounded(tr, t, 3, 0)
  {
    hide Now, Legal, SplitStart;
    SplitStartIs(tr, q, r, child);
  }

  lemma SplitEndAgrees(tr: Trace, l: Ledger, q: PageId, r: PageId)
    requires Agrees(tr, l) && l.pins == multiset{q, r} && l.edited == {q, r} && q != r
    ensures var t := LetGo(LetGo(tr, q), r); Agrees(t, l.(pins := multiset{}, edited := {})) && Bounded(tr, t, 0, 0)
  {
    hide Now, Legal, LetGo;
    SplitEndIs(tr, q, r);
  }

  lemma LendAgrees(tr: Trace, l: Ledger, q: PageId, lender: PageId, x: PageId, child: PageId)
    requires Agrees(tr, l) && l.pins == multiset{q} && l.edited == {} && lender in l.live && x in l.live
    requires q != lender && (child != NO_PAGE ==> child in l.live && child != x && child != lender)
    ensures var r := LendTraffic(tr, q, lender, x, child); Agrees(r, l.(pins := multiset{})) && Bounded(tr, r, 4, 0)
  {
    hide Now, Legal, LendTraffic;
    LendTrafficIs(tr, q, lender, x, child);
  }

  lemma MergeStartAgrees(tr: Trace, l: Ledger, q: PageId, a: PageId, b: PageId)
    requires Agrees(tr, l) && l.pins == multiset{q} && l.edited == {} && a in l.live && b in l.live
    ensures Agrees(MergeStart(tr, a, b), l.(pins := multiset{q, a, b}, edited := {a})) && Bounded(tr, MergeStart(tr, a, b), 3, 0)
  {
    hide Now, Legal, MergeStart;
    MergeStartIs(tr, q, a, b);
  }

  lemma MergeEndAgrees(tr: Trace, l: Ledger, q: PageId, a: PageId, b: PageId)
    requires Agrees(tr, l) && l.pins == multiset{q, a, b} && l.edited == {a} && b in l.live
    requires |l.free| < FreeLists.MAX_FREE_PAGES && q != b && a != b && q != a
    ensures var r := MergeEndTraffic(tr, q, a, b);
            Agrees(r, l.(pins := multiset{}, edited := {}, live := l.live - {b}, free := l.free + [b])) && Bounded(tr, r, 0, 1)
  {
    hide Now, Legal, MergeEndTraffic;
    MergeDone(tr, q, a, b);
  }

  /** The only child of a dropped root learns that it is the root. */
  function CollapseTraffic(tr: Trace, root: PageId, child: PageId): Trace { Then(Visit(tr, child), Drop(root)) }

  lemma CollapseAgrees(tr: Trace, l: Ledger, root: PageId, child: PageId)
    requires Agrees(tr, l) && l.pins == multiset{} && l.edited == {} && child in l.live && root in l.live
    requires |l.free| < FreeLists.MAX_FREE_PAGES
    ensures var r := CollapseTraffic(tr, root, child);
            Agrees(r, l.(live := l.live - {root}, free := l.free + [root])) && Bounded(tr, r, 1, 1)
  {
    hide Now, Legal, Visit;
    VisitIs(tr, child);
    DoIs(Visit(tr, child), Drop(root));
  }
}
