/** The B+Tree: descent, lookup, insertion with splits that may reach the root, and removal with
    repairs that may; each operation records its page traffic. */
module BTrees {
  import opened Base
  import opened Nodes
  import opened Trees
  import opened TreeEdits
  import opened TreeBooks
  import opened TreeRepairs
  import opened Rebalancing
  import opened Diagnoses
  import opened RepairFaults
  import opened RepairOutcomes
  import opened Relief
  import opened InsertOutcomes
  import opened Traffic
  import FreeLists

  // --------------------------------------------------------- splitting in place

  /** The halves of a full parent after its new separator went to the right half of the two
      are a promotion in the node that has the separator already. */
  lemma CutAfterInsert(es: seq<Entry>, i: nat, e: Entry, mid: nat)
    requires i <= |es| && mid < |es|
    ensures i <= mid ==>
              var all := Inserted(es, i, e);
              all[..mid + 1] == Inserted(es[..mid], i, e) && all[mid + 1] == es[mid] && all[mid + 2..] == es[mid + 1..]
    ensures i > mid ==>
              var all := Inserted(es, i, e);
              all[..mid] == es[..mid] && all[mid] == es[mid] && all[mid + 1..] == Inserted(es[mid + 1..], i - mid - 1, e)
  {
  }

  // ------------------------------------------------------------------ the class

  class BTree {
    const rank: Rank
    ghost const limit: nat          // no leaf cell costs more; USABLE means no limit
    var pages: map<PageId, Node>
    var root: PageId
    var free: seq<PageId>
    var numPages: nat
    ghost var info: map<PageId, Info>
    ghost var contents: map<Key, Value>

    ghost function View(pend: Pending): Tree
      reads this
    {
      Tree(pages, info, root, pend)
    }

    /** Everything but the shape. */
    ghost predicate Books()
      reads this
    {
      Ordered(rank) && Sized(limit, pages) && Stores(pages, contents) && AllocOk(pages.Keys, free, numPages)
    }

    /** What also holds in the middle of a removal. */
    ghost predicate Sound()
      reads this
    {
      Books() && Shape(rank, View(Whole))
    }

    /** What holds between operations: a root without separators has given way to its child. */
    ghost predicate Valid()
      reads this
    {
      Sound() && RootBranches(View(Whole))
    }

    /** The traffic so far, with these pins held and every edit reported. */
    ghost predicate Holding(tr: Trace, pins: multiset<PageId>)
      reads this
    {
      Agrees(tr, Ledger(pins, {}, pages.Keys, free, numPages, 0, 0))
    }

    /** Between operations nothing is pinned. */
    ghost predicate Quiet(tr: Trace)
      reads this
    {
      Holding(tr, multiset{})
    }

    /** No levels and key ranges make the pages a tree. */
    ghost predicate Ruined()
      reads this
    {
      NoTree(rank, pages, root)
    }

    /** An empty tree: one leaf as the root, right after the header page. */
    constructor (rank: Rank, ghost limit: nat)
      requires Ordered(rank)
      ensures Valid() && this.rank == rank && this.limit == limit && contents == map[]
      ensures Quiet(Start(Ledger(multiset{}, {}, {1}, [], 2, 0, 0)))
    {
      this.rank, this.limit := rank, limit;
      pages, root := map[1 := EmptyLeaf(NO_PAGE)], 1;
      free, numPages := [], 2;
      info, contents := map[1 := Info(0, 0.0, 1.0)], map[];
      new;
      EmptyTree(limit, rank, View(Whole));
      assert pages.Keys == {1};
    }

    /** A recycled page number if there is one, else the next one of the file. */
    method NewPage() returns (id: PageId)
      requires AllocOk(pages.Keys, free, numPages)
      modifies this`free, this`numPages
      ensures id !in pages && id >= 1
      ensures AllocOk(pages.Keys + {id}, free, numPages)
      ensures id == NextPage(old(free), old(numPages))
      ensures if old(free) == [] then free == [] && numPages == old(numPages) + 1
              else free == old(free)[..|old(free)| - 1] && numPages == old(numPages)
    {
      if free == [] {
        id := numPages;
        numPages := numPages + 1;
      } else {
        id := free[|free| - 1];
        ghost var was := free;
        assert id in was;
        free := free[..|free| - 1];
        assert forall p :: p in was <==> p in free || p == id;
      }
    }

    /** Walk down to the leaf responsible for `k`, remembering the way; only the leaf stays pinned. */
    method FindLeaf(k: Key, ghost tr: Trace) returns (cur: PageId, crumbs: seq<PageId>, ghost tr': Trace)
      requires Ordered(rank) && Shape(rank, View(Whole)) && Quiet(tr)
      ensures cur in pages && pages[cur].leaf && Covers(rank, info[cur], k)
      ensures PathTo(View(Whole), crumbs, cur)
      ensures Holding(tr', multiset{cur}) && Bounded(tr, tr', 1, 0)
    {
      hide Shape, Ordered, PathTo, Agrees, Bounded;
      FramedTree(rank, View(Whole));
      PathStart(View(Whole));
      RankBounds(rank, k);
      Still(tr, 1, 0);
      cur, crumbs, tr' := root, [], tr;
      while !pages[cur].leaf
        invariant cur in pages && Covers(rank, info[cur], k) && PathTo(View(Whole), crumbs, cur)
        invariant Quiet(tr') && Bounded(tr, tr', 1, 0)
        decreases info[cur].level
      {
        GlanceAgrees(tr', Ledger(multiset{}, {}, pages.Keys, free, numPages, 0, 0), cur);
        Chain(tr, tr', Glance(tr', cur), 1, 0, 1, 0, 1, 0);
        tr' := Glance(tr', cur);
        SortedPage(rank, View(Whole), cur);
        var n := pages[cur];
        var ub := UpperBound(rank, n.entries, k);
        DescentIndex(rank, View(Whole), cur, k, ub);
        var next := Kid(n, ub);
        NotRoot(rank, View(Whole), cur, next);
        PathSnoc(View(Whole), crumbs, cur, next);
        crumbs := crumbs + [cur];
        cur := next;
      }
      FetchFirst(tr', Ledger(multiset{}, {}, pages.Keys, free, numPages, 0, 0), cur);
      Chain(tr, tr', Then(tr', Fetch(cur)), 1, 0, 1, 0, 1, 0);
      tr' := Then(tr', Fetch(cur));
    }

    method Get(k: Key, ghost tr: Trace) returns (r: Option<Value>, ghost tr': Trace)
      requires Valid() && Quiet(tr)
      ensures r == Lookup(contents, k)
      ensures Quiet(tr') && Bounded(tr, tr', 1, 0)
    {
      hide PageOk, Ordered, Sized, Agrees, Bounded;
      var leaf, crumbs;
      leaf, crumbs, tr' := FindLeaf(k, tr);
      SortedPage(rank, View(Whole), leaf);
      var n := pages[leaf];
      var slot := Search(rank, n.entries, k);
      PresentIffHas(rank, n.entries, k);
      if slot < |n.entries| && n.entries[slot].key == k {
        assert HasBinding(pages, n.entries[slot]);
        r := Some(n.entries[slot].val);
      } else {
        r := None;
        if k in contents {
          assert HasBinding(pages, KV(k, contents[k]));
          OnlyHere(rank, View(Whole), leaf, k, KV(k, contents[k]));
        }
      }
      UnpinLast(tr', Ledger(multiset{leaf}, {}, pages.Keys, free, numPages, 0, 0), leaf);
      Chain(tr, tr', Then(tr', Unpin(leaf, false)), 1, 0, 0, 0, 1, 0);
      tr' := Then(tr', Unpin(leaf, false));
    }

    /** Point the children of `n` at page `r`, one after the other. */
    method Reparent(n: Node, r: PageId, ghost tr: Trace, ghost l: Ledger) returns (ghost tr': Trace)
      requires forall i :: 0 <= i <= |n.entries| ==> Kid(n, i) in pages
      requires Agrees(tr, l) && forall i :: 0 <= i <= |n.entries| ==> Kid(n, i) in l.live && Kid(n, i) !in l.edited
      modifies this`pages
      ensures pages == Reparented(old(pages), n, r)
      ensures Agrees(tr', l) && Bounded(tr, tr', |l.pins| + 1, 0)
    {
      hide Visit, Agrees, Bounded;
      Still(tr, |l.pins| + 1, 0);
      var i := 0;
      tr' := tr;
      while i <= |n.entries|
        invariant 0 <= i <= |n.entries| + 1
        invariant pages.Keys == old(pages).Keys
        invariant forall c :: c in pages ==>
                                pages[c] == if exists j :: 0 <= j < i && Kid(n, j) == c
                                            then old(pages)[c].(parent := r) else old(pages)[c]
        invariant Agrees(tr', l) && Bounded(tr, tr', |l.pins| + 1, 0)
      {
        var c := Kid(n, i);
        VisitAgrees(tr', l, c);
        Chain(tr, tr', Visit(tr', c), |l.pins| + 1, 0, |l.pins| + 1, 0, |l.pins| + 1, 0);
        tr' := Visit(tr', c);
        pages := pages[c := pages[c].(parent := r)];
        i := i + 1;
      }
    }

    /** A new root above the two halves of the old one. */
    method CreateNewRoot(left: PageId, sep: Key, right: PageId, ghost tr: Trace) returns (ok: bool, ghost tr': Trace)
      requires Books() && Shape(rank, View(Split(left, right))) && Quiet(tr)
      requires left == root && rank(sep) == info[left].hi && Cost(KP(sep, right)) <= limit + 2
      modifies this
      ensures ok <==> Cost(KP(sep, right)) <= USABLE
      ensures ok ==> Valid() && contents == old(contents) && Quiet(tr') && Bounded(tr, tr', 1, 0)
      ensures ok ==> root !in old(pages) && pages.Keys == old(pages).Keys + {root}
    {
      hide Shape, Ordered, Stores, Sized, NodeSized, InsertSep, Agrees, Bounded, NewRootTraffic, Grown, AllocOk, Framed;
      ghost var t := View(Split(left, right));
      FramedTree(rank, t);
      FrameFacts(t);
      ghost var ledger := Ledger(multiset{}, {}, pages.Keys, free, numPages, 0, 0);
      var r := NewPage();
      NewRootAgrees(tr, ledger, r, left, right);
      tr' := NewRootTraffic(tr, r, left, right);
      NewRootNode(limit, rank, left, sep, right);
      var (fits, n) := InsertSep(rank, EmptyInternal(NO_PAGE).(first := left), sep, right);
      if !fits { return false, tr'; }
      GrownShape(rank, t, r, sep);
      GrownBooks(limit, rank, t, r, sep, contents);
      GrownIs(t, r, sep);
      Crown(r, n, left, right);
      root := r;
      info := Grown(t, r, sep).info;
      assert View(Whole) == Grown(t, r, sep) && pages.Keys == t.pages.Keys + {r};
      ok := true;
    }

    /** Write the new root and tell both children about it. */
    method Crown(r: PageId, n: Node, left: PageId, right: PageId)
      requires left in pages && right in pages && left != r && right != r && left != right
      modifies this`pages
      ensures var with := old(pages)[r := n][left := old(pages)[left].(parent := r)];
        pages == with[right := with[right].(parent := r)]
    {
      pages := pages[r := n];
      pages := pages[left := pages[left].(parent := r)];
      pages := pages[right := pages[right].(parent := r)];
    }

    /** Give the right half of a split to the parent; a full parent splits in turn. */
    method InsertIntoParent(left: PageId, sep: Key, right: PageId, crumbs: seq<PageId>, ghost tr: Trace)
      returns (ok: bool, ghost tr': Trace)
      requires Books() && Shape(rank, View(Split(left, right))) && PathTo(View(Split(left, right)), crumbs, left) && Quiet(tr)
      requires rank(sep) == info[left].hi && Cost(KP(sep, right)) <= limit + 2
      modifies this
      ensures ok <==> Ascends(rank, old(pages), crumbs, sep)
      ensures ok ==> Sound() && contents == old(contents) && Quiet(tr') && Bounded(tr, tr', 3, 0)
      ensures ok && (crumbs == [] || RootBranches(old(View(Split(left, right))))) ==> Valid()
      ensures ok ==> old(pages).Keys <= pages.Keys
      ensures ok && crumbs != [] ==>
        var parent := old(pages)[crumbs[|crumbs| - 1]];
        pages.Keys == old(pages).Keys <==> Costs(parent.entries) + Cost(KP(sep, right)) <= USABLE
      ensures limit <= LEAF_LIMIT ==> ok
      decreases |crumbs|
    {
      hide Shape, Ordered, Stores, Sized, NodeSized, Costs, AllocOk, Inserted, LowerBound, SplitTakes, PromotePoint, Agrees, Bounded, Visit, LetGo;
      ghost var t := View(Split(left, right));
      FramedTree(rank, t);
      if crumbs == [] {
        ok, tr' := CreateNewRoot(left, sep, right, tr);
        if ok {
          Still(tr, 3, 0);
          Chain(tr, tr, tr', 3, 0, 1, 0, 3, 0);
        }
        return;
      }
      var q := crumbs[|crumbs| - 1];
      ghost var i := SeparatorSlot(rank, t, q, sep);
      ParentFacts(limit, rank, t, q, i, sep);
      FetchFirst(tr, Ledger(multiset{}, {}, pages.Keys, free, numPages, 0, 0), q);
      ghost var held := Then(tr, Fetch(q));
      var e := KP(sep, right);
      var parent := pages[q];
      if Full(parent, Payload(e)) {
        parent := Compacted(parent);
      }
      if !Full(parent, Payload(e)) {
        AttachHere(left, q, i, sep, right, parent);
        tr' := ParentDone(held, q, right);
        Chain(tr, held, tr', 1, 0, 2, 0, 3, 0);
        ok := true;
      } else {
        var r, promoted;
        ghost var split;
        ok, r, promoted, split := SplitParent(left, q, i, sep, right, held);
        tr' := split;
        if !ok { return; }
        Chain(tr, held, split, 1, 0, 3, 0, 3, 0);
        var init := crumbs[..|crumbs| - 1];
        PathLevels(t, init, q);
        PathFrame(t, View(Split(q, r)), init, q);
        SplitKeepsRoot(rank, t, View(Split(q, r)), init, q);
        AscendsFrame(rank, t.pages, pages, init, promoted) by {
          forall c | c in init ensures c in pages && c in t.pages && pages[c].entries == t.pages[c].entries {
            var j :| 0 <= j < |init| && init[j] == c;
          }
        }
        ok, tr' := InsertIntoParent(q, promoted, r, init, split);
        if ok { Chain(tr, split, tr', 3, 0, 3, 0, 3, 0); }
      }
    }

    /** The parent, compacted or not, has room for the separator. */
    method AttachHere(ghost left: PageId, q: PageId, ghost i: nat, sep: Key, right: PageId, parent: Node)
      requires Books() && Shape(rank, View(Split(left, right))) && ParentReady(rank, View(Split(left, right)), q, i, sep)
      requires Cost(KP(sep, right)) <= limit + 2 && !Full(parent, Payload(KP(sep, right)))
      requires parent == pages[q] || parent == Compacted(pages[q])
      modifies this`pages
      ensures Sound() && pages.Keys == old(pages).Keys
      ensures RootBranches(old(View(Split(left, right)))) ==> RootBranches(View(Whole))
    {
      hide Shape, Ordered, Stores, Sized, NodeSized, Costs, AllocOk, Inserted, LowerBound;
      ghost var t := View(Split(left, right));
      FramedTree(rank, t);
      var (fits, n) := InsertSep(rank, parent, sep, right);
      PlaceRoom(parent, i, KP(sep, right));
      AttachBooks(limit, rank, t, q, i, sep, contents, n);
      pages := pages[q := n];
      pages := pages[right := pages[right].(parent := q)];
      assert View(Whole) == Attach(t, q, i, sep, n.dead) && pages.Keys == t.pages.Keys;
      StillBranches(t, q, n, pages) by { InsertedEntries(parent.entries, i, KP(sep, right)); }
    }

    /** The parent has the separator: its new child learns about it, then the parent is let go. */
    ghost method ParentDone(tr: Trace, q: PageId, right: PageId) returns (tr': Trace)
      requires Holding(tr, multiset{q}) && right in pages
      ensures Quiet(tr') && Bounded(tr, tr', 2, 0)
    {
      hide Agrees, Bounded, Visit, LetGo;
      var l := Ledger(multiset{q}, {}, pages.Keys, free, numPages, 0, 0);
      VisitAgrees(tr, l, right);
      LetGoLast(Visit(tr, right), l, q);
      tr' := LetGo(Visit(tr, right), q);
      Chain(tr, Visit(tr, right), tr', 2, 0, 0, 0, 2, 0);
    }

    /** The two halves of a full parent, the separator in the one it belongs to. */
    method ShareOutParent(ghost left: PageId, q: PageId, ghost i: nat, sep: Key, right: PageId)
      returns (ok: bool, mid: nat, l: Node, r: Node)
      requires ParentReady(rank, View(Split(left, right)), q, i, sep) && NodeSized(limit, pages[q])
      requires Cost(KP(sep, right)) <= limit + 2 && Costs(pages[q].entries) + Cost(KP(sep, right)) > USABLE
      ensures ok <==> SplitTakes(rank, pages[q], sep)
      ensures limit <= LEAF_LIMIT ==> ok
      ensures ok ==>
        && |pages[q].entries| >= 2 && mid == PromotePoint(Compacted(pages[q]))
        && (rank(sep) < rank(pages[q].entries[mid].key) <==> i <= mid)
        && ParentHalves(View(Split(left, right)), q, i, sep, mid, l, r) && NodeSized(limit, l) && NodeSized(limit, r)
    {
      hide NodeSized, Costs, LowerBound, InsertSep, PromotePoint, Payloads, ParentHalves, KeepFirst, RightHalf, SplitTakes;
      SplitVerdict(limit, rank, View(Split(left, right)), q, i, sep);
      var n := Compacted(pages[q]);
      if |n.entries| < 2 {
        return false, 0, n, n;
      }
      mid := PromotePoint(n);
      l, r := KeepFirst(n, mid), RightHalf(n, mid, 0);
      if rank(sep) < rank(n.entries[mid].key) {
        ok, l := InsertSep(rank, l, sep, right).0, InsertSep(rank, l, sep, right).1;
      } else {
        ok, r := InsertSep(rank, r, sep, right).0, InsertSep(rank, r, sep, right).1;
      }
    }

    /** Write both halves of a parent; the pending child and the moved children learn where they belong. */
    method WriteHalves(q: PageId, r: PageId, left: Node, right: Node, child: PageId, home: PageId, ghost tr: Trace, ghost l: Ledger)
      returns (ghost tr': Trace)
      requires q in pages && child in pages && r !in pages && child != q && q != r
      requires forall j :: 0 <= j <= |right.entries| ==> Kid(right, j) in pages && Kid(right, j) != q
      requires Agrees(tr, l) && l.pins == multiset{q} && l.edited == {} && l.live == pages.Keys && r == NextPage(l.free, l.numPages)
      modifies this`pages
      ensures pages == Reparented(old(pages)[q := left][r := right][child := old(pages)[child].(parent := home)], right, r)
      ensures Agrees(tr', Allocated(l, r).(pins := multiset{})) && Bounded(tr, tr', 3, 0)
    {
      hide Reparented, Agrees, Bounded, SplitStart;
      pages := pages[q := left];
      pages := pages[r := right];
      pages := pages[child := pages[child].(parent := home)];
      ghost var busy := SplitBusy(tr, l, q, r, child);
      ghost var told := Reparent(right, r, SplitStart(tr, q, r, child), busy);
      tr' := SplitDone(tr, SplitStart(tr, q, r, child), told, busy, q, r);
      assert Allocated(l, r).(pins := multiset{}) == busy.(pins := multiset{}, edited := {});
    }

    /** Split the full parent `q` and put the new separator into the half it belongs to. */
    method SplitParent(ghost left: PageId, q: PageId, ghost i: nat, sep: Key, right: PageId, ghost tr: Trace)
      returns (ok: bool, r: PageId, promoted: Key, ghost tr': Trace)
      requires Holding(tr, multiset{q}) && Books() && Shape(rank, View(Split(left, right)))
      requires ParentReady(rank, View(Split(left, right)), q, i, sep) && NodeSized(limit, pages[q])
      requires Cost(KP(sep, right)) <= limit + 2 && Costs(pages[q].entries) + Cost(KP(sep, right)) > USABLE
      modifies this
      ensures ok <==> SplitTakes(rank, old(pages)[q], sep)
      ensures limit <= LEAF_LIMIT ==> ok
      ensures ok ==>
        && Books() && contents == old(contents) && root == old(root) && Shape(rank, View(Split(q, r)))
        && r !in old(pages) && pages.Keys == old(pages).Keys + {r}
        && Quiet(tr') && Bounded(tr, tr', 3, 0)
        && q in info && rank(promoted) == info[q].hi && Cost(KP(promoted, r)) <= limit + 2
        && promoted == old(pages)[q].entries[PromotePoint(Compacted(old(pages)[q]))].key
        && (forall x :: x in old(pages) && x in old(info) && old(info)[x].level >= old(info)[q].level ==>
              && x in pages && x in info && pages[x].parent == old(pages)[x].parent
              && info[x].level == old(info)[x].level && (x != q ==> pages[x].entries == old(pages)[x].entries))
    {
      hide Shape, Ordered, Stores, Sized, NodeSized, Costs, LowerBound, InsertSep, PromotePoint, Payloads, ParentHalves, Reparented, KeepFirst, RightHalf, SplitTakes, Agrees, Bounded, SplitStart, AllocOk, Framed;
      ghost var t := View(Split(left, right));
      FramedTree(rank, t);
      FrameFacts(t);
      ghost var ledger := Ledger(multiset{q}, {}, pages.Keys, free, numPages, 0, 0);
      r := NewPage();
      var mid, leftNode, rightNode;
      ok, mid, leftNode, rightNode := ShareOutParent(left, q, i, sep, right);
      if !ok { return ok, r, [], tr; }
      promoted := pages[q].entries[mid].key;
      PromotedCost(limit, t.pages[q], mid, r);
      ghost var t' := SplitWhole(limit, rank, t, q, i, sep, mid, r, leftNode, rightNode, contents);
      tr' := WriteHalves(q, r, leftNode, rightNode, right, if rank(sep) < rank(promoted) then q else r, tr, ledger);
      info := t'.info;
      assert View(Split(q, r)) == t';
    }

    /** Bind `k` to `v`. `leaf` and `crumbs` are where the search ends and how it gets there; the
        pages on that path decide the outcome, and below the limit it is always success. */
    method Insert(k: Key, v: Value, ghost tr: Trace)
      returns (r: Result<(), TreeError>, ghost fate: Fate, ghost leaf: PageId, ghost crumbs: seq<PageId>, ghost tr': Trace)
      requires Quiet(tr) && Valid() && (Cost(KV(k, v)) <= limit || Cost(KV(k, v)) > USABLE)
      modifies this
      ensures r == match fate
                   case Stored => Success(())
                   case Dropped => Success(())
                   case Refused => Failure(TooLarge)
                   case Broken => Failure(AssertionFails)
      ensures fate == Refused <==> Cost(KV(k, v)) > USABLE
      ensures Cost(KV(k, v)) <= USABLE ==>
        && leaf in old(pages) && old(pages)[leaf].leaf && leaf in old(info) && Covers(rank, old(info)[leaf], k)
        && PathTo(old(View(Whole)), crumbs, leaf) && (forall e :: e in old(pages)[leaf].entries ==> e.KV?)
        && fate == Outcome(rank, old(pages), crumbs, leaf, k, v)
      ensures fate != Broken ==>
        && Valid()
        && contents == match fate
                       case Stored => old(contents)[k := v]
                       case Dropped => old(contents) - {k}
                       case Refused => old(contents)
                       case Broken => contents
      ensures Cost(KV(k, v)) <= USABLE && fate != Broken ==>
        var (fits, n) := InsertCell(rank, old(pages)[leaf], k, v);
        if fits then pages == old(pages)[leaf := n] && root == old(root) else old(pages).Keys < pages.Keys
      ensures limit <= LEAF_LIMIT && Cost(KV(k, v)) <= USABLE ==> fate == Stored
      ensures fate != Broken ==> Quiet(tr') && Bounded(tr, tr', 3, 0)
    {
      hide Shape, Ordered, Stores, Sized, NodeSized, Costs, LowerBound, InsertCell, SplitPoint, Payloads, Ascends, HalfTakes, AllocOk, Agrees, Bounded, LetGo;
      if Cost(KV(k, v)) > USABLE {
        Still(tr, 3, 0);
        return Failure(TooLarge), Refused, 0, [], tr;
      }
      var p, path;
      p, path, tr' := FindLeaf(k, tr);
      leaf, crumbs := p, path;
      ghost var t := View(Whole);
      FramedTree(rank, t);
      LeafEntries(rank, t, p);
      var (ok, n) := InsertCell(rank, pages[p], k, v);
      if ok {
        LeafInsert(limit, rank, t, p, k, v, contents);
        pages := pages[p := n];
        contents := contents[k := v];
        assert View(Whole) == t.(pages := pages) && pages.Keys == t.pages.Keys;
        LeafEditKeepsRoot(t, p, pages);
        tr' := LeafDone(tr, tr', p, Ledger(multiset{p}, {}, pages.Keys, free, numPages, 0, 0));
        r, fate := Success(()), Stored;
        return;
      }
      FullLeaf(limit, rank, t, p, k, v, n);
      SplitLeafRoom(limit, rank, n, k, v);
      if |n.entries| < 2 { return Failure(AssertionFails), Broken, p, path, tr'; }
      ghost var held, kept := tr', false;
      var placed;
      placed, kept, tr' := SplitAndPlace(p, path, k, v, n, held);
      if placed { Chain(tr, held, tr', 1, 0, 3, 0, 3, 0); }
      r := if placed then Success(()) else Failure(AssertionFails);
      fate := if !placed then Broken else if kept then Stored else Dropped;
    }

    /** The leaf is full: split it and hand the separator up. */
    method SplitAndPlace(p: PageId, path: seq<PageId>, k: Key, v: Value, n: Node, ghost tr: Trace)
      returns (placed: bool, ghost kept: bool, ghost tr': Trace)
      requires Holding(tr, multiset{p}) && Valid() && Cost(KV(k, v)) <= limit && PathTo(View(Whole), path, p)
      requires p in pages && pages[p].leaf && p in info && Covers(rank, info[p], k)
      requires forall e :: e in pages[p].entries ==> e.KV?
      requires InsertCell(rank, pages[p], k, v) == (false, n) && |n.entries| >= 2
      modifies this
      ensures SplitPoint(n) < |n.entries| && kept == HalfTakes(rank, n, k, v)
      ensures placed <==> Ascends(rank, old(pages), path, n.entries[SplitPoint(n)].key)
      ensures placed ==> Valid() && contents == if kept then old(contents)[k := v] else old(contents) - {k}
      ensures placed ==> old(pages).Keys < pages.Keys && Quiet(tr') && Bounded(tr, tr', 3, 0)
      ensures limit <= LEAF_LIMIT ==> placed
    {
      hide Shape, Ordered, Stores, Sized, NodeSized, Costs, LowerBound, InsertCell, SplitPoint, Payloads, Ascends, HalfTakes, AllocOk, Agrees, Bounded, LetGo, CutsAt, RootBranches;
      ghost var t := View(Whole);
      FramedTree(rank, t);
      var right, sep;
      ghost var split;
      right, sep, kept, split := SplitLeaf(p, k, v, n, tr);
      PathFrame(t, View(Split(p, right)), path, p);
      PathLevels(t, path, p);
      SplitKeepsRoot(rank, t, View(Split(p, right)), path, p);
      AscendsFrame(rank, t.pages, pages, path, sep) by {
        forall c | c in path ensures c in pages && c in t.pages && pages[c].entries == t.pages[c].entries {
          var j :| 0 <= j < |path| && path[j] == c;
        }
      }
      placed, tr' := InsertIntoParent(p, sep, right, path, split);
      if placed { Chain(tr, split, tr', 3, 0, 3, 0, 3, 0); }
    }

    /** The leaf is full: move its upper half to a fresh page, then try the half in charge of `k`;
        the code does not look at the result. */
    method SplitLeaf(p: PageId, k: Key, v: Value, n: Node, ghost tr: Trace)
      returns (r: PageId, sep: Key, ghost kept: bool, ghost tr': Trace)
      requires Holding(tr, multiset{p}) && Sound() && Cost(KV(k, v)) <= limit
      requires p in pages && pages[p].leaf && p in info && Covers(rank, info[p], k)
      requires forall e :: e in pages[p].entries ==> e.KV?
      requires InsertCell(rank, pages[p], k, v) == (false, n) && |n.entries| >= 2
      modifies this
      ensures Books() && root == old(root) && Shape(rank, View(Split(p, r)))
      ensures r !in old(pages) && pages.Keys == old(pages).Keys + {r} && CutsAt(n.entries, Costs(n.entries) / 2, SplitPoint(n))
      ensures SplitPoint(n) < |n.entries| && sep == n.entries[SplitPoint(n)].key && kept == HalfTakes(rank, n, k, v)
      ensures contents == if kept then old(contents)[k := v] else old(contents) - {k}
      ensures p in info && rank(sep) == info[p].hi && Cost(KP(sep, r)) <= limit + 2
      ensures forall x :: x in old(pages) && x in old(info) ==>
                            && x in pages && x in info && pages[x].parent == old(pages)[x].parent
                            && info[x].level == old(info)[x].level && (x != p ==> pages[x].entries == old(pages)[x].entries)
      ensures Quiet(tr') && Bounded(tr, tr', 3, 0)
    {
      hide Shape, Ordered, Stores, Sized, NodeSized, Costs, LowerBound, InsertCell, SplitPoint, Payloads, Overwrites, HalfTakes, LeafHalves, Agrees, Bounded, LeafSplitTraffic, LeafCut, Covers, Framed, AllocOk;
      ghost var t := View(Whole);
      FramedTree(rank, t);
      FrameFacts(t);
      ghost var ledger := Ledger(multiset{p}, {}, pages.Keys, free, numPages, 0, 0);
      r := NewPage();
      var leftNode, rightNode;
      sep, leftNode, rightNode, kept := ShareOut(p, k, v, n);
      ghost var cut := LeafCut(rank, t, p, r, sep, leftNode.entries, leftNode.dead, rightNode.entries, rightNode.dead);
      LeafCutBooks(limit, rank, t, p, r, k, v, sep, leftNode, rightNode, kept, contents);
      LeafSplitAgrees(tr, ledger, p, r, n.right);
      tr' := LeafSplitTraffic(tr, p, r, n.right);
      LinkHalves(p, r, sep, leftNode, rightNode);
      contents := if kept then contents[k := v] else contents - {k};
      info := cut.info;
      assert View(Split(p, r)) == cut && pages.Keys == t.pages.Keys + {r};
    }

    /** Write both halves and link the new page into the chain. */
    method LinkHalves(p: PageId, r: PageId, ghost sep: Key, left: Node, right: Node)
      requires p in pages && p in info && r !in pages && pages[p].leaf && pages[p].right != p && pages[p].right != r
      requires pages[p].right != NO_PAGE ==> pages[p].right in pages
      requires NO_PAGE !in pages && r != NO_PAGE
      requires left == pages[p].(entries := left.entries, dead := left.dead)
      requires right == pages[p].(entries := right.entries, dead := right.dead)
      modifies this`pages
      ensures var cut := LeafCut(rank, old(View(Whole)), p, r, sep, left.entries, left.dead, right.entries, right.dead);
        pages == cut.pages && cut.root == root && cut.pend == Split(p, r) && p in cut.info && cut.info[p].hi == rank(sep)
    {
      LeafCutIs(rank, View(Whole), p, r, sep, left, right);
      var next := pages[p].right;
      pages := pages[p := left.(right := r)];
      pages := pages[r := right.(left := p, right := next, first := NO_PAGE)];
      if next != NO_PAGE {
        pages := pages[next := pages[next].(left := r)];
      }
    }

    /** The two halves of a full leaf, with the new cell tried in the one in charge of it. */
    method ShareOut(p: PageId, k: Key, v: Value, n: Node) returns (sep: Key, left: Node, right: Node, ghost kept: bool)
      requires Ordered(rank) && Shape(rank, View(Whole)) && Sized(limit, pages) && Cost(KV(k, v)) <= limit
      requires p in pages && pages[p].leaf && p in info && Covers(rank, info[p], k)
      requires forall e :: e in pages[p].entries ==> e.KV?
      requires InsertCell(rank, pages[p], k, v) == (false, n) && |n.entries| >= 2
      ensures SplitPoint(n) < |n.entries| && sep == n.entries[SplitPoint(n)].key && kept == HalfTakes(rank, n, k, v)
      ensures CutsAt(n.entries, Costs(n.entries) / 2, SplitPoint(n))
      ensures LeafHalves(limit, rank, View(Whole), p, k, v, sep, left, right, kept) && n.right == pages[p].right
    {
      hide Shape, Ordered, Sized, NodeSized, Costs, LowerBound, InsertCell, SplitPoint, Payloads, Overwrites, HalfTakes, LeafHalves;
      ghost var t := View(Whole);
      FullLeaf(limit, rank, t, p, k, v, n);
      ComputedLeafHalves(limit, rank, t, p, k, v, n);
      SplitPointIs(n, SplitPoint(n));
      var s := SplitPoint(n);
      sep := n.entries[s].key;
      kept := HalfTakes(rank, n, k, v);
      left, right := KeepFirst(n, s), n.(entries := n.entries[s..]);
      if rank(k) < rank(sep) {
        left := InsertCell(rank, left, k, v).1;
      } else {
        right := InsertCell(rank, right, k, v).1;
      }
    }

    // ---------------------------------------------------------------- removal

    /** Unbind `k`. `leaf` and `crumbs` are where the search ends and how it gets there; the
        diagnosis of that path before the call decides what comes of it. After a fault that is
        not a failed assertion the call returns normally and the pages are ruined. */
    method Remove(k: Key, ghost tr: Trace)
      returns (r: Result<bool, TreeError>, ghost fault: Option<Fault>, ghost leaf: PageId, ghost crumbs: seq<PageId>, ghost tr': Trace)
      requires Valid() && Quiet(tr)
      modifies this
      ensures leaf in old(pages) && old(pages)[leaf].leaf && leaf in old(info) && Covers(rank, old(info)[leaf], k)
      ensures PathTo(old(View(Whole)), crumbs, leaf) && PathThere(old(pages), crumbs)
      ensures k !in old(contents) ==> fault == None && pages == old(pages)
      ensures k in old(contents) ==>
        var n := old(pages)[leaf];
        var slot := LowerBound(rank, n.entries, k);
        && slot < |n.entries|
        && var n' := RemoveAt(n, slot);
           fault == if Underflow(n') && leaf != old(root)
                    then Diagnosis(rank, old(info), old(pages), old(root), |old(free)|, crumbs, leaf, n') else None
      ensures r == if Stops(fault) then Failure(AssertionFails) else Success(k in old(contents))
      ensures fault == None ==> Valid() && contents == old(contents) - {k} && AllRelieved(old(pages), pages, root, crumbs)
      ensures k in old(contents) && !Stops(fault) ==>
        var slot := LowerBound(rank, old(pages)[leaf].entries, k);
        && slot < |old(pages)[leaf].entries|
        && var n' := RemoveAt(old(pages)[leaf], slot);
           if Underflow(n') && leaf != old(root)
           then crumbs != [] && Chosen(rank, old(pages)[leaf := n'], pages, crumbs[|crumbs| - 1], leaf)
           else pages == old(pages)[leaf := n'] && root == old(root)
      ensures fault.Some? && !Stops(fault) ==> Ruined()
      ensures !Stops(fault) ==> Quiet(tr') && Bounded(tr, tr', 4, |crumbs| + 1)
    {
      hide Shape, Ordered, Stores, Sized, Costs, Diagnosis, PathThere, LowerBound, Agrees, Bounded, LetGo, NoTree;
      var p, path;
      p, path, tr' := FindLeaf(k, tr);
      leaf, crumbs, fault := p, path, None;
      ghost var t := View(Whole);
      FramedTree(rank, t);
      PathIsThere(rank, t, path, p);
      LeafEntries(rank, t, p);
      var slot := Search(rank, pages[p].entries, k);
      FoundIff(rank, t, p, k, contents);
      if slot >= |pages[p].entries| || pages[p].entries[slot].key != k {
        assert contents - {k} == contents;
        UnpinLast(tr', Ledger(multiset{p}, {}, pages.Keys, free, numPages, 0, 0), p);
        Chain(tr, tr', Then(tr', Unpin(p, false)), 1, 0, 0, 0, 4, |path| + 1);
        return Success(false), None, p, path, Then(tr', Unpin(p, false));
      }
      DropKeeps(limit, rank, t, p, slot, contents);
      pages := pages[p := RemoveAt(pages[p], slot)];
      contents := contents - {k};
      assert View(Whole) == t.(pages := pages) && pages.Keys == t.pages.Keys;
      LeafEditKeepsRoot(t, p, pages);
      ghost var done := LeafDone(tr, tr', p, Ledger(multiset{p}, {}, pages.Keys, free, numPages, 0, 0));
      Still(done, 4, |path| + 1);
      tr' := done;
      var ok := true;
      if Underflow(pages[p]) && p != root {
        PathFrame(t, View(Whole), path, p);
        PathIsThere(rank, View(Whole), path, p);
        DiagnosisFrame(rank, t, pages, info, |free|, path, p, pages[p]);
        PathRoot(t, path, p);
        ok, fault, tr' := FixUnderflow(p, path, done);
      }
      if ok { Chain(tr, done, tr', 1, 0, 4, |path| + 1, 4, |path| + 1); }
      if fault == None { DropRelieved(t, path, p, t.pages[p := RemoveAt(t.pages[p], slot)], pages, root); }
      r := if ok then Success(true) else Failure(AssertionFails);
    }

    /** Borrow from or merge with a sibling, walking up as parents underflow in turn. After a
        misdirected merge the parent's own repair is not followed. */
    method FixUnderflow(x: PageId, crumbs: seq<PageId>, ghost tr: Trace) returns (ok: bool, ghost fault: Option<Fault>, ghost tr': Trace)
      requires Valid() && x in pages && x != root && Underflow(pages[x]) && Quiet(tr)
      requires PathTo(View(Whole), crumbs, x) && PathThere(pages, crumbs)
      modifies this
      ensures fault == Diagnosis(rank, old(info), old(pages), old(root), |old(free)|, crumbs, x, old(pages)[x])
      ensures ok <==> !Stops(fault)
      ensures fault == None ==> Valid() && contents == old(contents)
      ensures fault == None ==> Repaired(old(pages), old(info), pages, root, crumbs, x)
      ensures ok ==> crumbs != [] && Chosen(rank, old(pages), pages, crumbs[|crumbs| - 1], x) && pages.Keys <= old(pages).Keys
      ensures fault.Some? && ok ==> Ruined()
      ensures ok ==> Quiet(tr') && Bounded(tr, tr', 4, |crumbs| + 1)
      decreases |crumbs|, 1
    {
      hide MergeDiagnosis, Shape, Ordered, Stores, Sized, Costs, Underflow, LeftLoan, RightLoan, Join, ChildIndex, Agrees, Bounded, NoTree, Repaired, LeftLoanPages, RightLoanPages, LoanReady, Chosen;
      ghost var t := View(Whole);
      FramedTree(rank, t);
      SizedAt(limit, pages, crumbs[|crumbs| - 1]);
      var q := crumbs[|crumbs| - 1];
      assert KidsThere(pages, q);
      SiblingLevels(rank, t, q, x);
      var parent := pages[q];
      ghost var l := Ledger(multiset{q}, {}, pages.Keys, free, numPages, 0, 0);
      FetchFirst(tr, l.(pins := multiset{}), q);
      ghost var held := Then(tr, Fetch(q));
      tr' := held;
      Chain(tr, held, held, 1, 0, 1, 0, 2, 0) by { Still(held, 1, 0); }
      var i := LocateChild(parent, x);
      if parent.entries == [] { return false, Some(NoSibling), tr'; }
      if i > 0 {
        var left := Kid(parent, i - 1);
        if !Underflow(pages[left]) {
          ok, fault, tr' := BorrowFromLeft(q, i - 1, crumbs[..|crumbs| - 1], held);
          if ok { Chain(tr, held, tr', 1, 0, 4, 0, 4, |crumbs| + 1); }
          if ok { ChosenLeft(rank, t.pages, pages, q, x, i); }
          if fault == None { LeftLoanRelieves(rank, t, crumbs, x, i - 1); }
          return;
        }
        held := Look(tr, held, l, left);
      }
      if i < |parent.entries| {
        var right := Kid(parent, i + 1);
        if !Underflow(pages[right]) {
          ok, fault, tr' := BorrowFromRight(q, i, held);
          if ok { Chain(tr, held, tr', 2, 0, 4, 0, 4, |crumbs| + 1); }
          if ok { ChosenRight(rank, t.pages, pages, q, x, i); }
          if fault == None { RightLoanRelieves(rank, t, crumbs, x, i); }
          return;
        }
        held := Look(tr, held, l, right);
      }
      ok, fault, tr' := MergeUp(x, i, crumbs, held);
      if ok {
        Chain(tr, held, tr', 2, 0, 4, |crumbs| + 1, 4, |crumbs| + 1);
        ChosenMerge(rank, t.pages, pages, q, x, i);
      }
    }

    /** No sibling can lend: merge with the right one if there is one, else with the left one. */
    method MergeUp(x: PageId, i: nat, crumbs: seq<PageId>, ghost tr: Trace) returns (ok: bool, ghost fault: Option<Fault>, ghost tr': Trace)
      requires Valid() && x in pages && x != root && Underflow(pages[x]) && PathTo(View(Whole), crumbs, x) && PathThere(pages, crumbs)
      requires crumbs != [] && Holding(tr, multiset{crumbs[|crumbs| - 1]})
      requires var parent := pages[crumbs[|crumbs| - 1]];
        && parent.entries != [] && i <= |parent.entries| && Kid(parent, i) == x && KidsThere(pages, crumbs[|crumbs| - 1])
        && (i > 0 ==> Underflow(pages[Kid(parent, i - 1)])) && (i < |parent.entries| ==> Underflow(pages[Kid(parent, i + 1)]))
      modifies this
      ensures fault == MergeDiagnosis(rank, old(info), old(pages), old(root), |old(free)|, crumbs, i, old(pages)[x])
      ensures ok <==> !Stops(fault)
      ensures fault == None ==> Valid() && contents == old(contents)
      ensures fault == None ==> Repaired(old(pages), old(info), pages, root, crumbs, x)
      ensures ok ==> pages.Keys <= old(pages).Keys
      ensures ok ==> var parent := old(pages)[crumbs[|crumbs| - 1]];
                     (if i < |parent.entries| then Kid(parent, i + 1) else x) !in pages
      ensures fault.Some? && ok ==> Ruined()
      ensures ok ==> Quiet(tr') && Bounded(tr, tr', 4, |crumbs| + 1)
      decreases |crumbs|, 0
    {
      hide Shape, Ordered, Stores, Sized, Costs, Underflow, Join, Diagnosis, Aftermath, Agrees, Bounded, NoTree, RemoveAt, JoinedFrom, Repaired, Settled, AbsorbedPages, MergedInto, MergedWell, PathTo, PathThere;
      ghost var t := View(Whole);
      FramedTree(rank, t);
      ParentAbove(t, crumbs, x);
      var q := crumbs[|crumbs| - 1];
      SiblingLevels(rank, t, q, x);
      var parent := pages[q];
      var j := if i < |parent.entries| then i else i - 1;
      JoinVerdicts(parent, TurnSlot(i), pages[Kid(parent, j)], pages[Kid(parent, j + 1)], |free|);
      ghost var joined;
      ok, fault, tr', joined := Merge(q, TurnSlot(i), j, tr);
      if !ok { return; }
      ghost var merged := tr';
      Still(merged, 4, |crumbs|);
      AbsorbedKeys(t.pages, q, TurnSlot(i), Kid(parent, j), Kid(parent, j + 1), joined);
      if TurnSlot(i) == j {
        ghost var mid, midInfo := pages, info;
        AfterMerge(limit, rank, t, crumbs, x, j, joined, pages, info, contents, |free|);
        ok, fault, tr' := Settle(q, crumbs[..|crumbs| - 1], Kid(parent, j), merged);
        if fault == None { MergeRelieves(t, crumbs, x, Kid(parent, j), Kid(parent, j + 1), mid, midInfo, pages, root); }
      }
      if ok { Chain(tr, merged, tr', 4, 1, 4, |crumbs|, 4, |crumbs| + 1); }
    }

    /** After a merge: go on with the parent, or drop a root that has one child left. */
    method Settle(q: PageId, crumbs: seq<PageId>, survivor: PageId, ghost tr: Trace) returns (ok: bool, ghost fault: Option<Fault>, ghost tr': Trace)
      requires Sound() && q in pages && !pages[q].leaf && PathTo(View(Whole), crumbs, q) && PathThere(pages, crumbs) && Quiet(tr)
      requires pages[q].entries == [] ==> survivor == pages[q].first
      requires if q != root then RootBranches(View(Whole)) else survivor in pages && (pages[survivor].leaf || pages[survivor].entries != [])
      modifies this
      ensures fault == Aftermath(rank, old(info), old(pages), old(root), |old(free)|, crumbs, q, old(pages)[q])
      ensures ok <==> !Stops(fault)
      ensures fault == None ==> Valid() && contents == old(contents)
      ensures fault == None ==> Settled(old(pages), old(info), pages, root, crumbs, q)
      ensures fault == None && q == old(root) && old(pages)[q].entries == [] ==> root == survivor && q !in pages
      ensures ok ==> pages.Keys <= old(pages).Keys
      ensures fault.Some? && ok ==> Ruined()
      ensures ok ==> Quiet(tr') && Bounded(tr, tr', 4, |crumbs| + 1)
      decreases |crumbs|, 2
    {
      hide Settled, Repaired, Shape, Ordered, Stores, Sized, Costs, Underflow, Diagnosis, AllocOk, PathTo, PathThere, Agrees, Bounded, Visit, NoTree;
      FramedTree(rank, View(Whole));
      if Underflow(pages[q]) && q != root {
        ok, fault, tr' := FixUnderflow(q, crumbs, tr);
        if fault == None { RepairSettles(old(pages), old(info), pages, root, crumbs, q); }
      } else if pages[q].entries == [] && q == root {
        if |free| >= FreeLists.MAX_FREE_PAGES { return false, Some(RegistryFull), tr; }
        ghost var t := View(Whole);
        CollapseKeeps(limit, rank, t, contents);
        AllocFree(pages.Keys, free, numPages, q);
        CollapseAgrees(tr, Ledger(multiset{}, {}, pages.Keys, free, numPages, 0, 0), q, survivor);
        tr' := CollapseTraffic(tr, q, survivor);
        Still(tr, 4, 0);
        Chain(tr, tr, tr', 4, 0, 1, 1, 4, |crumbs| + 1);
        pages := pages[survivor := pages[survivor].(parent := NO_PAGE)];
        pages := pages - {q};
        free := free + [q];
        root := survivor;
        info := info - {q};
        assert View(Whole) == Collapsed(t) && pages.Keys == t.pages.Keys - {q};
        PathRoot(t, crumbs, q);
        CollapseSettles(t.pages, t.info, pages, root, q);
        ok, fault := true, None;
      } else {
        AlreadySettled(pages, info, root, crumbs, q);
        Still(tr, 4, |crumbs| + 1);
        ok, fault, tr' := true, None, tr;
      }
    }

    /** Child `s` of `q` lends its last cell to the next child. */
    method BorrowFromLeft(q: PageId, s: nat, ghost crumbs: seq<PageId>, ghost tr: Trace)
      returns (ok: bool, ghost fault: Option<Fault>, ghost tr': Trace)
      requires Sound() && q in pages && !pages[q].leaf && s < |pages[q].entries| && KidsThere(pages, q)
      requires PathTo(View(Whole), crumbs, q) && Holding(tr, multiset{q})
      modifies this`pages, this`info
      ensures var l, x := Kid(old(pages)[q], s), Kid(old(pages)[q], s + 1);
        fault == LeftLoan(rank, Low(old(info), l), old(pages)[q], s, old(pages)[l], old(pages)[x])
      ensures ok <==> !Stops(fault)
      ensures ok ==> LoanReady(old(pages), q, s) && old(pages)[Kid(old(pages)[q], s)].entries != []
                     && pages == LeftLoanPages(rank, old(pages), q, s)
      ensures fault == None ==> Sound()
      ensures fault.Some? && ok ==> Ruined()
      ensures ok ==> Quiet(tr') && Bounded(tr, tr', 4, 0)
    {
      hide Shape, PageOk, Ordered, Stores, Costs, InsertCell, MoveSeparator, SeparatorFits, Sized, RemoveAt, PlaceAt, Agrees, Bounded, NoTree, LoanReady, PathTo, LendTraffic, NodeOk;
      ghost var t := View(Whole);
      LoanIsReady(rank, t, q, s);
      KidsOfKids(t.pages, q, s);
      var l, x := Kid(pages[q], s), Kid(pages[q], s + 1);
      SizedAt(limit, pages, q);
      SizedAt(limit, pages, x);
      fault, tr' := LeftFault(rank, t, q, s), tr;
      if pages[l].entries == [] { return false, fault, tr; }
      var last := |pages[l].entries| - 1;
      var e := pages[l].entries[last];
      LeftLoanRoom(rank, pages[q], s, pages[l], pages[x], info[l], info[x]);
      var (taken, n) := if pages[x].leaf then InsertCell(rank, pages[x], e.key, e.val)
                        else PlaceAt(pages[x].(first := ChildOf(e)), 0, KP(e.key, pages[x].first));
      var (renamed, p) := MoveSeparator(rank, pages[q], s, e.key);
      ok := taken && renamed;
      if !ok { return; }
      var c := ChildOf(e);
      if c != NO_PAGE { GrandchildApart(rank, t, q, s, l, |pages[l].entries|); }
      ghost var inf := LeftLoanOutcome(limit, rank, t, crumbs, q, s, contents);
      LendAgrees(tr, Ledger(multiset{q}, {}, pages.Keys, free, numPages, 0, 0), q, l, x, c);
      tr' := LendTraffic(tr, q, l, x, c);
      pages := pages[l := RemoveAt(pages[l], last)];
      pages := pages[x := n];
      if c != NO_PAGE { pages := pages[c := pages[c].(parent := x)]; }
      pages := pages[q := p];
      info := inf;
      assert pages == LeftLoanPages(rank, t.pages, q, s);
      assert pages.Keys == t.pages.Keys;
    }

    /** Child `i + 1` of `q` lends its first cell to child `i`; the separator renamed is the one
        the code has at hand. */
    method BorrowFromRight(q: PageId, i: nat, ghost tr: Trace) returns (ok: bool, ghost fault: Option<Fault>, ghost tr': Trace)
      requires Sound() && q in pages && !pages[q].leaf && i < |pages[q].entries| && KidsThere(pages, q) && Holding(tr, multiset{q})
      modifies this`pages, this`info
      ensures fault == RightLoan(old(pages)[q], i, old(pages)[Kid(old(pages)[q], i + 1)], old(pages)[Kid(old(pages)[q], i)])
      ensures ok <==> !Stops(fault)
      ensures ok ==> LoanReady(old(pages), q, i) && RightFault(old(View(Whole)), q, i) == fault
      ensures ok ==> var lender := old(pages)[Kid(old(pages)[q], i + 1)];
                     |lender.entries| >= (if lender.leaf then 2 else 1) && pages == RightLoanPages(rank, old(pages), q, i)
      ensures fault == None ==> Sound()
      ensures fault.Some? && ok ==> Ruined()
      ensures ok ==> Quiet(tr') && Bounded(tr, tr', 4, 0)
    {
      hide Shape, PageOk, Ordered, Stores, Costs, InsertCell, InsertSep, MoveSeparator, SeparatorFits, Sized, RemoveAt, Agrees, Bounded, NoTree, LoanReady, LendTraffic, NodeOk;
      ghost var t := View(Whole);
      LoanIsReady(rank, t, q, i);
      KidsOfKids(t.pages, q, i);
      SlotIsPage(rank, t, q, TurnSlot(i));
      var x, r := Kid(pages[q], i), Kid(pages[q], i + 1);
      SizedAt(limit, pages, q);
      SizedAt(limit, pages, x);
      fault, tr' := RightFault(t, q, i), tr;
      if |pages[r].entries| < (if pages[r].leaf then 2 else 1) { return false, fault, tr; }
      RightLoanRoom(rank, pages[q], i, pages[x], pages[r], info[x], info[r]);
      var e := pages[r].entries[0];
      var lender := RemoveAt(if pages[r].leaf then pages[r] else pages[r].(first := ChildOf(e)), 0);
      var sep := if pages[r].leaf then lender.entries[0].key else e.key;
      var (taken, n) := if pages[x].leaf then InsertCell(rank, pages[x], e.key, e.val) else InsertSep(rank, pages[x], e.key, pages[r].first);
      var (renamed, p) := MoveSeparator(rank, pages[q], TurnSlot(i), sep);
      ok := taken && renamed;
      if !ok { return; }
      var c := if pages[r].leaf then NO_PAGE else pages[r].first;
      if c != NO_PAGE { GrandchildApart(rank, t, q, i, r, 0); }
      ghost var inf := RightLoanOutcome(limit, rank, t, q, i, contents);
      LendAgrees(tr, Ledger(multiset{q}, {}, pages.Keys, free, numPages, 0, 0), q, r, x, c);
      tr' := LendTraffic(tr, q, r, x, c);
      pages := pages[r := lender];
      pages := pages[x := n];
      if c != NO_PAGE { pages := pages[c := pages[c].(parent := x)]; }
      pages := pages[q := p];
      info := inf;
      assert pages == RightLoanPages(rank, t.pages, q, i);
      assert pages.Keys == t.pages.Keys;
    }

    /** Child `j + 1` of `q` is absorbed by child `j`; separator `slot` and the page disappear. */
    method Merge(q: PageId, slot: nat, j: nat, ghost tr: Trace)
      returns (ok: bool, ghost fault: Option<Fault>, ghost tr': Trace, ghost joined: Node)
      requires Sound() && q in pages && q in info && !pages[q].leaf && j < |pages[q].entries| && KidsThere(pages, q)
      requires (slot == j || (0 < j && slot == TurnSlot(j))) && Holding(tr, multiset{q})
      requires Underflow(pages[Kid(pages[q], j)]) && Underflow(pages[Kid(pages[q], j + 1)])
      modifies this
      ensures var p := old(pages)[q];
        fault == Join(p, slot, slot == j, old(pages)[Kid(p, j)], old(pages)[Kid(p, j + 1)], |old(free)|)
      ensures ok <==> !Stops(fault)
      ensures fault == None ==>
        && Sound() && contents == old(contents) && root == old(root) && |free| == |old(free)| + 1
        && MergedWell(limit, rank, old(View(Whole)), q, j, pages, info, contents)
      ensures fault.Some? && ok ==> Ruined()
      ensures ok ==>
        var p := old(pages)[q];
        && pages == AbsorbedPages(old(pages), q, slot, Kid(p, j), Kid(p, j + 1), joined)
        && JoinedFrom(rank, old(pages)[Kid(p, j)], old(pages)[Kid(p, j + 1)], p.entries[slot].key, joined)
      ensures ok ==> Quiet(tr') && Bounded(tr, tr', 4, 1)
    {
      hide Shape, Ordered, Stores, Sized, Costs, Neighbours, AllocOk, NodeSized, PageOk, MergedNode, Underflow, NoTree, Agrees, Bounded, MergeStart, MergeEndTraffic, AbsorbedPages, JoinedFrom;
      ghost var t := View(Whole);
      AreNeighbours(rank, t, q, j);
      NeighbourFacts(rank, t, q, j);
      var l, r := Kid(pages[q], j), Kid(pages[q], j + 1);
      fault, tr' := Join(pages[q], slot, slot == j, pages[l], pages[r], |free|), tr;
      ghost var start := MergeStart(tr, l, r);
      ghost var ledger := Ledger(multiset{q, l, r}, {l}, pages.Keys, free, numPages, 0, 0);
      MergeStartAgrees(tr, ledger.(pins := multiset{q}, edited := {}), q, l, r);
      var n := JoinPages(q, slot, j);
      if n == None || |free| >= FreeLists.MAX_FREE_PAGES { return false, fault, tr, pages[l]; }
      joined := n.value;
      ghost var inf := MergeOutcome(limit, rank, t, q, slot, j, n.value, contents);
      AllocFree(pages.Keys, free, numPages, r);
      ghost var linked := Absorb(q, slot, j, n.value, start, ledger);
      tr' := MergeSettled(tr, start, linked, ledger, q, l, r);
      free := free + [r];
      info := inf;
      ok := true;
    }

    /** Install the joined page, mend the links into it and drop the page it replaces. */
    method Absorb(q: PageId, slot: nat, j: nat, n: Node, ghost tr: Trace, ghost ledger: Ledger) returns (ghost tr': Trace)
      requires Shape(rank, View(Whole)) && Neighbours(rank, View(Whole), q, j) && q in pages && slot < |pages[q].entries|
      requires j < |pages[q].entries| && Kid(pages[q], j) in pages && n.leaf == pages[Kid(pages[q], j)].leaf
      requires Agrees(tr, ledger) && ledger.live == pages.Keys && ledger.edited == {Kid(pages[q], j)}
      modifies this`pages
      ensures Kid(old(pages)[q], j + 1) in old(pages)
      ensures pages == AbsorbedPages(old(pages), q, slot, Kid(old(pages)[q], j), Kid(old(pages)[q], j + 1), n)
      ensures Agrees(tr', ledger) && Bounded(tr, tr', |ledger.pins| + 1, 0)
    {
      hide Shape, Costs, Reparented, Neighbours, PageOk, RemoveAt, Agrees, Bounded, Visit, VisitAny;
      ghost var t := View(Whole);
      NeighbourFacts(rank, t, q, j);
      MergeLinks(rank, t, q, j);
      var l, r := Kid(pages[q], j), Kid(pages[q], j + 1);
      if pages[l].leaf {
        var next := pages[r].right;
        VisitAnyAgrees(tr, ledger, next);
        tr' := VisitAny(tr, next);
        pages := pages[l := n.(right := next)];
        if next != NO_PAGE { pages := pages[next := pages[next].(left := l)]; }
      } else {
        var absorbed := pages[r];
        pages := pages[l := n];
        ghost var told := Reparent(absorbed, l, tr, ledger);
        assert Kid(absorbed, 0) == absorbed.first;
        VisitAgrees(told, ledger, absorbed.first);
        tr' := Visit(told, absorbed.first);
        Chain(tr, told, tr', |ledger.pins| + 1, 0, |ledger.pins| + 1, 0, |ledger.pins| + 1, 0);
        UntouchedParent(t.pages, q, l, r, n);
      }
      pages := pages[q := RemoveAt(pages[q], slot)];
      pages := pages - {r};
    }

    method JoinPages(q: PageId, slot: nat, j: nat) returns (n: Option<Node>)
      requires Sound() && q in pages && !pages[q].leaf && j < |pages[q].entries| && KidsThere(pages, q)
      requires slot == j || (0 < j && slot == TurnSlot(j))
      requires Underflow(pages[Kid(pages[q], j)]) && Underflow(pages[Kid(pages[q], j + 1)])
      ensures var l, r := pages[Kid(pages[q], j)], pages[Kid(pages[q], j + 1)];
        && (n.None? <==> !l.leaf && Costs(l.entries) + Cost(KP(pages[q].entries[slot].key, r.first)) + Costs(r.entries) > USABLE)
        && (n.Some? ==> n.value.leaf == l.leaf && (slot == j ==> MergedNode(View(Whole), q, j, n.value))
                        && JoinedFrom(rank, l, r, pages[q].entries[slot].key, n.value))
    {
      hide Shape, Ordered, Stores, Costs, PageOk, Sorted, Inserted, LowerBound;
      ghost var t := View(Whole);
      AreNeighbours(rank, t, q, j);
      var l, r := Kid(pages[q], j), Kid(pages[q], j + 1);
      assert NodeSized(limit, pages[l]);
      var ok, joined;
      if pages[l].leaf {
        LeavesInOrder(rank, t, q, j);
        UnderflowingLeavesFit(pages[l], pages[r]);
        ok, joined := MergeLeaves(rank, pages[l], pages[r]);
      } else {
        if slot == j { InternalsInOrder(rank, t, q, j); } else { MisplacedInOrder(rank, t, q, j); }
        ok, joined := MergeInternals(rank, pages[l], pages[q].entries[slot].key, pages[r]);
      }
      n := if ok then Some(joined) else None;
    }
  }

  /** The children of two adjacent internal children are there. */
  lemma KidsOfKids(pages: map<PageId, Node>, q: PageId, j: nat)
    requires LoanReady(pages, q, j)
    ensures KidsThere(pages, q)
    ensures var l, r := Kid(pages[q], j), Kid(pages[q], j + 1);
            && pages[l].leaf == pages[r].leaf
            && (forall e :: e in pages[l].entries || e in pages[r].entries ==> (e.KV? <==> pages[l].leaf))
            && (!pages[l].leaf ==> KidsThere(pages, l) && KidsThere(pages, r))
  {
  }

  lemma SlotIsPage(rank: Rank, t: Tree, q: PageId, s: nat)
    requires Shape(rank, t) && q in t.pages && !t.pages[q].leaf && s < |t.pages[q].entries|
    ensures t.pages[q].entries[s].KP?
  {
    SortedPage(rank, t, q);
    assert t.pages[q].entries[s] in t.pages[q].entries;
  }

  lemma UntouchedParent(pages: map<PageId, Node>, q: PageId, l: PageId, r: PageId, n: Node)
    requires q in pages && l in pages && r in pages && q != l
    requires forall i :: 0 <= i <= |pages[r].entries| ==> Kid(pages[r], i) != q
    ensures var p := Reparented(pages[l := n], pages[r], l); q in p && p[q] == pages[q]
  {
  }

  /** The ledger while a parent is being split, and after it. */
  lemma SplitBusy(tr: Trace, l: Ledger, q: PageId, r: PageId, child: PageId) returns (busy: Ledger)
    requires Agrees(tr, l) && l.pins == multiset{q} && l.edited == {} && r == NextPage(l.free, l.numPages) && r !in l.live
    requires q in l.live && child in l.live && child != q
    ensures busy == Allocated(l, r).(pins := multiset{q, r}, edited := {q, r})
    ensures Agrees(SplitStart(tr, q, r, child), busy) && Bounded(tr, SplitStart(tr, q, r, child), 3, 0)
  {
    hide Agrees, Bounded, SplitStart;
    SplitStartAgrees(tr, l, q, r, child);
    busy := Allocated(l, r).(pins := multiset{q, r}, edited := {q, r});
  }

  /** An edited leaf is let go. */
  lemma LeafDone(tr: Trace, held: Trace, p: PageId, l: Ledger) returns (done: Trace)
    requires Bounded(tr, held, 1, 0) && Agrees(held, l) && l.pins == multiset{p} && l.edited == {}
    ensures Agrees(done, l.(pins := multiset{})) && Bounded(tr, done, 1, 0) && Bounded(tr, done, 3, 0)
  {
    hide Agrees, Bounded, LetGo;
    LetGoLast(held, l, p);
    done := LetGo(held, p);
    Chain(tr, held, done, 1, 0, 0, 0, 1, 0);
    Chain(tr, held, done, 1, 0, 0, 0, 3, 0);
  }

  /** A sibling is fetched, found wanting and let go. */
  lemma Look(tr: Trace, held: Trace, l: Ledger, p: PageId) returns (seen: Trace)
    requires Bounded(tr, held, 2, 0) && Agrees(held, l) && |l.pins| == 1 && l.edited == {} && p in l.live
    ensures Agrees(seen, l) && Bounded(tr, seen, 2, 0)
  {
    hide Agrees, Bounded, Glance;
    GlanceAgrees(held, l, p);
    seen := Glance(held, p);
    Chain(tr, held, seen, 2, 0, 2, 0, 2, 0);
  }

  /** The end of a merge, from its start to the deletion. */
  lemma MergeSettled(tr: Trace, start: Trace, linked: Trace, l: Ledger, q: PageId, a: PageId, b: PageId) returns (done: Trace)
    requires Bounded(tr, start, 3, 0) && Bounded(start, linked, |l.pins| + 1, 0) && Agrees(linked, l)
    requires l.pins == multiset{q, a, b} && l.edited == {a} && b in l.live && |l.free| < FreeLists.MAX_FREE_PAGES
    requires q != a && q != b && a != b
    ensures Agrees(done, l.(pins := multiset{}, edited := {}, live := l.live - {b}, free := l.free + [b])) && Bounded(tr, done, 4, 1)
  {
    hide Agrees, Bounded, MergeEndTraffic;
    MergeEndAgrees(linked, l, q, a, b);
    done := MergeEndTraffic(linked, q, a, b);
    Chain(tr, start, linked, 3, 0, 4, 0, 4, 0);
    Chain(tr, linked, done, 4, 0, 0, 1, 4, 1);
  }

  /** The page table the code leaves behind when it splits a leaf. */
  lemma LeafCutIs(rank: Rank, t: Tree, p: PageId, r: PageId, sep: Key, left: Node, right: Node)
    requires p in t.pages && p in t.info && r !in t.pages && t.pages[p].leaf && t.pages[p].right != p && t.pages[p].right != r
    requires t.pages[p].right != NO_PAGE ==> t.pages[p].right in t.pages
    requires NO_PAGE !in t.pages && r != NO_PAGE
    requires left == t.pages[p].(entries := left.entries, dead := left.dead)
    requires right == t.pages[p].(entries := right.entries, dead := right.dead)
    ensures var next := t.pages[p].right;
            var halves := t.pages[p := left.(right := r)][r := right.(left := p, right := next, first := NO_PAGE)];
            var cut := LeafCut(rank, t, p, r, sep, left.entries, left.dead, right.entries, right.dead);
            && cut.pages == (if next != NO_PAGE then halves[next := halves[next].(left := r)] else halves)
            && cut.root == t.root && cut.pend == Split(p, r)
            && p in cut.info && cut.info[p].hi == rank(sep)
  {
  }

  /** The page table the code leaves behind when it makes a new root. */
  lemma GrownIs(t: Tree, r: PageId, sep: Key)
    requires Framed(t) && t.pend.Split? && r !in t.pages
    ensures var n := EmptyInternal(NO_PAGE).(first := t.pend.left, entries := [KP(sep, t.pend.right)]);
            var a, b := t.pend.left, t.pend.right;
            var with := t.pages[r := n][a := t.pages[a].(parent := r)];
            Grown(t, r, sep).pages == with[b := with[b].(parent := r)] && Grown(t, r, sep).root == r && Grown(t, r, sep).pend == Whole
  {
  }

  /** The parent took a separator; the root is the parent or as it was. */
  lemma StillBranches(t: Tree, q: PageId, n: Node, pages: map<PageId, Node>)
    requires Framed(t) && t.pend.Split? && q in t.pages && n.entries != []
    requires pages == t.pages[q := n][t.pend.right := t.pages[t.pend.right].(parent := q)]
    ensures RootBranches(t) ==> RootBranches(t.(pages := pages, pend := Whole))
  {
  }

  /** A page below the root was split: the root is as it was. */
  lemma SplitKeepsRoot(rank: Rank, t: Tree, t': Tree, init: seq<PageId>, q: PageId)
    requires Shape(rank, t) && Shape(rank, t') && t'.root == t.root && PathTo(t, init, q) && q in t.pages && q in t.info
    requires forall x :: x in t.pages && x in t.info && t.info[x].level >= t.info[q].level ==>
               && x in t'.pages && x in t'.info && t'.info[x].level == t.info[x].level
               && (x != q ==> t'.pages[x].entries == t.pages[x].entries)
    ensures init != [] && RootBranches(t) ==> RootBranches(t')
  {
    hide Shape;
    LeafByLevel(rank, t, q);
    if init != [] && RootBranches(t) { RootKept(rank, t, t'); }
  }

  lemma PathRoot(t: Tree, crumbs: seq<PageId>, p: PageId)
    requires PathTo(t, crumbs, p)
    ensures p == t.root <==> crumbs == []
  {
  }

  /** A leaf edit leaves the root branching. */
  lemma LeafEditKeepsRoot(t: Tree, p: PageId, pages: map<PageId, Node>)
    requires RootBranches(t) && p in t.pages && t.pages[p].leaf && p in pages && pages == t.pages[p := pages[p]] && pages[p].leaf
    ensures RootBranches(t.(pages := pages))
  {
  }

  /** The cell removed at first was the leaf's: the pages above it count the same before and after. */
  lemma DropRelieved(t: Tree, crumbs: seq<PageId>, p: PageId, mid: map<PageId, Node>, now: map<PageId, Node>, root: PageId)
    requires PathTo(t, crumbs, p) && p in t.info && p in mid && mid == t.pages[p := mid[p]]
    requires now == mid || AllRelieved(mid, now, root, crumbs)
    ensures AllRelieved(t.pages, now, root, crumbs)
  {
    hide PathTo, Underflow;
    PathLevels(t, crumbs, p);
    forall i | 0 <= i < |crumbs| ensures Relieved(t.pages, now, root, crumbs[i]) {
      assert crumbs[i] != p && mid[crumbs[i]] == t.pages[crumbs[i]];
      assert now == mid || Relieved(mid, now, root, crumbs[i]);
    }
  }

  lemma FrameFacts(t: Tree)
    requires Framed(t)
    ensures t.pages.Keys == t.info.Keys && NO_PAGE !in t.pages && t.root in t.pages
    ensures t.pend.Split? ==> t.pend.left in t.pages && t.pend.right in t.pages && t.pend.left != t.pend.right
  {
  }

  lemma SplitDone(tr: Trace, start: Trace, told: Trace, busy: Ledger, q: PageId, r: PageId) returns (done: Trace)
    requires Bounded(tr, start, 3, 0) && Bounded(start, told, 3, 0) && Agrees(told, busy)
    requires busy.pins == multiset{q, r} && busy.edited == {q, r} && q != r
    ensures Agrees(done, busy.(pins := multiset{}, edited := {})) && Bounded(tr, done, 3, 0)
  {
    hide Agrees, Bounded, LetGo;
    SplitEndAgrees(told, busy, q, r);
    done := LetGo(LetGo(told, q), r);
    Chain(tr, start, told, 3, 0, 3, 0, 3, 0);
    Chain(tr, told, done, 3, 0, 0, 0, 3, 0);
  }

  lemma PromotedCost(lim: nat, n: Node, mid: nat, r: PageId)
    requires NodeSized(lim, n) && !n.leaf && mid < |n.entries| && n.entries[mid].KP?
    ensures Cost(KP(n.entries[mid].key, r)) <= lim + 2
  {
  }

  /** A pending split below `q`: where its separator goes and what surrounds it. */
  ghost predicate ParentReady(rank: Rank, t: Tree, q: PageId, i: nat, sep: Key) {
    && t.pend.Split? && q in t.pages && !t.pages[q].leaf && q != t.pend.right && q in t.info
    && i <= |t.pages[q].entries| && Kid(t.pages[q], i) == t.pend.left && t.pend.left in t.info
    && rank(sep) == t.info[t.pend.left].hi
    && Sorted(rank, t.pages[q].entries) && LowerBound(rank, t.pages[q].entries, sep) == i
    && (i < |t.pages[q].entries| ==> rank(sep) < rank(t.pages[q].entries[i].key))
    && (forall j :: 0 <= j < |t.pages[q].entries| ==> t.pages[q].entries[j].KP?)
  }

  lemma ParentFacts(lim: nat, rank: Rank, t: Tree, q: PageId, i: nat, sep: Key)
    requires Shape(rank, t) && t.pend.Split? && q in t.pages && !t.pages[q].leaf
    requires i <= |t.pages[q].entries| && Kid(t.pages[q], i) == t.pend.left
    requires rank(sep) == t.info[t.pend.left].hi && LowerBound(rank, t.pages[q].entries, sep) == i
    requires Sized(lim, t.pages)
    ensures ParentReady(rank, t, q, i, sep) && NodeSized(lim, t.pages[q])
  {
    hide ChainOk, AttachedOk;
    assert PageOk(rank, t, q) && PageOk(rank, t, t.pend.right);
    assert KidOk(rank, t, q, i);
  }

  lemma FullLeaf(lim: nat, rank: Rank, t: Tree, p: PageId, k: Key, v: Value, n: Node)
    requires Ordered(rank) && Shape(rank, t) && p in t.pages && t.pages[p].leaf && Sized(lim, t.pages)
    requires forall e :: e in t.pages[p].entries ==> e.KV?
    requires InsertCell(rank, t.pages[p], k, v) == (false, n)
    ensures NodeSized(lim, t.pages[p]) && n == t.pages[p].(entries := n.entries, dead := 0) && Sorted(rank, n.entries)
    ensures Drops(t.pages[p].entries, n.entries, k)
    ensures Costs(n.entries) <= USABLE && Costs(n.entries) + Cost(KV(k, v)) > USABLE && AllWithin(n.entries, lim)
  {
    hide Ordered, Shape, Costs;
    LeafEntries(rank, t, p);
    assert NodeSized(lim, t.pages[p]);
    InsertCellContent(rank, t.pages[p], k, v);
    InsertCellRoom(rank, t.pages[p], k, v);
    FullAfterRemoval(rank, t.pages[p], k, v, n);
    SubWithin(t.pages[p].entries, n.entries, lim);
  }

  lemma FullAfterRemoval(rank: Rank, n0: Node, k: Key, v: Value, n: Node)
    requires n0.leaf && Sorted(rank, n0.entries) && forall e :: e in n0.entries ==> e.KV?
    requires InsertCell(rank, n0, k, v) == (false, n)
    ensures Costs(n.entries) + Cost(KV(k, v)) > USABLE
  {
    hide Costs;
    var i := LowerBound(rank, n0.entries, k);
    if Present(rank, n0.entries, k) {
      PlaceRoom(RemoveAt(n0, i), i, KV(k, v));
    } else {
      PlaceRoom(n0, i, KV(k, v));
    }
  }

  lemma LeafCutBooks(lim: nat, rank: Rank, t: Tree, p: PageId, r: PageId, k: Key, v: Value, sep: Key,
                     left: Node, right: Node, kept: bool, m: map<Key, Value>)
    requires Shape(rank, t) && t.pend == Whole && p in t.pages && t.pages[p].leaf && r !in t.pages && r != NO_PAGE
    requires Covers(rank, t.info[p], k) && Sized(lim, t.pages) && Stores(t.pages, m)
    requires LeafHalves(lim, rank, t, p, k, v, sep, left, right, kept)
    ensures var cut := LeafCut(rank, t, p, r, sep, left.entries, left.dead, right.entries, right.dead);
            var next := t.pages[p].right;
            && Shape(rank, cut) && Sized(lim, cut.pages) && Stores(cut.pages, if kept then m[k := v] else m - {k})
            && cut.pages.Keys == t.pages.Keys + {r} && next != p && next != r
            && (next != NO_PAGE ==> next in t.pages)
            && left == t.pages[p].(entries := left.entries, dead := left.dead)
            && right == t.pages[p].(entries := right.entries, dead := right.dead)
            && rank(sep) < t.info[p].hi && |sep| + 8 <= lim + 2
            && (forall x :: x in t.pages ==> x in cut.info && cut.pages[x].parent == t.pages[x].parent && cut.info[x].level == t.info[x].level
                                             && (x != p ==> cut.pages[x].entries == t.pages[x].entries))
  {
    hide PageOk, Costs, Stores, NodeOk;
    var cut := LeafCut(rank, t, p, r, sep, left.entries, left.dead, right.entries, right.dead);
    assert PageOk(rank, t, p);
    CutReadyFrom(lim, rank, t, p, r, k, v, sep, left, right, kept);
    LeafCutShape(rank, t, p, r, sep, left.entries, left.dead, right.entries, right.dead);
    LeafCutFrame(rank, t, p, r, sep, left.entries, left.dead, right.entries, right.dead);
    forall x | x in cut.pages ensures NodeSized(lim, cut.pages[x]) {
      if x != p && x != r { assert NodeSized(lim, t.pages[x]); }
    }
    forall e ensures e in left.entries + right.entries <==>
                     exists q :: q in cut.pages && (q == p || q !in t.pages) && cut.pages[q].leaf && e in cut.pages[q].entries
    {
      assert p in cut.pages && r in cut.pages;
    }
    if kept {
      StoresOverwrite(rank, t, p, k, v, m, cut.pages, left.entries + right.entries);
    } else {
      StoresWithout(rank, t, p, k, m, cut.pages, left.entries + right.entries);
    }
  }

  lemma CutReadyFrom(lim: nat, rank: Rank, t: Tree, p: PageId, r: PageId, k: Key, v: Value, sep: Key,
                     left: Node, right: Node, kept: bool)
    requires Framed(t) && t.pend == Whole && p in t.pages && t.pages[p].leaf && r !in t.pages && r != NO_PAGE
    requires LeafHalves(lim, rank, t, p, k, v, sep, left, right, kept)
    ensures CutReady(rank, t, p, r, sep, left.entries, right.entries)
  {
    SameNodeOk(rank, left, t.pages[p].(entries := left.entries), Info(0, t.info[p].lo, rank(sep)));
    SameNodeOk(rank, right, t.pages[p].(entries := right.entries), Info(0, rank(sep), t.info[p].hi));
  }

  /** The pages a parent split leaves behind, and the pending split they form. */
  ghost predicate ParentHalves(t: Tree, q: PageId, i: nat, sep: Key, mid: nat, left: Node, right: Node) {
    && t.pend.Split? && q in t.pages && i <= |t.pages[q].entries| && mid < |t.pages[q].entries|
    && var es, e := t.pages[q].entries, KP(sep, t.pend.right);
       && left == t.pages[q].(entries := if i <= mid then Inserted(es[..mid], i, e) else es[..mid], dead := left.dead)
       && right == Node(false, t.pages[q].parent, NO_PAGE, NO_PAGE, ChildOf(es[mid]),
                        if i <= mid then es[mid + 1..] else Inserted(es[mid + 1..], i - mid - 1, e), right.dead)
  }

  /** The same tree obtained by attaching first and promoting afterwards. */
  function SplitTree(rank: Rank, t: Tree, q: PageId, i: nat, sep: Key, mid: nat, r: PageId, dl: nat, dr: nat): Tree
    requires t.pend.Split? && q in t.pages && q in t.info && t.pend.right in t.pages
    requires q != t.pend.right && i <= |t.pages[q].entries| && mid < |t.pages[q].entries|
  {
    InternalCut(rank, Attach(t, q, i, sep, 0), q, r, if i <= mid then mid + 1 else mid, dl, dr)
  }

  ghost predicate SplitReady(rank: Rank, t: Tree, q: PageId, i: nat, sep: Key, mid: nat, r: PageId, left: Node, right: Node) {
    && Shape(rank, t) && t.pend.Split? && q in t.pages && !t.pages[q].leaf && q != t.pend.right && q in t.info
    && i <= |t.pages[q].entries| && Kid(t.pages[q], i) == t.pend.left && t.pend.left in t.info
    && rank(sep) == t.info[t.pend.left].hi && t.pend.right in t.pages
    && r !in t.pages && r != NO_PAGE && mid < |t.pages[q].entries| && ParentHalves(t, q, i, sep, mid, left, right)
  }

  function CutSlot(i: nat, mid: nat): nat { if i <= mid then mid + 1 else mid }

  lemma SplitShape(rank: Rank, t: Tree, q: PageId, i: nat, sep: Key, mid: nat, r: PageId, left: Node, right: Node)
    requires SplitReady(rank, t, q, i, sep, mid, r, left, right)
    ensures var a := Attach(t, q, i, sep, 0);
            && AttachReady(rank, t, q, i, sep)
            && PromoteReady(rank, a, q, r, CutSlot(i, mid)) && RightHalf(a.pages[q], CutSlot(i, mid), right.dead) == right
            && a.pages[q].entries[CutSlot(i, mid)] == t.pages[q].entries[mid]
            && a.pages[q].(entries := a.pages[q].entries[..CutSlot(i, mid)], dead := left.dead) == left
            && Shape(rank, SplitTree(rank, t, q, i, sep, mid, r, left.dead, right.dead))
  {
    hide PageOk, Inserted, IsKid;
    var c := t.pend.right;
    CutAfterInsert(t.pages[q].entries, i, KP(sep, c), mid);
    InsertedEntries(t.pages[q].entries, i, KP(sep, c));
    assert PageOk(rank, t, q) && PageOk(rank, t, t.pend.left) && PageOk(rank, t, c);
    AttachFrame(rank, t, q, i, sep, 0);
    AttachShape(rank, t, q, i, sep, 0);
    assert PageOk(rank, Attach(t, q, i, sep, 0), q);
    InternalCutShape(rank, Attach(t, q, i, sep, 0), q, r, CutSlot(i, mid), left.dead, right.dead);
  }

  /** The page table right before the moved children are told about their new parent. */
  function BeforeReparent(t: Tree, q: PageId, r: PageId, left: Node, right: Node, home: PageId): map<PageId, Node>
    requires t.pend.Split? && t.pend.right in t.pages
  {
    t.pages[q := left][r := right][t.pend.right := t.pages[t.pend.right].(parent := home)]
  }

  lemma SplitPages(rank: Rank, t: Tree, q: PageId, i: nat, sep: Key, mid: nat, r: PageId, left: Node, right: Node)
    requires SplitReady(rank, t, q, i, sep, mid, r, left, right)
    ensures var pages := BeforeReparent(t, q, r, left, right, if i <= mid then q else r);
            var t' := SplitTree(rank, t, q, i, sep, mid, r, left.dead, right.dead);
            && (forall j :: 0 <= j <= |right.entries| ==> Kid(right, j) in t.pages && Kid(right, j) != q && Kid(right, j) != r)
            && t'.pages == Reparented(pages, right, r)
  {
    hide Shape, Inserted, PageOk, Reparented, ParentHalves, Framed, InternalCut;
    var c := t.pend.right;
    var a := Attach(t, q, i, sep, 0);
    var m := CutSlot(i, mid);
    SplitShape(rank, t, q, i, sep, mid, r, left, right);
    AttachFrame(rank, t, q, i, sep, 0);
    CutFrame(rank, a, q, r, m, left.dead, right.dead);
    CutKids(rank, a, q, r, m, right.dead);
    var pages := BeforeReparent(t, q, r, left, right, if i <= mid then q else r);
    var t' := SplitTree(rank, t, q, i, sep, mid, r, left.dead, right.dead);
    if i > mid { AttachedSlot(t, q, i, sep, mid, left, right); }
    ReparentedIs(t, q, r, left, right, if i <= mid then q else r, t'.pages);
    forall j | 0 <= j <= |right.entries| ensures Kid(right, j) in t.pages && Kid(right, j) != q && Kid(right, j) != r {
      assert IsKid(right, Kid(right, j));
    }
  }

  lemma ReparentedIs(t: Tree, q: PageId, r: PageId, left: Node, right: Node, home: PageId, pages': map<PageId, Node>)
    requires t.pend.Split? && t.pend.right in t.pages && q in t.pages && r !in t.pages && q != t.pend.right
    requires pages'.Keys == t.pages.Keys + {r} && pages'[q] == left && pages'[r] == right
    requires !IsKid(right, q) && !IsKid(right, r) && (home == q || (home == r && IsKid(right, t.pend.right)))
    requires forall x :: x in t.pages && x != q ==>
                           pages'[x] == t.pages[x].(parent := if IsKid(right, x) then r
                                                              else if x == t.pend.right then q else t.pages[x].parent)
    ensures pages' == Reparented(BeforeReparent(t, q, r, left, right, home), right, r)
  {
    hide IsKid;
    var pages := BeforeReparent(t, q, r, left, right, home);
    var want := Reparented(pages, right, r);
    assert want.Keys == pages.Keys == t.pages.Keys + {r};
    forall x | x in pages' ensures pages'[x] == want[x] {
      if x == t.pend.right { assert pages[x] == t.pages[x].(parent := home); }
    }
  }

  lemma SplitPath(rank: Rank, t: Tree, q: PageId, i: nat, sep: Key, mid: nat, r: PageId, left: Node, right: Node)
    requires SplitReady(rank, t, q, i, sep, mid, r, left, right)
    ensures var t' := SplitTree(rank, t, q, i, sep, mid, r, left.dead, right.dead);
            && t'.pend == Split(q, r) && t'.root == t.root && t'.pages.Keys == t.pages.Keys + {r}
            && q in t'.info && t'.info[q].hi == rank(t.pages[q].entries[mid].key)
            && (forall x :: x in t.pages && x in t.info && t.info[x].level >= t.info[q].level ==>
                              x in t'.pages && x in t'.info && t'.pages[x].parent == t.pages[x].parent
                              && t'.info[x].level == t.info[x].level && (x != q ==> t'.pages[x].entries == t.pages[x].entries))
  {
    hide Shape, Inserted, PageOk;
    var a := Attach(t, q, i, sep, 0);
    var m := CutSlot(i, mid);
    SplitShape(rank, t, q, i, sep, mid, r, left, right);
    AttachFrame(rank, t, q, i, sep, 0);
    CutFrame(rank, a, q, r, m, left.dead, right.dead);
    CutKids(rank, a, q, r, m, right.dead);
    KidLevels(rank, a, q);
    OrphanLevel(rank, t, q, i);
  }

  lemma OrphanLevel(rank: Rank, t: Tree, q: PageId, i: nat)
    requires Framed(t) && t.pend.Split? && q in t.pages && !t.pages[q].leaf && PageOk(rank, t, q)
    requires i <= |t.pages[q].entries| && Kid(t.pages[q], i) == t.pend.left
    ensures t.info[t.pend.right].level == t.info[q].level - 1
  {
    assert KidOk(rank, t, q, i);
  }

  lemma AttachedSlot(t: Tree, q: PageId, i: nat, sep: Key, mid: nat, left: Node, right: Node)
    requires ParentHalves(t, q, i, sep, mid, left, right) && i > mid
    ensures i - mid <= |right.entries| && Kid(right, i - mid) == t.pend.right
  {
    InsertedEntries(t.pages[q].entries[mid + 1..], i - mid - 1, KP(sep, t.pend.right));
  }

  lemma KidLevels(rank: Rank, t: Tree, q: PageId)
    requires Framed(t) && q in t.pages && PageOk(rank, t, q) && !t.pages[q].leaf
    ensures forall c :: IsKid(t.pages[q], c) ==> c in t.pages && t.info[c].level == t.info[q].level - 1
  {
    forall c | IsKid(t.pages[q], c) ensures c in t.pages && t.info[c].level == t.info[q].level - 1 {
      var j :| 0 <= j <= |t.pages[q].entries| && Kid(t.pages[q], j) == c;
      assert KidOk(rank, t, q, j);
    }
  }

  // ---------------------------------------------------- one insertion, by pieces

  /** Attaching in place: the parent had room for the separator. */
  lemma AttachBooks(lim: nat, rank: Rank, t: Tree, q: PageId, i: nat, sep: Key, m: map<Key, Value>, n: Node)
    requires Shape(rank, t) && t.pend.Split? && q in t.pages && !t.pages[q].leaf && q != t.pend.right
    requires i <= |t.pages[q].entries| && Kid(t.pages[q], i) == t.pend.left
    requires rank(sep) == t.info[t.pend.left].hi && Cost(KP(sep, t.pend.right)) <= lim + 2
    requires Sized(lim, t.pages) && Stores(t.pages, m)
    requires n == t.pages[q].(entries := Inserted(t.pages[q].entries, i, KP(sep, t.pend.right)), dead := n.dead)
    requires Used(n) <= USABLE
    ensures var c := t.pend.right;
            var pages := t.pages[q := n][c := t.pages[c].(parent := q)];
            && pages == Attach(t, q, i, sep, n.dead).pages
            && Shape(rank, Attach(t, q, i, sep, n.dead)) && Sized(lim, pages) && Stores(pages, m)
            && pages.Keys == t.pages.Keys
  {
    hide Shape, Inserted, Costs, Stores;
    AttachShape(rank, t, q, i, sep, n.dead);
    FramedTree(rank, t);
    var c := t.pend.right;
    var pages := t.pages[q := n][c := t.pages[c].(parent := q)];
    assert pages.Keys == t.pages.Keys;
    assert NodeSized(lim, t.pages[q]);
    InsertedWithin(t.pages[q].entries, i, KP(sep, c), lim + 2);
    forall p | p in pages ensures NodeSized(lim, pages[p]) { assert NodeSized(lim, t.pages[if p == q then q else p]); }
    BindingsFrame(t.pages, pages, m);
  }

  /** Splitting: both halves of the parent have room, and the separator goes into one. */
  lemma SplitBooks(lim: nat, rank: Rank, t: Tree, q: PageId, i: nat, sep: Key, mid: nat, r: PageId,
                   left: Node, right: Node, m: map<Key, Value>)
    requires SplitReady(rank, t, q, i, sep, mid, r, left, right)
    requires Sized(lim, t.pages) && Stores(t.pages, m)
    requires NodeSized(lim, left) && NodeSized(lim, right)
    ensures var pages := SplitTree(rank, t, q, i, sep, mid, r, left.dead, right.dead).pages;
            Sized(lim, pages) && Stores(pages, m)
  {
    hide Shape, Inserted, Costs, Stores, IsKid, InternalCut, NodeSized, ParentHalves, SplitTree;
    SplitPages(rank, t, q, i, sep, mid, r, left, right);
    var before := BeforeReparent(t, q, r, left, right, if i <= mid then q else r);
    var pages := SplitTree(rank, t, q, i, sep, mid, r, left.dead, right.dead).pages;
    forall p | p in pages ensures NodeSized(lim, pages[p]) {
      if p != q && p != r { assert NodeSized(lim, t.pages[p]); }
      SameSized(lim, if p == q then left else if p == r then right else t.pages[p], pages[p]);
    }
    HalvesAreInternal(t, q, i, sep, mid, left, right);
    BindingsFrame(t.pages, pages, m);
  }

  lemma HalvesAreInternal(t: Tree, q: PageId, i: nat, sep: Key, mid: nat, left: Node, right: Node)
    requires ParentHalves(t, q, i, sep, mid, left, right)
    ensures left.leaf == t.pages[q].leaf && !right.leaf
  {
  }

  /** Everything about the split of a parent, in one place. */
  lemma SplitWhole(lim: nat, rank: Rank, t: Tree, q: PageId, i: nat, sep: Key, mid: nat, r: PageId,
                   left: Node, right: Node, m: map<Key, Value>) returns (t': Tree)
    requires SplitReady(rank, t, q, i, sep, mid, r, left, right)
    requires Sized(lim, t.pages) && Stores(t.pages, m) && NodeSized(lim, left) && NodeSized(lim, right)
    ensures Shape(rank, t') && Sized(lim, t'.pages) && Stores(t'.pages, m) && t'.pages.Keys == t.pages.Keys + {r}
    ensures t'.pend == Split(q, r) && t'.root == t.root && q in t'.info && t'.info[q].hi == rank(t.pages[q].entries[mid].key)
    ensures var pages := BeforeReparent(t, q, r, left, right, if i <= mid then q else r);
            && (forall j :: 0 <= j <= |right.entries| ==> Kid(right, j) in t.pages && Kid(right, j) != q && Kid(right, j) != r)
            && t'.pages == Reparented(pages, right, r)
    ensures forall x :: x in t.pages && x in t.info && t.info[x].level >= t.info[q].level ==>
                          x in t'.pages && x in t'.info && t'.pages[x].parent == t.pages[x].parent
                          && t'.info[x].level == t.info[x].level && (x != q ==> t'.pages[x].entries == t.pages[x].entries)
  {
    hide Shape, Sized, Stores, NodeSized, SplitTree, Reparented, ParentHalves;
    t' := SplitTree(rank, t, q, i, sep, mid, r, left.dead, right.dead);
    SplitPages(rank, t, q, i, sep, mid, r, left, right);
    SplitShape(rank, t, q, i, sep, mid, r, left, right);
    SplitPath(rank, t, q, i, sep, mid, r, left, right);
    SplitBooks(lim, rank, t, q, i, sep, mid, r, left, right, m);
  }

  /** The nodes the code computes when it splits a full, compacted parent, and when the half in
      charge takes the separator. */
  lemma SplitVerdict(lim: nat, rank: Rank, t: Tree, q: PageId, i: nat, sep: Key)
    requires t.pend.Split? && q in t.pages && !t.pages[q].leaf && i <= |t.pages[q].entries|
    requires Sorted(rank, t.pages[q].entries) && LowerBound(rank, t.pages[q].entries, sep) == i
    requires i < |t.pages[q].entries| ==> rank(sep) < rank(t.pages[q].entries[i].key)
    requires NodeSized(lim, t.pages[q]) && Cost(KP(sep, t.pend.right)) <= lim + 2
    requires Costs(t.pages[q].entries) + Cost(KP(sep, t.pend.right)) > USABLE
    ensures lim <= LEAF_LIMIT ==> SplitTakes(rank, t.pages[q], sep)
    ensures |t.pages[q].entries| < 2 ==> !SplitTakes(rank, t.pages[q], sep)
    ensures var n := Compacted(t.pages[q]);
            |n.entries| >= 2 ==>
               var mid := PromotePoint(n);
               var left0 := KeepFirst(n, mid);
               var right0 := RightHalf(n, mid, 0);
               var (okl, l) := InsertSep(rank, left0, sep, t.pend.right);
               var (okr, r) := InsertSep(rank, right0, sep, t.pend.right);
               && (rank(sep) < rank(n.entries[mid].key) <==> i <= mid)
               && (i <= mid ==> (okl <==> SplitTakes(rank, t.pages[q], sep)))
               && (i > mid ==> (okr <==> SplitTakes(rank, t.pages[q], sep)))
               && (i <= mid && okl ==> ParentHalves(t, q, i, sep, mid, l, right0) && NodeSized(lim, l) && NodeSized(lim, right0))
               && (i > mid && okr ==> ParentHalves(t, q, i, sep, mid, left0, r) && NodeSized(lim, left0) && NodeSized(lim, r))
  {
    hide Costs, Inserted, Payloads, PlaceAt, PromotePoint, ParentHalves, NodeSized, KeepFirst, RightHalf;
    var n := Compacted(t.pages[q]);
    if lim <= LEAF_LIMIT { SmallSplitTakes(lim, rank, t.pages[q], sep); }
    if |n.entries| >= 2 {
      var mid := PromotePoint(n);
      PlainHalves(lim, rank, t.pages[q], mid);
      assert i <= mid ==> rank(sep) < rank(n.entries[mid].key);
      if i <= mid {
        HalvesLeft(lim, rank, t, q, i, sep, mid);
      } else {
        HalvesRight(lim, rank, t, q, i, sep, mid);
      }
    }
  }

  /** Below the limit the half in charge always takes the separator. */
  lemma SmallSplitTakes(lim: nat, rank: Rank, n: Node, sep: Key)
    requires lim <= LEAF_LIMIT && NodeSized(lim, n) && !n.leaf && Cost(KP(sep, 0)) <= lim + 2
    requires Costs(n.entries) + Cost(KP(sep, 0)) > USABLE
    ensures SplitTakes(rank, n, sep)
  {
    hide Costs, SplitPoint;
    SplitMakesRoom(Compacted(n), lim + 2, Cost(KP(sep, 0)));
  }

  lemma PlainHalves(lim: nat, rank: Rank, n: Node, mid: nat)
    requires NodeSized(lim, n) && !n.leaf && mid < |n.entries| && Sorted(rank, n.entries)
    ensures NodeSized(lim, KeepFirst(Compacted(n), mid)) && NodeSized(lim, RightHalf(Compacted(n), mid, 0))
    ensures Sorted(rank, n.entries[..mid]) && Sorted(rank, n.entries[mid + 1..])
  {
    hide Costs, Payloads;
    KeepFirstFits(Compacted(n), mid);
    CostsSplit(n.entries, mid + 1);
    HalvesWithin(n.entries, mid, lim + 2);
    HalvesWithin(n.entries, mid + 1, lim + 2);
    HalvesSorted(rank, n.entries, mid);
    HalvesSorted(rank, n.entries, mid + 1);
  }

  lemma HalvesLeft(lim: nat, rank: Rank, t: Tree, q: PageId, i: nat, sep: Key, mid: nat)
    requires t.pend.Split? && q in t.pages && !t.pages[q].leaf && i <= mid < |t.pages[q].entries|
    requires Sorted(rank, t.pages[q].entries) && LowerBound(rank, t.pages[q].entries, sep) == i
    requires Cost(KP(sep, t.pend.right)) <= lim + 2 && NodeSized(lim, KeepFirst(Compacted(t.pages[q]), mid))
    requires Sorted(rank, t.pages[q].entries[..mid])
    ensures var n := Compacted(t.pages[q]);
            var (ok, l) := InsertSep(rank, KeepFirst(n, mid), sep, t.pend.right);
            && (ok <==> Costs(t.pages[q].entries[..mid]) + Cost(KP(sep, t.pend.right)) <= USABLE)
            && (ok ==> ParentHalves(t, q, i, sep, mid, l, RightHalf(n, mid, 0)) && NodeSized(lim, l))
  {
    hide Costs, Inserted, PlaceAt, Payloads;
    var left := KeepFirst(Compacted(t.pages[q]), mid);
    LowerBoundIs(rank, left.entries, sep, i);
    SepInsert(lim, rank, left, i, KP(sep, t.pend.right));
  }

  lemma HalvesRight(lim: nat, rank: Rank, t: Tree, q: PageId, i: nat, sep: Key, mid: nat)
    requires t.pend.Split? && q in t.pages && !t.pages[q].leaf && mid < i <= |t.pages[q].entries|
    requires Sorted(rank, t.pages[q].entries) && LowerBound(rank, t.pages[q].entries, sep) == i
    requires Cost(KP(sep, t.pend.right)) <= lim + 2 && NodeSized(lim, RightHalf(Compacted(t.pages[q]), mid, 0))
    requires Sorted(rank, t.pages[q].entries[mid + 1..])
    ensures var n := Compacted(t.pages[q]);
            var (ok, r) := InsertSep(rank, RightHalf(n, mid, 0), sep, t.pend.right);
            && (ok <==> Costs(t.pages[q].entries[mid + 1..]) + Cost(KP(sep, t.pend.right)) <= USABLE)
            && (ok ==> ParentHalves(t, q, i, sep, mid, KeepFirst(n, mid), r) && NodeSized(lim, r))
  {
    hide Costs, Inserted, PlaceAt, Payloads;
    var right := RightHalf(Compacted(t.pages[q]), mid, 0);
    LowerBoundIs(rank, right.entries, sep, i - mid - 1);
    SepInsert(lim, rank, right, i - mid - 1, KP(sep, t.pend.right));
  }

  lemma SepInsert(lim: nat, rank: Rank, n: Node, i: nat, e: Entry)
    requires !n.leaf && NodeSized(lim, n) && Cost(e) <= lim + 2 && i <= |n.entries|
    ensures var (ok, n') := PlaceAt(n, i, e);
            && (ok <==> Costs(n.entries) + Cost(e) <= USABLE)
            && (ok ==> n' == n.(entries := Inserted(n.entries, i, e), dead := n'.dead) && NodeSized(lim, n'))
  {
    hide Costs, Inserted;
    PlaceRoom(n, i, e);
    InsertedWithin(n.entries, i, e, lim + 2);
  }

  /** An insert that the leaf had room for. */
  lemma LeafInsert(lim: nat, rank: Rank, t: Tree, p: PageId, k: Key, v: Value, m: map<Key, Value>)
    requires Ordered(rank) && Shape(rank, t) && t.pend == Whole && p in t.pages && t.pages[p].leaf
    requires Covers(rank, t.info[p], k) && Sized(lim, t.pages) && Stores(t.pages, m)
    requires Cost(KV(k, v)) <= lim
    requires forall e :: e in t.pages[p].entries ==> e.KV?
    requires InsertCell(rank, t.pages[p], k, v).0
    ensures var pages := t.pages[p := InsertCell(rank, t.pages[p], k, v).1];
            Shape(rank, t.(pages := pages)) && Sized(lim, pages) && Stores(pages, m[k := v]) && pages[p].leaf
  {
    hide Ordered, Shape, InsertCell, Costs, Stores;
    var n := t.pages[p];
    var n' := InsertCell(rank, n, k, v).1;
    FramedTree(rank, t);
    LeafEntries(rank, t, p);
    assert NodeSized(lim, n);
    InsertCellContent(rank, n, k, v);
    InsertCellRoom(rank, n, k, v);
    LeafNodeOk(rank, n', n'.entries, t.info[p].lo, t.info[p].hi);
    LeafEdit(rank, t, p, n'.entries, n'.dead);
    SubWithin(n.entries, n'.entries, lim);
    StoresOverwrite(rank, t, p, k, v, m, t.pages[p := n'], n'.entries);
  }

  /** What the code computes when the leaf is full. */
  ghost predicate LeafHalves(lim: nat, rank: Rank, t: Tree, p: PageId, k: Key, v: Value, sep: Key, left: Node, right: Node,
                            kept: bool) {
    && p in t.pages && p in t.info
    && left == t.pages[p].(entries := left.entries, dead := left.dead)
    && right == t.pages[p].(entries := right.entries, dead := right.dead)
    && t.info[p].lo < rank(sep) < t.info[p].hi && |sep| + 8 <= lim + 2
    && NodeOk(rank, left, Info(0, t.info[p].lo, rank(sep))) && NodeOk(rank, right, Info(0, rank(sep), t.info[p].hi))
    && NodeSized(lim, left) && NodeSized(lim, right)
    && (if kept then Overwrites(t.pages[p].entries, left.entries + right.entries, k, v)
        else Drops(t.pages[p].entries, left.entries + right.entries, k))
  }

  lemma ComputedLeafHalves(lim: nat, rank: Rank, t: Tree, p: PageId, k: Key, v: Value, n: Node)
    requires Ordered(rank) && Shape(rank, t) && p in t.pages && t.pages[p].leaf && NodeSized(lim, t.pages[p])
    requires Covers(rank, t.info[p], k) && Cost(KV(k, v)) <= lim
    requires n == t.pages[p].(entries := n.entries, dead := 0) && Sorted(rank, n.entries)
    requires Drops(t.pages[p].entries, n.entries, k) && |n.entries| >= 2 && Costs(n.entries) <= USABLE
    ensures forall e :: e in n.entries ==> e.KV?
    ensures var s := SplitPoint(n);
            && s < |n.entries|
            && var sep := n.entries[s].key;
               var left0, right0 := KeepFirst(n, s), n.(entries := n.entries[s..]);
               var kept := HalfTakes(rank, n, k, v);
               && (forall e :: e in left0.entries ==> e.KV?) && (forall e :: e in right0.entries ==> e.KV?)
               && if rank(k) < rank(sep)
                  then LeafHalves(lim, rank, t, p, k, v, sep, InsertCell(rank, left0, k, v).1, right0, kept)
                  else LeafHalves(lim, rank, t, p, k, v, sep, left0, InsertCell(rank, right0, k, v).1, kept)
  {
    hide Ordered, Shape, InsertCell, Costs, Payloads, SplitPoint, Overwrites;
    FramedTree(rank, t);
    LeafEntries(rank, t, p);
    SubWithin(t.pages[p].entries, n.entries, lim);
    SplitIsInside(n);
    var s := SplitPoint(n);
    var sep := n.entries[s].key;
    var left0, right0 := KeepFirst(n, s), n.(entries := n.entries[s..]);
    LeafCutSides(rank, n, s, t.info[p].lo, t.info[p].hi);
    HalvesWithin(n.entries, s, lim);
    KeepFirstFits(n, s);
    CostsSplit(n.entries, s);
    assert Cost(n.entries[s]) <= lim;
    assert n.entries[s] in n.entries;
    assert NodeSized(lim, left0) && NodeSized(lim, right0);
    assert n.entries == left0.entries + right0.entries;
    if rank(k) < rank(sep) {
      HalfInsert(lim, rank, left0, k, v, t.info[p].lo, rank(sep));
      HalvesContent(t.pages[p].entries, left0.entries, right0.entries, InsertCell(rank, left0, k, v).1.entries, true, k, v);
    } else {
      HalfInsert(lim, rank, right0, k, v, rank(sep), t.info[p].hi);
      HalvesContent(t.pages[p].entries, left0.entries, right0.entries, InsertCell(rank, right0, k, v).1.entries, false, k, v);
    }
  }

  /** One half tried the new cell; together they hold what the page held, with it or without the key. */
  lemma HalvesContent(es: seq<Entry>, a: seq<Entry>, b: seq<Entry>, tried: seq<Entry>, first: bool, k: Key, v: Value)
    requires Drops(es, a + b, k)
    ensures Overwrites(if first then a else b, tried, k, v) ==>
              Overwrites(es, if first then tried + b else a + tried, k, v)
    ensures Drops(if first then a else b, tried, k) ==> Drops(es, if first then tried + b else a + tried, k)
  {
    assert forall e :: e in a + b <==> e in a || e in b;
  }

  /** Below the limit a full leaf has cells enough to split, and the half in charge takes the new one. */
  lemma SplitLeafRoom(lim: nat, rank: Rank, n: Node, k: Key, v: Value)
    requires n.dead == 0 && AllWithin(n.entries, lim) && Cost(KV(k, v)) <= lim
    requires Costs(n.entries) <= USABLE && Costs(n.entries) + Cost(KV(k, v)) > USABLE
    ensures |n.entries| >= 2 ==> SplitPoint(n) < |n.entries|
    ensures lim <= LEAF_LIMIT ==> |n.entries| >= 2 && HalfTakes(rank, n, k, v)
  {
    hide Costs, SplitPoint;
    if |n.entries| >= 2 { SplitIsInside(n); }
    if lim <= LEAF_LIMIT { SplitMakesRoom(n, lim, Cost(KV(k, v))); }
  }

  lemma LeafCutSides(rank: Rank, n: Node, s: nat, lo: real, hi: real)
    requires n.leaf && Sorted(rank, n.entries) && 0 < s < |n.entries|
    requires forall e :: e in n.entries ==> e.KV? && lo <= rank(e.key) < hi
    ensures var sep := n.entries[s].key;
            && lo < rank(sep) < hi
            && NodeOk(rank, n.(entries := n.entries[..s]), Info(0, lo, rank(sep)))
            && NodeOk(rank, n.(entries := n.entries[s..]), Info(0, rank(sep), hi))
  {
    assert n.entries[0] in n.entries && n.entries[s] in n.entries;
    assert rank(n.entries[0].key) < rank(n.entries[s].key);
    forall i | 0 <= i < |n.entries| ensures n.entries[i].KV? && lo <= rank(n.entries[i].key) < hi {
      assert n.entries[i] in n.entries;
    }
  }

  /** Trying a key the page does not hold in the half that is responsible for it. */
  lemma HalfInsert(lim: nat, rank: Rank, n: Node, k: Key, v: Value, lo: real, hi: real)
    requires Ordered(rank) && n.leaf && NodeOk(rank, n, Info(0, lo, hi)) && lo <= rank(k) < hi
    requires NodeSized(lim, n) && Cost(KV(k, v)) <= lim && forall e :: e in n.entries ==> e.key != k
    ensures forall e :: e in n.entries ==> e.KV?
    ensures var (ok, n') := InsertCell(rank, n, k, v);
            && (ok <==> Costs(n.entries) + Cost(KV(k, v)) <= USABLE)
            && n' == n.(entries := n'.entries, dead := n'.dead)
            && (if ok then Overwrites(n.entries, n'.entries, k, v) else Drops(n.entries, n'.entries, k))
            && NodeOk(rank, n', Info(0, lo, hi)) && NodeSized(lim, n')
  {
    hide Ordered, InsertCell, Costs;
    InsertCellContent(rank, n, k, v);
    InsertCellRoom(rank, n, k, v);
    PresentIffHas(rank, n.entries, k);
    var n' := InsertCell(rank, n, k, v).1;
    LeafNodeOk(rank, n', n'.entries, lo, hi);
    SubWithin(n.entries, n'.entries, lim);
  }

  lemma NewRootNode(lim: nat, rank: Rank, left: PageId, sep: Key, right: PageId)
    requires Cost(KP(sep, right)) <= lim + 2
    ensures var n := EmptyInternal(NO_PAGE).(first := left, entries := [KP(sep, right)]);
            var (ok, n') := InsertSep(rank, EmptyInternal(NO_PAGE).(first := left), sep, right);
            && (ok <==> Cost(KP(sep, right)) <= USABLE)
            && (ok ==> n' == n && NodeSized(lim, n))
  {
    var none: seq<Entry> := [];
    assert Inserted(none, 0, KP(sep, right)) == [KP(sep, right)];
    CostsOne(KP(sep, right));
  }

  lemma GrownBooks(lim: nat, rank: Rank, t: Tree, r: PageId, sep: Key, m: map<Key, Value>)
    requires Framed(t) && t.pend.Split? && Sized(lim, t.pages) && Stores(t.pages, m)
    requires r !in t.pages && Cost(KP(sep, t.pend.right)) <= lim + 2 && Cost(KP(sep, t.pend.right)) <= USABLE
    ensures Sized(lim, Grown(t, r, sep).pages) && Stores(Grown(t, r, sep).pages, m)
    ensures Grown(t, r, sep).pages.Keys == t.pages.Keys + {r}
  {
    hide Costs;
    NewRootNode(lim, rank, t.pend.left, sep, t.pend.right);
    BindingsFrame(t.pages, Grown(t, r, sep).pages, m);
  }

  lemma EmptyTree(lim: nat, rank: Rank, t: Tree)
    requires t == Tree(map[1 := EmptyLeaf(NO_PAGE)], map[1 := Info(0, 0.0, 1.0)], 1, Whole)
    ensures Shape(rank, t) && Sized(lim, t.pages) && Stores(t.pages, map[]) && AllocOk(t.pages.Keys, [], 2)
  {
    assert PageOk(rank, t, 1);
  }


  lemma FoundIff(rank: Rank, t: Tree, p: PageId, k: Key, m: map<Key, Value>)
    requires Shape(rank, t) && t.pend == Whole && p in t.pages && t.pages[p].leaf && Covers(rank, t.info[p], k)
    requires Stores(t.pages, m)
    ensures var i := LowerBound(rank, t.pages[p].entries, k);
            i < |t.pages[p].entries| && t.pages[p].entries[i].key == k <==> k in m
  {
    hide Shape, Covers;
    SortedPage(rank, t, p);
    PresentIffHas(rank, t.pages[p].entries, k);
    if HasKey(t.pages[p].entries, k) {
      var i :| 0 <= i < |t.pages[p].entries| && t.pages[p].entries[i].key == k;
      assert HasBinding(t.pages, t.pages[p].entries[i]);
    }
    if k in m {
      assert HasBinding(t.pages, KV(k, m[k]));
      OnlyHere(rank, t, p, k, KV(k, m[k]));
    }
  }


}
