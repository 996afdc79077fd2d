/** A removal that loses another key: three leaves under a root, all nearly empty. */
module RepairExample {
  import opened Base
  import opened Nodes
  import opened Order
  import opened Trees
  import opened TreeEdits
  import opened TreeBooks
  import opened Rebalancing
  import opened Diagnoses
  import opened RepairFaults

  // ------------------------------------------------------------ searching pages

  /** The child a search for `k` descends into. */
  function Upper(rank: Rank, es: seq<Entry>, k: Key): (i: nat)
    ensures i <= |es|
  {
    var i := LowerBound(rank, es, k);
    if i < |es| && es[i].key == k then i + 1 else i
  }

  /** What a search for `k` from page `p` answers, going down at most `depth` levels. */
  function Answer(rank: Rank, pages: map<PageId, Node>, p: PageId, k: Key, depth: nat): Option<Value>
    decreases depth
  {
    if p !in pages then None
    else
      var n := pages[p];
      var i := LowerBound(rank, n.entries, k);
      if n.leaf then
        if i < |n.entries| && n.entries[i].key == k && n.entries[i].KV? then Some(n.entries[i].val) else None
      else if depth == 0 then None
      else Answer(rank, pages, Kid(n, Upper(rank, n.entries, k)), k, depth - 1)
  }

  /** In a proper tree the search answers like the map the tree stores. */
  lemma {:induction false} SearchAnswers(rank: Rank, t: Tree, p: PageId, k: Key, depth: nat, m: map<Key, Value>)
    requires Ordered(rank) && Shape(rank, t) && t.pend == Whole && Stores(t.pages, m)
    requires p in t.pages && p in t.info && Covers(rank, t.info[p], k) && depth >= t.info[p].level
    ensures Answer(rank, t.pages, p, k, depth) == Lookup(m, k)
    decreases depth
  {
    hide Shape, Ordered, PageOk;
    SortedPage(rank, t, p);
    FramedTree(rank, t);
    var n := t.pages[p];
    var i := LowerBound(rank, n.entries, k);
    if n.leaf {
      LeafAnswers(rank, t, p, k, m);
    } else {
      var u := Upper(rank, n.entries, k);
      if i < |n.entries| && n.entries[i].key != k && rank(n.entries[i].key) == rank(k) { SameRank(rank, n.entries[i].key, k); }
      InternalAbove(rank, t, p);
      DescentIndex(rank, t, p, k, u);
      SearchAnswers(rank, t, Kid(n, u), k, depth - 1, m);
    }
  }

  lemma InternalAbove(rank: Rank, t: Tree, p: PageId)
    requires Shape(rank, t) && p in t.pages && !t.pages[p].leaf
    ensures p in t.info && t.info[p].level > 0
  {
    assert PageOk(rank, t, p);
  }

  lemma LeafAnswers(rank: Rank, t: Tree, p: PageId, k: Key, m: map<Key, Value>)
    requires Ordered(rank) && Shape(rank, t) && t.pend == Whole && Stores(t.pages, m)
    requires p in t.pages && t.pages[p].leaf && p in t.info && Covers(rank, t.info[p], k)
    ensures var es := t.pages[p].entries;
            var i := LowerBound(rank, es, k);
            (if i < |es| && es[i].key == k && es[i].KV? then Some(es[i].val) else None) == Lookup(m, k)
  {
    hide Shape, Ordered;
    SortedPage(rank, t, p);
    var es := t.pages[p].entries;
    PresentIffHas(rank, es, k);
    var i := LowerBound(rank, es, k);
    if i < |es| && es[i].key == k {
      assert HasBinding(t.pages, es[i]);
    } else if k in m {
      assert HasBinding(t.pages, KV(k, m[k]));
      OnlyHere(rank, t, p, k, KV(k, m[k]));
    }
  }

  // ----------------------------------------------------------------- the example

  const ONE: Value := [1]

  function Cells(a: Key, b: Key): seq<Entry> { [KV(a, ONE), KV(b, ONE)] }

  /** Leaves 1, 2 and 3 under root 4, with separators [3] and [5]. */
  function SmallPages(): map<PageId, Node> {
    map[1 := Node(true, 4, NO_PAGE, 2, NO_PAGE, Cells([1], [2]), 0),
        2 := Node(true, 4, 1, 3, NO_PAGE, Cells([3], [4]), 0),
        3 := Node(true, 4, 2, NO_PAGE, NO_PAGE, Cells([5], [6]), 0),
        4 := Node(false, NO_PAGE, NO_PAGE, NO_PAGE, 1, [KP([3], 2), KP([5], 3)], 0)]
  }

  function SmallInfo(rank: Rank): map<PageId, Info> {
    map[1 := Info(0, 0.0, rank([3])), 2 := Info(0, rank([3]), rank([5])), 3 := Info(0, rank([5]), 1.0), 4 := Info(1, 0.0, 1.0)]
  }

  function SmallTree(rank: Rank): Tree { Tree(SmallPages(), SmallInfo(rank), 4, Whole) }

  const SMALL_CONTENTS: map<Key, Value> := map[[1] := ONE, [2] := ONE, [3] := ONE, [4] := ONE, [5] := ONE, [6] := ONE]

  ghost predicate KeysInOrder(rank: Rank) {
    Ordered(rank) && 0.0 < rank([1]) < rank([2]) < rank([3]) < rank([4]) < rank([5]) < rank([6])
  }

  lemma BytesInOrder()
    ensures KeysInOrder(ByteRank)
  {
    hide ByteRank;
    BytesAreOrdered();
    RankKeepsOrder([1], [2]);
    RankKeepsOrder([2], [3]);
    RankKeepsOrder([3], [4]);
    RankKeepsOrder([4], [5]);
    RankKeepsOrder([5], [6]);
  }

  lemma SmallShape(rank: Rank)
    requires KeysInOrder(rank)
    ensures Shape(rank, SmallTree(rank))
  {
    hide Ordered, PageOk;
    var t := SmallTree(rank);
    RankBounds(rank, [6]);
    assert Framed(t);
    assert t.pages.Keys == {1, 2, 3, 4};
    SmallLeaf(rank, 1);
    SmallLeaf(rank, 2);
    SmallLeaf(rank, 3);
    SmallRoot(rank);
  }

  lemma SmallLeaf(rank: Rank, p: PageId)
    requires KeysInOrder(rank) && 1 <= p <= 3
    ensures Framed(SmallTree(rank)) && PageOk(rank, SmallTree(rank), p)
  {
    hide Ordered, KidOk;
    var t := SmallTree(rank);
    RankBounds(rank, [6]);
    assert Kid(t.pages[4], p - 1) == p;
    assert AttachedOk(t, p);
    assert ChainOk(t, p);
    assert NodeOk(rank, t.pages[p], t.info[p]);
  }

  lemma SmallRoot(rank: Rank)
    requires KeysInOrder(rank)
    ensures Framed(SmallTree(rank)) && PageOk(rank, SmallTree(rank), 4)
  {
    hide Ordered;
    var t := SmallTree(rank);
    RankBounds(rank, [6]);
    assert Kid(t.pages[4], 0) == 1 && Kid(t.pages[4], 1) == 2 && Kid(t.pages[4], 2) == 3;
    assert KidOk(rank, t, 4, 0) && KidOk(rank, t, 4, 1) && KidOk(rank, t, 4, 2);
    assert NodeOk(rank, t.pages[4], t.info[4]);
  }

  lemma SmallSizes()
    ensures Sized(LEAF_LIMIT, SmallPages()) && AllocOk(SmallPages().Keys, [], 5)
    ensures forall p :: 1 <= p <= 3 ==> Underflow(SmallPages()[p])
  {
    var pages := SmallPages();
    forall p | p in pages ensures NodeSized(LEAF_LIMIT, pages[p]) && Used(pages[p]) < 30 {
      var es := pages[p].entries;
      CostsPrefix(es, 0);
      CostsPrefix(es, 1);
      assert es[..2] == es;
    }
    assert pages.Keys == {1, 2, 3, 4};
  }

  lemma SmallStores()
    ensures Stores(SmallPages(), SMALL_CONTENTS)
  {
    var pages := SmallPages();
    forall e ensures HasBinding(pages, e) <==> e.KV? && Lookup(SMALL_CONTENTS, e.key) == Some(e.val) {
      if e.KV? && Lookup(SMALL_CONTENTS, e.key) == Some(e.val) {
        var p := if e.key == [1] || e.key == [2] then 1 else if e.key == [3] || e.key == [4] then 2 else 3;
        assert p in pages && e in Cells([1], [2]) + Cells([3], [4]) + Cells([5], [6]);
        assert e in pages[p].entries;
      }
    }
  }

  /** Page 2 without [3], as the removal leaves it. */
  function Shrunk(): map<PageId, Node> { SmallPages()[2 := RemoveAt(SmallPages()[2], 0)] }

  lemma SmallTreeIsValid(rank: Rank)
    requires KeysInOrder(rank)
    ensures Shape(rank, SmallTree(rank)) && Sized(LEAF_LIMIT, SmallPages()) && Stores(SmallPages(), SMALL_CONTENTS)
    ensures AllocOk(SmallPages().Keys, [], 5)
  {
    hide Ordered, Shape, Costs, Sized, Stores, AllocOk;
    SmallShape(rank);
    SmallSizes();
    SmallStores();
  }

  /** In that valid tree, removing [3] merges a middle child to the right: the diagnosis says so,
      and whatever the joined page holds, a search for [4] finds nothing afterwards. */
  lemma RemovalLosesAnotherKey(rank: Rank, joined: Node)
    requires KeysInOrder(rank) && joined.leaf && PathThere(SmallPages(), [4])
    ensures Diagnosis(rank, SmallInfo(rank), SmallPages(), 4, 0, [4], 2, RemoveAt(SmallPages()[2], 0)) == Some(MisplacedSeparator)
    ensures Answer(rank, SmallPages(), 4, [4], 1) == Some(ONE)
    ensures Answer(rank, AbsorbedPages(Shrunk(), 4, TurnSlot(1), 2, 3, joined), 4, [4], 1) == None
  {
    hide Ordered, Shape, Costs, Sized, Stores, AllocOk, Diagnosis, AbsorbedPages;
    SmallTreeIsValid(rank);
    SmallDiagnosis(rank);
    RankBounds(rank, [4]);
    SearchAnswers(rank, SmallTree(rank), 4, [4], 1, SMALL_CONTENTS);
    SmallDamage(rank, joined);
  }

  /** The path to the leaf in charge of [3]. */
  lemma SmallPath(rank: Rank)
    ensures PathThere(SmallPages(), [4]) && PathTo(SmallTree(rank), [4], 2)
  {
    var pages := SmallPages();
    assert Kid(pages[4], 0) == 1 && Kid(pages[4], 1) == 2 && Kid(pages[4], 2) == 3;
    assert [4][..0] == [];
  }

  lemma SmallDiagnosis(rank: Rank)
    requires PathThere(SmallPages(), [4])
    ensures Diagnosis(rank, SmallInfo(rank), SmallPages(), 4, 0, [4], 2, RemoveAt(SmallPages()[2], 0)) == Some(MisplacedSeparator)
  {
    hide Costs;
    SmallSizes();
    var parent := SmallPages()[4];
    assert Kid(parent, 0) == 1 && Kid(parent, 1) == 2 && Kid(parent, 2) == 3;
    assert ChildIndex(parent, 2) == 1;
  }

  lemma SmallDamage(rank: Rank, joined: Node)
    requires KeysInOrder(rank) && joined.leaf
    ensures Answer(rank, AbsorbedPages(Shrunk(), 4, TurnSlot(1), 2, 3, joined), 4, [4], 1) == None
  {
    hide Ordered;
    var pages := AbsorbedPages(Shrunk(), 4, 0, 2, 3, joined);
    var root := pages[4];
    assert root.entries == [KP([5], 3)] && root.first == 1;
    LowerBoundIs(rank, root.entries, [4], 0);
    assert Kid(root, Upper(rank, root.entries, [4])) == 1;
    var es := pages[1].entries;
    assert es == Cells([1], [2]);
    LowerBoundIs(rank, es, [4], 2);
    assert Answer(rank, pages, 1, [4], 0) == None;
  }
}
