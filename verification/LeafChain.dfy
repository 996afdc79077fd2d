/** The leaf chain as a whole: following right links from the leftmost leaf is walking the tree
    in order. */
module LeafChain {
  import opened Base
  import opened Nodes
  import opened Trees
  import opened TreeEdits
  import opened TreeBooks
  import opened RepairFaults

  /** The leaves below page `p`, left to right, going down at most `depth` levels. */
  function InOrder(pages: map<PageId, Node>, p: PageId, depth: nat): seq<PageId>
    decreases depth, 1, 0
  {
    if p !in pages then []
    else if pages[p].leaf then [p]
    else if depth == 0 then []
    else Under(pages, pages[p], |pages[p].entries| + 1, depth)
  }

  /** The leaves below the first `k` children of `n`. */
  function Under(pages: map<PageId, Node>, n: Node, k: nat, depth: nat): seq<PageId>
    requires k <= |n.entries| + 1 && depth > 0
    decreases depth, 0, k
  {
    if k == 0 then [] else Under(pages, n, k - 1, depth) + InOrder(pages, Kid(n, k - 1), depth - 1)
  }

  /** Leaf `r` follows leaf `l`: their ranges touch and they are linked to each other. */
  ghost predicate Follows(t: Tree, l: PageId, r: PageId) {
    && l in t.pages && r in t.pages && l in t.info && r in t.info
    && t.info[l].hi == t.info[r].lo && t.pages[l].right == r && t.pages[r].left == l
  }

  /** A run of linked leaves that covers `[lo, hi)`. */
  ghost predicate Covering(t: Tree, run: seq<PageId>, lo: real, hi: real) {
    && run != []
    && (forall i :: 0 <= i < |run| ==> run[i] in t.pages && run[i] in t.info && t.pages[run[i]].leaf)
    && t.info[run[0]].lo == lo && t.info[run[|run| - 1]].hi == hi
    && (forall i :: 0 <= i < |run| - 1 ==> Follows(t, run[i], run[i + 1]))
  }

  lemma Joined(t: Tree, a: seq<PageId>, b: seq<PageId>, lo: real, mid: real, hi: real)
    requires Covering(t, a, lo, mid) && Covering(t, b, mid, hi) && Follows(t, a[|a| - 1], b[0])
    ensures Covering(t, a + b, lo, hi)
  {
    hide Follows;
    var run := a + b;
    forall i | 0 <= i < |run| - 1 ensures Follows(t, run[i], run[i + 1]) {
      if i < |a| - 1 {
        assert Follows(t, a[i], a[i + 1]);
      } else if i >= |a| {
        assert Follows(t, b[i - |a|], b[i - |a| + 1]);
      }
    }
  }

  /** Leaves whose ranges touch at a point below 1 are linked. */
  lemma Linked(rank: Rank, t: Tree, l: PageId, r: PageId)
    requires Shape(rank, t) && t.pend == Whole && l in t.pages && r in t.pages && t.pages[l].leaf && t.pages[r].leaf
    requires t.info[l].hi == t.info[r].lo && t.info[l].hi != 1.0
    ensures Follows(t, l, r)
  {
    hide KidsOk, AttachedOk, Sorted;
    assert PageOk(rank, t, l) && PageOk(rank, t, r);
    var n := t.pages[l].right;
    assert PageOk(rank, t, n);
    UniqueAt(rank, t, n, r, t.info[r].lo);
  }

  /** The leaves below any page are linked and cover its range. */
  lemma {:induction false} InOrderCovers(rank: Rank, t: Tree, p: PageId, depth: nat)
    requires Ordered(rank) && Shape(rank, t) && t.pend == Whole && p in t.pages && p in t.info && t.info[p].level <= depth
    ensures Covering(t, InOrder(t.pages, p, depth), t.info[p].lo, t.info[p].hi)
    decreases depth, 1, 0
  {
    hide Shape, Covering, Ordered;
    FramedTree(rank, t);
    if t.pages[p].leaf {
      SingleLeaf(t, p);
    } else {
      KidIn(rank, t, p, 0);
      InternalDepth(rank, t, p);
      UnderCovers(rank, t, p, |t.pages[p].entries| + 1, depth);
    }
  }

  lemma SingleLeaf(t: Tree, p: PageId)
    requires p in t.pages && p in t.info && t.pages[p].leaf
    ensures Covering(t, [p], t.info[p].lo, t.info[p].hi)
  {
  }

  lemma InternalDepth(rank: Rank, t: Tree, p: PageId)
    requires Shape(rank, t) && p in t.pages && !t.pages[p].leaf
    ensures p in t.info && t.info[p].level > 0
  {
    assert PageOk(rank, t, p);
  }

  lemma {:induction false} UnderCovers(rank: Rank, t: Tree, p: PageId, k: nat, depth: nat)
    requires Ordered(rank) && Shape(rank, t) && t.pend == Whole && p in t.pages && p in t.info && !t.pages[p].leaf
    requires 0 < t.info[p].level <= depth && 0 < k <= |t.pages[p].entries| + 1
    ensures Covering(t, Under(t.pages, t.pages[p], k, depth), t.info[p].lo, KidRange(rank, t.pages[p], t.info[p], k - 1).hi)
    decreases depth, 0, k
  {
    hide Shape, Covering, Ordered, PageOk, Follows;
    var n := t.pages[p];
    var c := Kid(n, k - 1);
    KidIn(rank, t, p, k - 1);
    InOrderCovers(rank, t, c, depth - 1);
    var tail := InOrder(t.pages, c, depth - 1);
    if k == 1 {
      assert Under(t.pages, n, 0, depth) + tail == tail;
    } else {
      UnderCovers(rank, t, p, k - 1, depth);
      var head := Under(t.pages, n, k - 1, depth);
      var mid := rank(n.entries[k - 2].key);
      RankBounds(rank, n.entries[k - 2].key);
      Ends(t, head, t.info[p].lo, mid);
      Ends(t, tail, mid, t.info[c].hi);
      Linked(rank, t, head[|head| - 1], tail[0]);
      Joined(t, head, tail, t.info[p].lo, mid, t.info[c].hi);
    }
  }

  lemma Ends(t: Tree, run: seq<PageId>, lo: real, hi: real)
    requires Covering(t, run, lo, hi)
    ensures run != [] && run[0] in t.pages && run[0] in t.info && t.pages[run[0]].leaf && t.info[run[0]].lo == lo
    ensures var z := run[|run| - 1]; z in t.pages && z in t.info && t.pages[z].leaf && t.info[z].hi == hi
  {
  }

  /** Some leaf of a run covers each point of its range. */
  lemma {:induction false} PointCovered(rank: Rank, t: Tree, run: seq<PageId>, lo: real, hi: real, v: real) returns (i: nat)
    requires Covering(t, run, lo, hi) && lo <= v < hi
    ensures i < |run| && run[i] in t.info && At(t.info[run[i]], v)
    decreases |run|
  {
    var z := |run| - 1;
    if t.info[run[z]].lo <= v {
      i := z;
    } else {
      assert z > 0;
      assert Follows(t, run[z - 1], run[z]);
      var init := run[..z];
      forall j | 0 <= j < |init| - 1 ensures Follows(t, init[j], init[j + 1]) { assert Follows(t, run[j], run[j + 1]); }
      i := PointCovered(rank, t, init, lo, t.info[run[z]].lo, v);
    }
  }

  /** The chain is the in-order traversal: it starts and ends where links are missing, each leaf's
      right link is the next leaf and back, and it lists every leaf of the tree. */
  lemma ChainIsInOrder(rank: Rank, t: Tree)
    requires Ordered(rank) && Shape(rank, t) && t.pend == Whole
    ensures t.root in t.info
    ensures var run := InOrder(t.pages, t.root, t.info[t.root].level);
            && run != [] && (forall i :: 0 <= i < |run| ==> run[i] in t.pages && t.pages[run[i]].leaf)
            && t.pages[run[0]].left == NO_PAGE && t.pages[run[|run| - 1]].right == NO_PAGE
            && (forall i :: 0 <= i < |run| - 1 ==> t.pages[run[i]].right == run[i + 1] && t.pages[run[i + 1]].left == run[i])
            && (forall p :: p in t.pages && t.pages[p].leaf ==> p in run)
  {
    hide Shape, Ordered, PageOk, Covering;
    FramedTree(rank, t);
    var run := InOrder(t.pages, t.root, t.info[t.root].level);
    InOrderCovers(rank, t, t.root, t.info[t.root].level);
    RunFacts(rank, t, run);
    forall p | p in t.pages && t.pages[p].leaf ensures p in run { EveryLeaf(rank, t, run, p); }
  }

  lemma RunFacts(rank: Rank, t: Tree, run: seq<PageId>)
    requires Shape(rank, t) && t.pend == Whole && Covering(t, run, 0.0, 1.0)
    ensures run != [] && (forall i :: 0 <= i < |run| ==> run[i] in t.pages && t.pages[run[i]].leaf)
    ensures t.pages[run[0]].left == NO_PAGE && t.pages[run[|run| - 1]].right == NO_PAGE
    ensures forall i :: 0 <= i < |run| - 1 ==> t.pages[run[i]].right == run[i + 1] && t.pages[run[i + 1]].left == run[i]
  {
    hide KidsOk, AttachedOk, Sorted;
    var a, z := run[0], run[|run| - 1];
    assert PageOk(rank, t, a) && PageOk(rank, t, z);
    assert forall i :: 0 <= i < |run| - 1 ==> Follows(t, run[i], run[i + 1]);
    var l, r := t.pages[a].left, t.pages[z].right;
    if l != NO_PAGE { assert PageOk(rank, t, l); LeafRange(rank, t, l); }
    if r != NO_PAGE { assert PageOk(rank, t, r); LeafRange(rank, t, r); }
  }

  /** No page reaches outside the key line. */
  lemma {:induction false} LeafRange(rank: Rank, t: Tree, p: PageId)
    requires Shape(rank, t) && t.pend == Whole && p in t.pages
    ensures p in t.info && 0.0 <= t.info[p].lo < t.info[p].hi <= 1.0
    decreases t.info[t.root].level - t.info[p].level
  {
    assert PageOk(rank, t, p);
    if p != t.root {
      var i := ParentAt(rank, t, p, t.info[p].lo);
      assert PageOk(rank, t, t.pages[p].parent);
      LeafRange(rank, t, t.pages[p].parent);
    }
  }

  lemma EveryLeaf(rank: Rank, t: Tree, run: seq<PageId>, p: PageId)
    requires Shape(rank, t) && t.pend == Whole && Covering(t, run, 0.0, 1.0) && p in t.pages && t.pages[p].leaf
    ensures p in run
  {
    hide KidsOk, AttachedOk, Sorted, Covering;
    LeafRange(rank, t, p);
    var i := PointCovered(rank, t, run, 0.0, 1.0, t.info[p].lo);
    CoveringLeaf(t, run, 0.0, 1.0, i);
    assert PageOk(rank, t, p) && PageOk(rank, t, run[i]);
    UniqueAt(rank, t, p, run[i], t.info[p].lo);
  }

  lemma CoveringLeaf(t: Tree, run: seq<PageId>, lo: real, hi: real, i: nat)
    requires Covering(t, run, lo, hi) && i < |run|
    ensures run[i] in t.pages && t.pages[run[i]].leaf
  {
  }
}
