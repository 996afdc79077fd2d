/** Edits that shrink the tree and the shape each of them keeps: moving the boundary between
    two neighbouring leaves, joining two neighbours, and dropping a root with one child. */
module TreeRepairs {
  import opened Base
  import opened Nodes
  import opened Trees
  import opened TreeEdits

  // ------------------------------------------------------- moving a boundary

  /** Children `s` and `s + 1` of `q` share their cells out anew; the boundary becomes `b`. */
  function Rebound(rank: Rank, t: Tree, q: PageId, s: nat, b: Key, dq: nat,
                   el: seq<Entry>, dl: nat, er: seq<Entry>, dr: nat): Tree
    requires q in t.pages && s < |t.pages[q].entries|
    requires Kid(t.pages[q], s) in t.pages && Kid(t.pages[q], s + 1) in t.pages && t.pages.Keys == t.info.Keys
  {
    var l, r := Kid(t.pages[q], s), Kid(t.pages[q], s + 1);
    var pages := t.pages[q := t.pages[q].(entries := t.pages[q].entries[s := KP(b, r)], dead := dq)];
    Tree(pages[l := pages[l].(entries := el, dead := dl)][r := pages[r].(entries := er, dead := dr)],
         t.info[l := t.info[l].(hi := rank(b))][r := t.info[r].(lo := rank(b))], t.root, Whole)
  }

  /** Two adjacent leaf children of `q`, chained to each other. */
  ghost predicate Neighbours(rank: Rank, t: Tree, q: PageId, s: nat) {
    && Framed(t) && t.pend == Whole && q in t.pages && !t.pages[q].leaf && s < |t.pages[q].entries|
    && var l, r := Kid(t.pages[q], s), Kid(t.pages[q], s + 1);
       && l in t.pages && r in t.pages && l != r && l != q && r != q && l != t.root && r != t.root
       && t.pages[l].parent == q && t.pages[r].parent == q
       && t.info[q].level == t.info[l].level + 1 && t.info[l].level == t.info[r].level
       && t.info[l].hi == t.info[r].lo == rank(t.pages[q].entries[s].key)
       && PageOk(rank, t, q) && PageOk(rank, t, l) && PageOk(rank, t, r)
       && (t.pages[l].leaf ==> t.pages[r].leaf && t.pages[l].right == r && t.pages[r].left == l)
       && (t.pages[r].leaf ==> t.pages[l].leaf)
  }

  lemma AreNeighbours(rank: Rank, t: Tree, q: PageId, s: nat)
    requires Ordered(rank) && Shape(rank, t) && t.pend == Whole
    requires q in t.pages && !t.pages[q].leaf && s < |t.pages[q].entries|
    ensures Neighbours(rank, t, q, s)
  {
    hide Ordered, Sorted, AttachedOk, IsKid;
    RankBounds(rank, t.pages[q].entries[s].key);
    assert PageOk(rank, t, q);
    assert KidOk(rank, t, q, s) && KidOk(rank, t, q, s + 1);
    var l, r := Kid(t.pages[q], s), Kid(t.pages[q], s + 1);
    KidOnce(rank, t, q, s, s + 1);
    assert PageOk(rank, t, l) && PageOk(rank, t, r);
    if t.pages[l].leaf { ChainedKids(rank, t, l, r, t.pages[q].entries[s].key); }
  }

  /** The leaf that starts where another ends is its right neighbour. */
  lemma ChainedKids(rank: Rank, t: Tree, l: PageId, r: PageId, k: Key)
    requires Shape(rank, t) && t.pend == Whole && l in t.pages && r in t.pages && t.pages[l].leaf && t.pages[r].leaf
    requires t.info[l].hi == t.info[r].lo == rank(k) && rank(k) < 1.0
    ensures t.pages[l].right == r && t.pages[r].left == l
  {
    hide Sorted, AttachedOk, IsKid, KidsOk;
    assert PageOk(rank, t, l) && PageOk(rank, t, r);
    var n := t.pages[l].right;
    assert PageOk(rank, t, n);
    UniqueOnLevel(rank, t, n, r, k);
  }

  ghost predicate ReboundReady(rank: Rank, t: Tree, q: PageId, s: nat, b: Key, el: seq<Entry>, er: seq<Entry>) {
    && Neighbours(rank, t, q, s)
    && var l, r := Kid(t.pages[q], s), Kid(t.pages[q], s + 1);
       && t.pages[l].leaf && t.info[l].lo < rank(b) < t.info[r].hi
       && NodeOk(rank, t.pages[l].(entries := el), t.info[l].(hi := rank(b)))
       && NodeOk(rank, t.pages[r].(entries := er), t.info[r].(lo := rank(b)))
  }

  lemma ReboundFrame(rank: Rank, t: Tree, q: PageId, s: nat, b: Key, dq: nat,
                     el: seq<Entry>, dl: nat, er: seq<Entry>, dr: nat)
    requires ReboundReady(rank, t, q, s, b, el, er)
    ensures var t' := Rebound(rank, t, q, s, b, dq, el, dl, er, dr);
            var l, r := Kid(t.pages[q], s), Kid(t.pages[q], s + 1);
            && Framed(t') && t'.pages.Keys == t.pages.Keys && t'.pend == Whole && t'.root == t.root
            && t'.pages[q] == t.pages[q].(entries := t.pages[q].entries[s := KP(b, r)], dead := dq)
            && t'.pages[l] == t.pages[l].(entries := el, dead := dl)
            && t'.pages[r] == t.pages[r].(entries := er, dead := dr)
            && t'.info[l] == t.info[l].(hi := rank(b)) && t'.info[r] == t.info[r].(lo := rank(b))
            && (forall c :: c in t.pages && c != q && c != l && c != r ==> t'.pages[c] == t.pages[c])
            && (forall c :: c in t.pages && c != l && c != r ==> t'.info[c] == t.info[c])
            && (forall j :: 0 <= j <= |t.pages[q].entries| ==> Kid(t'.pages[q], j) == Kid(t.pages[q], j))
  {
    hide PageOk, NodeOk;
    var t' := Rebound(rank, t, q, s, b, dq, el, dl, er, dr);
    assert t'.pages.Keys == t.pages.Keys;
  }

  lemma ReboundParent(rank: Rank, t: Tree, q: PageId, s: nat, b: Key, dq: nat,
                      el: seq<Entry>, dl: nat, er: seq<Entry>, dr: nat)
    requires ReboundReady(rank, t, q, s, b, el, er)
    ensures var t' := Rebound(rank, t, q, s, b, dq, el, dl, er, dr);
            Framed(t') && NodeOk(rank, t'.pages[q], t'.info[q]) && KidsOk(rank, t', q)
  {
    hide AttachedOk, ChainOk, IsKid, Rebound;
    var t' := Rebound(rank, t, q, s, b, dq, el, dl, er, dr);
    ReboundFrame(rank, t, q, s, b, dq, el, dl, er, dr);
    assert KidOk(rank, t, q, s) && KidOk(rank, t, q, s + 1);
    var es, es' := t.pages[q].entries, t'.pages[q].entries;
    assert s > 0 ==> rank(es[s - 1].key) < rank(b);
    assert s + 1 < |es| ==> rank(b) < rank(es[s + 1].key);
    SortedReplaced(rank, es, s, KP(b, Kid(t.pages[q], s + 1)));
    forall j | 0 <= j <= |es'| ensures KidOk(rank, t', q, j) {
      assert KidOk(rank, t, q, j);
      if j != s { KidOnce(rank, t, q, s, j); }
      if j != s + 1 { KidOnce(rank, t, q, s + 1, j); }
    }
  }

  lemma SortedReplaced(rank: Rank, es: seq<Entry>, s: nat, e: Entry)
    requires Sorted(rank, es) && s < |es|
    requires s > 0 ==> rank(es[s - 1].key) < rank(e.key)
    requires s + 1 < |es| ==> rank(e.key) < rank(es[s + 1].key)
    ensures Sorted(rank, es[s := e])
  {
    var es' := es[s := e];
    forall a, b | 0 <= a < b < |es'| ensures rank(es'[a].key) < rank(es'[b].key) {
      if a == s {
        assert b > s + 1 ==> rank(es[s + 1].key) < rank(es[b].key);
      } else if b == s {
        assert a < s - 1 ==> rank(es[a].key) < rank(es[s - 1].key);
      }
    }
  }

  /** A page whose parent, level and children did not change, in a tree where they are in place. */
  lemma ReboundOther(rank: Rank, t: Tree, q: PageId, s: nat, b: Key, dq: nat,
                     el: seq<Entry>, dl: nat, er: seq<Entry>, dr: nat, c: PageId)
    requires ReboundReady(rank, t, q, s, b, el, er) && c in t.pages && PageOk(rank, t, c)
    requires c != q && c != Kid(t.pages[q], s) && c != Kid(t.pages[q], s + 1)
    ensures var t' := Rebound(rank, t, q, s, b, dq, el, dl, er, dr); Framed(t') && PageOk(rank, t', c)
  {
    hide NodeOk, IsKid, Rebound, Sorted;
    var t' := Rebound(rank, t, q, s, b, dq, el, dl, er, dr);
    ReboundFrame(rank, t, q, s, b, dq, el, dl, er, dr);
    if !t.pages[c].leaf {
      forall j | 0 <= j <= |t.pages[c].entries| ensures KidKept(t, t', c, j) {
        assert KidOk(rank, t, c, j);
      }
    }
    FrameKids(rank, t, t', c);
    if c != t.root { StillKid(t.pages[t.pages[c].parent], t'.pages[t.pages[c].parent], c); }
    assert ChainOk(t', c);
  }

  lemma StillKid(n: Node, n': Node, c: PageId)
    requires |n'.entries| == |n.entries| && forall j :: 0 <= j <= |n.entries| ==> Kid(n', j) == Kid(n, j)
    ensures IsKid(n, c) ==> IsKid(n', c)
  {
    if IsKid(n, c) {
      var j :| 0 <= j <= |n.entries| && Kid(n, j) == c;
      assert Kid(n', j) == c;
    }
  }

  lemma ReboundLeaves(rank: Rank, t: Tree, q: PageId, s: nat, b: Key, dq: nat,
                      el: seq<Entry>, dl: nat, er: seq<Entry>, dr: nat)
    requires ReboundReady(rank, t, q, s, b, el, er)
    ensures var t' := Rebound(rank, t, q, s, b, dq, el, dl, er, dr);
            Framed(t') && PageOk(rank, t', Kid(t.pages[q], s)) && PageOk(rank, t', Kid(t.pages[q], s + 1))
  {
    hide IsKid, Rebound, Sorted, KidsOk;
    var t' := Rebound(rank, t, q, s, b, dq, el, dl, er, dr);
    var l, r := Kid(t.pages[q], s), Kid(t.pages[q], s + 1);
    ReboundFrame(rank, t, q, s, b, dq, el, dl, er, dr);
    LeafHasNoKids(rank, t', l);
    LeafHasNoKids(rank, t', r);
    StillKid(t.pages[q], t'.pages[q], l);
    StillKid(t.pages[q], t'.pages[q], r);
    assert ChainOk(t', l);
    assert ChainOk(t', r);
  }

  lemma ReboundShape(rank: Rank, t: Tree, q: PageId, s: nat, b: Key, dq: nat,
                     el: seq<Entry>, dl: nat, er: seq<Entry>, dr: nat)
    requires Shape(rank, t) && ReboundReady(rank, t, q, s, b, el, er)
    ensures Shape(rank, Rebound(rank, t, q, s, b, dq, el, dl, er, dr))
  {
    hide PageOk, NodeOk, Rebound;
    var t' := Rebound(rank, t, q, s, b, dq, el, dl, er, dr);
    ReboundFrame(rank, t, q, s, b, dq, el, dl, er, dr);
    ReboundLeaves(rank, t, q, s, b, dq, el, dl, er, dr);
    forall c | c in t'.pages ensures PageOk(rank, t', c) {
      assert PageOk(rank, t, c);
      if c == q {
        ReboundParent(rank, t, q, s, b, dq, el, dl, er, dr);
        if q != t.root { ParentThere(rank, t, q); }
        ReboundRest(rank, t, q, s, b, dq, el, dl, er, dr);
      } else if c != Kid(t.pages[q], s) && c != Kid(t.pages[q], s + 1) {
        ReboundOther(rank, t, q, s, b, dq, el, dl, er, dr, c);
      }
    }
  }

  lemma ReboundRest(rank: Rank, t: Tree, q: PageId, s: nat, b: Key, dq: nat,
                    el: seq<Entry>, dl: nat, er: seq<Entry>, dr: nat)
    requires ReboundReady(rank, t, q, s, b, el, er)
    requires q != t.root ==> t.pages[q].parent in t.pages && PageOk(rank, t, t.pages[q].parent)
    requires var t' := Rebound(rank, t, q, s, b, dq, el, dl, er, dr);
             Framed(t') && NodeOk(rank, t'.pages[q], t'.info[q]) && KidsOk(rank, t', q)
    ensures PageOk(rank, Rebound(rank, t, q, s, b, dq, el, dl, er, dr), q)
  {
    hide NodeOk, KidsOk, IsKid, Rebound, Sorted;
    var t' := Rebound(rank, t, q, s, b, dq, el, dl, er, dr);
    ReboundFrame(rank, t, q, s, b, dq, el, dl, er, dr);
    if q != t.root {
      var g := ParentLevel(rank, t, q);
      FrameAttached(t, t', q);
    }
    NoChain(t', q);
  }

  // --------------------------------------------- taking a separator away again

  /** The parent forgets separator `s`; the page to its right awaits being joined. */
  function Detach(t: Tree, q: PageId, s: nat, dq: nat): Tree
    requires q in t.pages && s < |t.pages[q].entries|
  {
    t.(pages := t.pages[q := t.pages[q].(entries := Removed(t.pages[q].entries, s), dead := dq)],
       pend := Split(Kid(t.pages[q], s), Kid(t.pages[q], s + 1)))
  }

  lemma DetachFrame(rank: Rank, t: Tree, q: PageId, s: nat, dq: nat)
    requires Neighbours(rank, t, q, s)
    ensures var t' := Detach(t, q, s, dq);
            && Framed(t') && t'.pages.Keys == t.pages.Keys
            && t'.pages[q] == t.pages[q].(entries := Removed(t.pages[q].entries, s), dead := dq)
            && |t'.pages[q].entries| == |t.pages[q].entries| - 1
            && (forall c :: c in t.pages && c != q ==> t'.pages[c] == t.pages[c])
            && (forall j :: 0 <= j < |t.pages[q].entries| ==>
                              Kid(t'.pages[q], j) == Kid(t.pages[q], if j <= s then j else j + 1))
  {
    hide PageOk, Removed;
    RemovedEntries(t.pages[q].entries, s);
    var t' := Detach(t, q, s, dq);
    assert t'.pages.Keys == t.pages.Keys;
  }

  lemma DetachParent(rank: Rank, t: Tree, q: PageId, s: nat, dq: nat)
    requires Neighbours(rank, t, q, s)
    ensures var t' := Detach(t, q, s, dq);
            Framed(t') && NodeOk(rank, t'.pages[q], t'.info[q]) && KidsOk(rank, t', q)
  {
    hide AttachedOk, ChainOk, IsKid, Removed;
    var t' := Detach(t, q, s, dq);
    DetachFrame(rank, t, q, s, dq);
    RemovedEntries(t.pages[q].entries, s);
    assert KidOk(rank, t, q, s) && KidOk(rank, t, q, s + 1);
    forall j | 0 <= j <= |t'.pages[q].entries| ensures KidOk(rank, t', q, j) {
      var j0 := if j <= s then j else j + 1;
      assert KidOk(rank, t, q, j0);
      if j != s { KidOnce(rank, t, q, s, j0); }
      KidOnce(rank, t, q, s + 1, j0);
    }
  }

  lemma DetachOther(rank: Rank, t: Tree, q: PageId, s: nat, dq: nat, c: PageId)
    requires Neighbours(rank, t, q, s) && c in t.pages && c != q && PageOk(rank, t, c)
    ensures var t' := Detach(t, q, s, dq); Framed(t') && PageOk(rank, t', c)
  {
    hide NodeOk, Detach, Sorted;
    var t' := Detach(t, q, s, dq);
    DetachFrame(rank, t, q, s, dq);
    DetachInfo(t, q, s, dq);
    if !t.pages[c].leaf {
      forall j | 0 <= j <= |t.pages[c].entries| ensures KidKept(t, t', c, j) {
        assert KidOk(rank, t, c, j);
      }
    }
    FrameKids(rank, t, t', c);
    DetachAttached(rank, t, q, s, dq, c);
    assert ChainOk(t', c);
  }

  lemma DetachInfo(t: Tree, q: PageId, s: nat, dq: nat)
    requires q in t.pages && s < |t.pages[q].entries|
    ensures var t' := Detach(t, q, s, dq);
            t'.info == t.info && t'.root == t.root && t'.pend == Split(Kid(t.pages[q], s), Kid(t.pages[q], s + 1))
  {
  }

  lemma DetachAttached(rank: Rank, t: Tree, q: PageId, s: nat, dq: nat, c: PageId)
    requires Neighbours(rank, t, q, s) && c in t.pages && c != q && AttachedOk(t, c)
    ensures AttachedOk(Detach(t, q, s, dq), c)
  {
    hide PageOk, Detach;
    var t' := Detach(t, q, s, dq);
    DetachFrame(rank, t, q, s, dq);
    DetachInfo(t, q, s, dq);
    var p := t.pages[c].parent;
    if c != t.root {
      var j :| 0 <= j <= |t.pages[p].entries| && Kid(t.pages[p], j) == c;
      if p != q {
        assert Kid(t'.pages[p], j) == c;
      } else if j != s + 1 {
        assert Kid(t'.pages[p], if j <= s then j else j - 1) == c;
      }
    }
  }

  lemma DetachRest(rank: Rank, t: Tree, q: PageId, s: nat, dq: nat)
    requires Neighbours(rank, t, q, s)
    requires q != t.root ==> t.pages[q].parent in t.pages && PageOk(rank, t, t.pages[q].parent)
    ensures var t' := Detach(t, q, s, dq); Framed(t') && PageOk(rank, t', q)
  {
    hide NodeOk, KidsOk, IsKid, Detach, Sorted;
    var t' := Detach(t, q, s, dq);
    DetachFrame(rank, t, q, s, dq);
    DetachInfo(t, q, s, dq);
    DetachParent(rank, t, q, s, dq);
    if q != t.root {
      var g := ParentLevel(rank, t, q);
      FrameAttached(t, t', q);
    }
    NoChain(t', q);
  }

  lemma DetachShape(rank: Rank, t: Tree, q: PageId, s: nat, dq: nat)
    requires Shape(rank, t) && Neighbours(rank, t, q, s)
    ensures Shape(rank, Detach(t, q, s, dq))
  {
    hide PageOk, Detach;
    var t' := Detach(t, q, s, dq);
    DetachFrame(rank, t, q, s, dq);
    forall c | c in t'.pages ensures PageOk(rank, t', c) {
      assert PageOk(rank, t, c);
      if c == q {
        if q != t.root { ParentThere(rank, t, q); }
        DetachRest(rank, t, q, s, dq);
      } else {
        DetachOther(rank, t, q, s, dq, c);
      }
    }
  }

  // ------------------------------------------------------------- joining leaves

  /** The left page of a pending pair takes all cells and the right one disappears. */
  function JoinLeaves(t: Tree, el: seq<Entry>, dl: nat): Tree
    requires t.pend.Split? && t.pend.left in t.pages && t.pend.right in t.pages
    requires t.pend.left in t.info && t.pend.right in t.info
  {
    var Split(l, r) := t.pend;
    var next := t.pages[r].right;
    var pages := (t.pages - {r})[l := t.pages[l].(entries := el, dead := dl, right := next)];
    var pages' := if next in pages then pages[next := pages[next].(left := l)] else pages;
    Tree(pages', (t.info - {r})[l := t.info[l].(hi := t.info[r].hi)], t.root, Whole)
  }

  ghost predicate JoinReady(rank: Rank, t: Tree, el: seq<Entry>) {
    && Framed(t) && t.pend.Split?
    && var Split(l, r) := t.pend;
       && t.pages[l].leaf && t.pages[r].leaf && t.pages[l].right == r && t.pages[r].left == l
       && PageOk(rank, t, l) && PageOk(rank, t, r)
       && NodeOk(rank, t.pages[l].(entries := el), t.info[l].(hi := t.info[r].hi))
  }

  lemma JoinFrame(rank: Rank, t: Tree, el: seq<Entry>, dl: nat)
    requires JoinReady(rank, t, el)
    ensures var t' := JoinLeaves(t, el, dl);
            var Split(l, r) := t.pend;
            var next := t.pages[r].right;
            && Framed(t') && t'.pages.Keys == t.pages.Keys - {r} && next != r && next != l
            && t'.pages[l] == t.pages[l].(entries := el, dead := dl, right := next)
            && t'.info[l] == t.info[l].(hi := t.info[r].hi)
            && (next != NO_PAGE ==> next in t.pages && t'.pages[next] == t.pages[next].(left := l))
            && (forall c :: c in t.pages && c != l && c != r && c != next ==> t'.pages[c] == t.pages[c])
            && (forall c :: c in t.pages && c != l && c != r ==> t'.info[c] == t.info[c])
  {
    hide Sorted, KidsOk, AttachedOk;
    var t' := JoinLeaves(t, el, dl);
    var Split(l, r) := t.pend;
    var next := t.pages[r].right;
    assert next != r && next != l;
    assert t'.pages.Keys == t'.info.Keys == t.pages.Keys - {r};
    assert t.root in t'.pages && Claimed(t', t.root) == Claimed(t, t.root);
  }

  lemma JoinLeft(rank: Rank, t: Tree, el: seq<Entry>, dl: nat)
    requires JoinReady(rank, t, el)
    requires t.pend.left != t.root ==> PageOk(rank, t, t.pages[t.pend.left].parent)
    ensures var t' := JoinLeaves(t, el, dl); Framed(t') && PageOk(rank, t', t.pend.left)
  {
    hide Sorted, KidsOk, IsKid, JoinLeaves;
    var t' := JoinLeaves(t, el, dl);
    JoinFrame(rank, t, el, dl);
    JoinInfo(t, el, dl);
    var Split(l, r) := t.pend;
    assert NodeOk(rank, t'.pages[l], t'.info[l]);
    LeafHasNoKids(rank, t', l);
    if l != t.root { FrameAttached(t, t', l); }
    assert ChainOk(t', l);
  }

  lemma JoinInfo(t: Tree, el: seq<Entry>, dl: nat)
    requires t.pend.Split? && t.pend.left in t.pages && t.pend.right in t.pages
    requires t.pend.left in t.info && t.pend.right in t.info
    ensures var t' := JoinLeaves(t, el, dl); t'.root == t.root && t'.pend == Whole
  {
  }

  lemma JoinOther(rank: Rank, t: Tree, el: seq<Entry>, dl: nat, c: PageId)
    requires JoinReady(rank, t, el) && c in t.pages && c != t.pend.left && c != t.pend.right && PageOk(rank, t, c)
    ensures var t' := JoinLeaves(t, el, dl); Framed(t') && PageOk(rank, t', c)
  {
    hide NodeOk, IsKid, JoinLeaves, Sorted;
    var t' := JoinLeaves(t, el, dl);
    JoinFrame(rank, t, el, dl);
    JoinInfo(t, el, dl);
    assert NodeOk(rank, t'.pages[c], t'.info[c]) by { SameNodeOk(rank, t.pages[c], t'.pages[c], t.info[c]); }
    if !t.pages[c].leaf {
      forall j | 0 <= j <= |t.pages[c].entries| ensures KidKept(t, t', c, j) {
        assert KidOk(rank, t, c, j);
      }
    }
    FrameKids(rank, t, t', c);
    if c != t.root { FrameAttached(t, t', c); }
    assert ChainOk(t', c);
  }

  lemma JoinShape(rank: Rank, t: Tree, el: seq<Entry>, dl: nat)
    requires Shape(rank, t) && JoinReady(rank, t, el)
    ensures Shape(rank, JoinLeaves(t, el, dl))
  {
    hide PageOk, NodeOk, JoinLeaves;
    var t' := JoinLeaves(t, el, dl);
    JoinFrame(rank, t, el, dl);
    if t.pend.left != t.root { ParentThere(rank, t, t.pend.left); }
    JoinLeft(rank, t, el, dl);
    forall c | c in t'.pages ensures PageOk(rank, t', c) {
      assert PageOk(rank, t, c);
      if c != t.pend.left { JoinOther(rank, t, el, dl, c); }
    }
  }

  // ----------------------------------------------------- joining internal pages

  /** The separator comes down between the two runs of entries. */
  function JoinedNode(l: Node, sep: Key, r: Node, dl: nat): Node {
    l.(entries := l.entries + [KP(sep, r.first)] + r.entries, dead := dl)
  }

  function JoinInternal(t: Tree, sep: Key, dl: nat): Tree
    requires t.pend.Split? && t.pend.left in t.pages && t.pend.right in t.pages
    requires t.pend.left in t.info && t.pend.right in t.info
  {
    var Split(l, r) := t.pend;
    Tree(Reparented((t.pages - {r})[l := JoinedNode(t.pages[l], sep, t.pages[r], dl)], t.pages[r], l),
         (t.info - {r})[l := t.info[l].(hi := t.info[r].hi)], t.root, Whole)
  }

  ghost predicate FuseReady(rank: Rank, t: Tree, sep: Key) {
    && Framed(t) && t.pend.Split? && !t.pages[t.pend.left].leaf && !t.pages[t.pend.right].leaf
    && PageOk(rank, t, t.pend.left) && PageOk(rank, t, t.pend.right)
    && rank(sep) == t.info[t.pend.left].hi
  }

  /** The children of the joined page. */
  lemma JoinedKids(l: Node, sep: Key, r: Node, dl: nat)
    ensures var n := JoinedNode(l, sep, r, dl);
            && |n.entries| == |l.entries| + 1 + |r.entries|
            && (forall j :: 0 <= j <= |l.entries| ==> Kid(n, j) == Kid(l, j))
            && (forall j :: 0 <= j <= |r.entries| ==> Kid(n, j + |l.entries| + 1) == Kid(r, j))
  {
  }

  lemma FuseKids(rank: Rank, t: Tree, sep: Key)
    requires FuseReady(rank, t, sep)
    ensures var Split(l, r) := t.pend;
            && (forall c :: IsKid(t.pages[r], c) ==>
                  c in t.pages && c != l && c != r && c != t.root && t.pages[c].parent == r && t.info[c].level < t.info[r].level)
            && (forall c :: IsKid(t.pages[l], c) ==> c in t.pages && c != l && c != r && t.pages[c].parent == l)
  {
    hide Sorted, AttachedOk, ChainOk, NodeOk;
    var Split(l, r) := t.pend;
    forall c | IsKid(t.pages[r], c)
      ensures c in t.pages && c != l && c != r && c != t.root && t.pages[c].parent == r && t.info[c].level < t.info[r].level
    {
      var j :| 0 <= j <= |t.pages[r].entries| && Kid(t.pages[r], j) == c;
      assert KidOk(rank, t, r, j);
      InternalLevel(rank, t.pages[r], t.info[r]);
    }
    forall c | IsKid(t.pages[l], c) ensures c in t.pages && c != l && c != r && t.pages[c].parent == l {
      var j :| 0 <= j <= |t.pages[l].entries| && Kid(t.pages[l], j) == c;
      assert KidOk(rank, t, l, j);
      InternalLevel(rank, t.pages[l], t.info[l]);
    }
  }

  lemma InternalLevel(rank: Rank, n: Node, x: Info)
    requires NodeOk(rank, n, x) && !n.leaf
    ensures x.level > 0
  {
  }

  lemma FuseFrame(rank: Rank, t: Tree, sep: Key, dl: nat)
    requires FuseReady(rank, t, sep)
    ensures var t' := JoinInternal(t, sep, dl);
            var Split(l, r) := t.pend;
            && Framed(t') && t'.pages.Keys == t.pages.Keys - {r} && t'.root == t.root && t'.pend == Whole
            && t'.pages[l] == JoinedNode(t.pages[l], sep, t.pages[r], dl)
            && t'.info[l] == t.info[l].(hi := t.info[r].hi)
            && (forall c :: c in t.pages && c != l && c != r ==>
                  t'.pages[c] == if IsKid(t.pages[r], c) then t.pages[c].(parent := l) else t.pages[c])
            && (forall c :: c in t.pages && c != l && c != r ==> t'.info[c] == t.info[c])
  {
    hide PageOk, IsKid, JoinedNode;
    var t' := JoinInternal(t, sep, dl);
    FuseKids(rank, t, sep);
    JoinedLeaf(t.pages[t.pend.left], sep, t.pages[t.pend.right], dl);
    assert t'.pages.Keys == t'.info.Keys == t.pages.Keys - {t.pend.right};
    assert t.root in t'.pages && Claimed(t', t.root) == Claimed(t, t.root);
  }

  lemma FuseNode(rank: Rank, t: Tree, sep: Key, dl: nat)
    requires FuseReady(rank, t, sep)
    ensures var t' := JoinInternal(t, sep, dl); Framed(t') && NodeOk(rank, t'.pages[t.pend.left], t'.info[t.pend.left])
  {
    hide KidsOk, AttachedOk, ChainOk, IsKid, JoinInternal;
    FuseFrame(rank, t, sep, dl);
  }

  lemma FuseLeftKids(rank: Rank, t: Tree, sep: Key, dl: nat)
    requires FuseReady(rank, t, sep)
    ensures var t' := JoinInternal(t, sep, dl); Framed(t') && KidsOk(rank, t', t.pend.left)
  {
    hide AttachedOk, ChainOk, JoinInternal, Sorted, NodeOk;
    var Split(l, r) := t.pend;
    var t' := JoinInternal(t, sep, dl);
    var ln, rn := t.pages[l], t.pages[r];
    FuseFrame(rank, t, sep, dl);
    FuseKids(rank, t, sep);
    JoinedKids(ln, sep, rn, dl);
    forall j | 0 <= j <= |t'.pages[l].entries| ensures KidOk(rank, t', l, j) {
      if j <= |ln.entries| {
        assert KidOk(rank, t, l, j) && IsKid(ln, Kid(ln, j));
      } else {
        var i := j - |ln.entries| - 1;
        assert KidOk(rank, t, r, i) && IsKid(rn, Kid(rn, i));
        assert Kid(t'.pages[l], i + |ln.entries| + 1) == Kid(rn, i);
      }
    }
  }

  lemma FuseAttached(rank: Rank, t: Tree, sep: Key, dl: nat, c: PageId)
    requires FuseReady(rank, t, sep) && c in t.pages && c != t.pend.right && AttachedOk(t, c)
    ensures AttachedOk(JoinInternal(t, sep, dl), c)
  {
    hide PageOk, JoinInternal, JoinedNode;
    var Split(l, r) := t.pend;
    var t' := JoinInternal(t, sep, dl);
    FuseFrame(rank, t, sep, dl);
    FuseKids(rank, t, sep);
    JoinedKids(t.pages[l], sep, t.pages[r], dl);
    JoinedLeaf(t.pages[l], sep, t.pages[r], dl);
    var p := t.pages[c].parent;
    if c != t.root {
      var j :| 0 <= j <= |t.pages[p].entries| && Kid(t.pages[p], j) == c;
      assert IsKid(t.pages[p], c);
      if p == r {
        assert Kid(t'.pages[l], j + |t.pages[l].entries| + 1) == c;
      } else {
        assert Kid(t'.pages[p], j) == c;
      }
    }
  }

  lemma JoinedLeaf(l: Node, sep: Key, r: Node, dl: nat)
    ensures var n := JoinedNode(l, sep, r, dl); n.leaf == l.leaf && n.parent == l.parent
  {
  }

  lemma FuseLeft(rank: Rank, t: Tree, sep: Key, dl: nat)
    requires FuseReady(rank, t, sep)
    ensures var t' := JoinInternal(t, sep, dl); Framed(t') && PageOk(rank, t', t.pend.left)
  {
    hide KidsOk, NodeOk, IsKid, JoinInternal, JoinedNode;
    var Split(l, r) := t.pend;
    var t' := JoinInternal(t, sep, dl);
    FuseFrame(rank, t, sep, dl);
    FuseNode(rank, t, sep, dl);
    FuseLeftKids(rank, t, sep, dl);
    FuseAttached(rank, t, sep, dl, l);
    JoinedLeaf(t.pages[l], sep, t.pages[r], dl);
    NoChain(t', l);
  }

  lemma FuseOther(rank: Rank, t: Tree, sep: Key, dl: nat, c: PageId)
    requires FuseReady(rank, t, sep) && c in t.pages && c != t.pend.left && c != t.pend.right && PageOk(rank, t, c)
    ensures var t' := JoinInternal(t, sep, dl); Framed(t') && PageOk(rank, t', c)
  {
    hide NodeOk, IsKid, JoinInternal, JoinedNode, Sorted;
    var Split(l, r) := t.pend;
    var t' := JoinInternal(t, sep, dl);
    FuseFrame(rank, t, sep, dl);
    FuseKids(rank, t, sep);
    JoinedLeaf(t.pages[l], sep, t.pages[r], dl);
    assert NodeOk(rank, t'.pages[c], t'.info[c]) by { SameNodeOk(rank, t.pages[c], t'.pages[c], t.info[c]); }
    if !t.pages[c].leaf {
      forall j | 0 <= j <= |t.pages[c].entries| ensures KidKept(t, t', c, j) {
        assert KidOk(rank, t, c, j);
      }
    }
    FrameKids(rank, t, t', c);
    FuseAttached(rank, t, sep, dl, c);
    assert ChainOk(t', c);
  }

  lemma FuseShape(rank: Rank, t: Tree, sep: Key, dl: nat)
    requires Shape(rank, t) && FuseReady(rank, t, sep)
    ensures Shape(rank, JoinInternal(t, sep, dl))
  {
    hide PageOk, JoinInternal, IsKid;
    var t' := JoinInternal(t, sep, dl);
    FuseFrame(rank, t, sep, dl);
    FuseLeft(rank, t, sep, dl);
    forall c | c in t'.pages ensures PageOk(rank, t', c) {
      assert PageOk(rank, t, c);
      if c != t.pend.left { FuseOther(rank, t, sep, dl, c); }
    }
  }

  // -------------------------------------------------------- dropping the root

  /** A root without separators gives way to its only child. */
  function Collapsed(t: Tree): Tree
    requires t.root in t.pages && t.pages[t.root].first in t.pages
  {
    var c := t.pages[t.root].first;
    Tree(t.pages[c := t.pages[c].(parent := NO_PAGE)] - {t.root}, t.info - {t.root}, c, Whole)
  }

  ghost predicate CollapseReady(rank: Rank, t: Tree) {
    Framed(t) && t.pend == Whole && !t.pages[t.root].leaf && t.pages[t.root].entries == [] && PageOk(rank, t, t.root)
  }

  lemma CollapsedFrame(rank: Rank, t: Tree)
    requires CollapseReady(rank, t)
    ensures t.pages[t.root].first in t.pages
    ensures var t' := Collapsed(t);
            var x := t.pages[t.root].first;
            && x != t.root && Framed(t') && t'.pages.Keys == t.pages.Keys - {t.root}
            && t.info[x].level == t.info[t.root].level - 1 && t'.pages[x] == t.pages[x].(parent := NO_PAGE)
            && (forall c :: c in t.pages && c != x && c != t.root ==> t'.pages[c] == t.pages[c])
            && (forall c :: c in t.pages && c != t.root ==> t'.info[c] == t.info[c])
  {
    hide Sorted, AttachedOk, ChainOk;
    assert KidOk(rank, t, t.root, 0);
    var t' := Collapsed(t);
    assert t'.pages.Keys == t'.info.Keys == t.pages.Keys - {t.root};
  }

  lemma CollapsedPage(rank: Rank, t: Tree, c: PageId)
    requires CollapseReady(rank, t) && c in t.pages && c != t.root && PageOk(rank, t, c)
    requires t.pages[c].parent in t.pages && PageOk(rank, t, t.pages[c].parent)
    requires t.pages[t.root].first in t.pages
    ensures Framed(Collapsed(t)) && PageOk(rank, Collapsed(t), c)
  {
    hide Sorted, NodeOk, Collapsed;
    var t' := Collapsed(t);
    CollapsedFrame(rank, t);
    CollapsedInfo(t);
    SameNodeOk(rank, t.pages[c], t'.pages[c], t.info[c]);
    var i := ParentLevel(rank, t, c);
    if !t.pages[c].leaf {
      forall j | 0 <= j <= |t.pages[c].entries| ensures KidKept(t, t', c, j) {
        assert KidOk(rank, t, c, j);
      }
    }
    FrameKids(rank, t, t', c);
    if t.pages[c].parent == t.root {
      assert c == t.pages[t.root].first;
    } else {
      var q := t.pages[c].parent;
      SameKidsSame(t.pages[q], t'.pages[q], c);
    }
  }

  lemma CollapsedInfo(t: Tree)
    requires t.root in t.pages && t.pages[t.root].first in t.pages
    ensures Collapsed(t).root == t.pages[t.root].first && Collapsed(t).pend == Whole
  {
  }

  lemma CollapsedShape(rank: Rank, t: Tree)
    requires Shape(rank, t) && t.pend == Whole && !t.pages[t.root].leaf && t.pages[t.root].entries == []
    ensures t.pages[t.root].first in t.pages && Shape(rank, Collapsed(t))
  {
    hide PageOk, Collapsed;
    assert PageOk(rank, t, t.root);
    CollapsedFrame(rank, t);
    forall c | c in Collapsed(t).pages ensures PageOk(rank, Collapsed(t), c) {
      assert PageOk(rank, t, c);
      ParentThere(rank, t, c);
      CollapsedPage(rank, t, c);
    }
  }
}
