/** The shape of the B+Tree, stated page by page. Each page carries the level and the key
    range it is responsible for; a split whose separator has not reached the parent yet is
    a pending pair of pages. */
module Trees {
  import opened Base
  import opened Nodes

  datatype Info = Info(level: nat, lo: real, hi: real)

  datatype Pending = Whole | Split(left: PageId, right: PageId)

  datatype Tree = Tree(pages: map<PageId, Node>, info: map<PageId, Info>, root: PageId, pend: Pending)

  function ChildOf(e: Entry): PageId {
    match e
    case KV(_, _) => NO_PAGE
    case KP(_, c) => c
  }

  /** Child `i` of an internal node; there is one more child than entries. */
  function Kid(n: Node, i: nat): PageId
    requires i <= |n.entries|
  {
    if i == 0 then n.first else ChildOf(n.entries[i - 1])
  }

  function KidRange(rank: Rank, n: Node, x: Info, i: nat): Info
    requires i <= |n.entries|
  {
    Info(if x.level > 0 then x.level - 1 else 0,
         if i == 0 then x.lo else rank(n.entries[i - 1].key),
         if i == |n.entries| then x.hi else rank(n.entries[i].key))
  }

  /** The range the parent still believes page `c` to have. */
  function Claimed(t: Tree, c: PageId): Info
    requires c in t.info && (t.pend.Split? ==> t.pend.right in t.info)
  {
    if t.pend.Split? && c == t.pend.left then t.info[c].(hi := t.info[t.pend.right].hi) else t.info[c]
  }

  ghost predicate NodeOk(rank: Rank, n: Node, x: Info) {
    && x.lo < x.hi && Sorted(rank, n.entries) && (n.leaf <==> x.level == 0)
    && (forall i :: 0 <= i < |n.entries| ==>
          && (n.entries[i].KV? <==> n.leaf)
          && x.lo <= rank(n.entries[i].key) < x.hi
          && (!n.leaf ==> x.lo < rank(n.entries[i].key)))
  }

  predicate Orphan(t: Tree, p: PageId) { t.pend.Split? && p == t.pend.right }

  ghost predicate KidOk(rank: Rank, t: Tree, p: PageId, i: nat)
    requires t.pages.Keys == t.info.Keys && p in t.pages && i <= |t.pages[p].entries|
    requires t.pend.Split? ==> t.pend.right in t.pages
  {
    var c := Kid(t.pages[p], i);
    && c in t.pages && t.pages[c].parent == p && !Orphan(t, c)
    && Claimed(t, c) == KidRange(rank, t.pages[p], t.info[p], i)
  }

  ghost predicate KidsOk(rank: Rank, t: Tree, p: PageId)
    requires t.pages.Keys == t.info.Keys && p in t.pages
    requires t.pend.Split? ==> t.pend.right in t.pages
  {
    !t.pages[p].leaf ==> forall i :: 0 <= i <= |t.pages[p].entries| ==> KidOk(rank, t, p, i)
  }

  predicate IsKid(n: Node, c: PageId) {
    exists i :: 0 <= i <= |n.entries| && Kid(n, i) == c
  }

  ghost predicate AttachedOk(t: Tree, p: PageId)
    requires p in t.pages
  {
    p == t.root || Orphan(t, p) ||
    (var q := t.pages[p].parent; q in t.pages && !t.pages[q].leaf && IsKid(t.pages[q], p))
  }

  /** A leaf's neighbours start and end where it ends and starts. */
  ghost predicate ChainOk(t: Tree, p: PageId)
    requires t.pages.Keys == t.info.Keys && p in t.pages
  {
    var n := t.pages[p];
    n.leaf ==>
      && (if n.right == NO_PAGE then t.info[p].hi == 1.0
          else n.right in t.pages && t.pages[n.right].leaf && t.pages[n.right].left == p
               && t.info[n.right].lo == t.info[p].hi)
      && (if n.left == NO_PAGE then t.info[p].lo == 0.0
          else n.left in t.pages && t.pages[n.left].leaf && t.pages[n.left].right == p)
  }

  ghost predicate Framed(t: Tree) {
    && t.pages.Keys == t.info.Keys && NO_PAGE !in t.pages
    && t.root in t.pages && t.pages[t.root].parent == NO_PAGE
    && (t.pend.Split? ==>
          && t.pend.left in t.pages && t.pend.right in t.pages
          && t.pend.left != t.pend.right && t.pend.right != t.root
          && t.info[t.pend.left].level == t.info[t.pend.right].level
          && t.info[t.pend.left].hi == t.info[t.pend.right].lo)
    && Claimed(t, t.root).lo == 0.0 && Claimed(t, t.root).hi == 1.0
  }

  ghost predicate PageOk(rank: Rank, t: Tree, p: PageId)
    requires Framed(t) && p in t.pages
  {
    && NodeOk(rank, t.pages[p], t.info[p])
    && KidsOk(rank, t, p)
    && AttachedOk(t, p)
    && ChainOk(t, p)
    && t.info[p].level <= t.info[t.root].level
  }

  ghost predicate Shape(rank: Rank, t: Tree) {
    Framed(t) && forall p :: p in t.pages ==> PageOk(rank, t, p)
  }

  // ------------------------------------------------------------------ descent

  predicate Covers(rank: Rank, x: Info, k: Key) { x.lo <= rank(k) < x.hi }

  /** Index of the child to follow for `k`: one past the last separator not above it. */
  lemma DescentIndex(rank: Rank, t: Tree, p: PageId, k: Key, i: nat)
    requires Shape(rank, t) && t.pend == Whole && p in t.pages && !t.pages[p].leaf
    requires i <= |t.pages[p].entries| && Covers(rank, t.info[p], k)
    requires i > 0 ==> rank(t.pages[p].entries[i - 1].key) <= rank(k)
    requires i < |t.pages[p].entries| ==> rank(k) < rank(t.pages[p].entries[i].key)
    ensures var c := Kid(t.pages[p], i);
            c in t.pages && Covers(rank, t.info[c], k) && t.pages[c].parent == p
            && t.info[c].level == t.info[p].level - 1
  {
    assert PageOk(rank, t, p);
    assert KidOk(rank, t, p, i);
  }

  /** A point of the key line lies in the range. */
  predicate At(x: Info, v: real) { x.lo <= v < x.hi }

  /** Two children of one node whose ranges share a point are the same child. */
  lemma SameKid(rank: Rank, t: Tree, p: PageId, i: nat, j: nat, v: real)
    requires Shape(rank, t) && t.pend == Whole && p in t.pages && !t.pages[p].leaf
    requires i <= |t.pages[p].entries| && j <= |t.pages[p].entries|
    requires KidOk(rank, t, p, i) && KidOk(rank, t, p, j)
    requires At(t.info[Kid(t.pages[p], i)], v) && At(t.info[Kid(t.pages[p], j)], v)
    ensures i == j
  {
    assert PageOk(rank, t, p);
  }

  lemma ParentAt(rank: Rank, t: Tree, p: PageId, v: real) returns (i: nat)
    requires Shape(rank, t) && t.pend == Whole && p in t.pages && p != t.root
    requires At(t.info[p], v)
    ensures var q := t.pages[p].parent;
            && q in t.pages && !t.pages[q].leaf && At(t.info[q], v)
            && t.info[q].level == t.info[p].level + 1
            && i <= |t.pages[q].entries| && Kid(t.pages[q], i) == p && KidOk(rank, t, q, i)
  {
    assert PageOk(rank, t, p);
    var q := t.pages[p].parent;
    i :| 0 <= i <= |t.pages[q].entries| && Kid(t.pages[q], i) == p;
    assert PageOk(rank, t, q);
    assert KidOk(rank, t, q, i);
  }

  /** On each level the key ranges do not overlap. */
  lemma {:induction false} UniqueAt(rank: Rank, t: Tree, p: PageId, q: PageId, v: real)
    requires Shape(rank, t) && t.pend == Whole && p in t.pages && q in t.pages
    requires t.info[p].level == t.info[q].level
    requires At(t.info[p], v) && At(t.info[q], v)
    ensures p == q
    decreases t.info[t.root].level - t.info[p].level
  {
    assert PageOk(rank, t, p) && PageOk(rank, t, q);
    if p == t.root {
      if q != t.root {
        var j := ParentAt(rank, t, q, v);
      }
    } else {
      var i := ParentAt(rank, t, p, v);
      var pp := t.pages[p].parent;
      assert PageOk(rank, t, pp);
      if q != t.root {
        var j := ParentAt(rank, t, q, v);
        UniqueAt(rank, t, pp, t.pages[q].parent, v);
        SameKid(rank, t, pp, i, j, v);
      }
    }
  }

  /** So at most one page of a level is responsible for a key. */
  lemma UniqueOnLevel(rank: Rank, t: Tree, p: PageId, q: PageId, k: Key)
    requires Shape(rank, t) && t.pend == Whole && p in t.pages && q in t.pages
    requires t.info[p].level == t.info[q].level
    requires Covers(rank, t.info[p], k) && Covers(rank, t.info[q], k)
    ensures p == q
  {
    hide Shape;
    UniqueAt(rank, t, p, q, rank(k));
  }
}
