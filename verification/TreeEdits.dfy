/** Edits of the tree and the shape each of them keeps. */
module TreeEdits {
  import opened Base
  import opened Nodes
  import opened Trees

  // ------------------------------------------------------------ untouched pages

  predicate SameKids(n: Node, n': Node) {
    n'.leaf == n.leaf && n'.entries == n.entries && n'.first == n.first
  }

  lemma SameKidsSame(n: Node, n': Node, c: PageId)
    requires SameKids(n, n')
    ensures IsKid(n', c) <==> IsKid(n, c)
  {
    if IsKid(n, c) {
      var i :| 0 <= i <= |n.entries| && Kid(n, i) == c;
      assert Kid(n', i) == c;
    }
    if IsKid(n', c) {
      var i :| 0 <= i <= |n'.entries| && Kid(n', i) == c;
      assert Kid(n, i) == c;
    }
  }

  /** What an edit must leave alone about child `j` of page `c`. */
  ghost predicate KidKept(t: Tree, t': Tree, c: PageId, j: nat)
    requires Framed(t) && Framed(t') && c in t.pages && j <= |t.pages[c].entries|
  {
    var d := Kid(t.pages[c], j);
    d in t.pages && d in t'.pages && t'.pages[d].parent == c && !Orphan(t', d) && Claimed(t', d) == Claimed(t, d)
  }

  lemma FrameKids(rank: Rank, t: Tree, t': Tree, c: PageId)
    requires Framed(t) && Framed(t') && c in t.pages && c in t'.pages
    requires KidsOk(rank, t, c) && SameKids(t.pages[c], t'.pages[c]) && t'.info[c] == t.info[c]
    requires !t.pages[c].leaf ==> forall j :: 0 <= j <= |t.pages[c].entries| ==> KidKept(t, t', c, j)
    ensures KidsOk(rank, t', c)
  {
    if !t.pages[c].leaf {
      forall j | 0 <= j <= |t'.pages[c].entries| ensures KidOk(rank, t', c, j) {
        assert KidOk(rank, t, c, j) && KidKept(t, t', c, j);
      }
    }
  }

  lemma FrameAttached(t: Tree, t': Tree, c: PageId)
    requires c in t.pages && c in t'.pages && c != t.root && !Orphan(t, c) && AttachedOk(t, c)
    requires t'.pages[c].parent == t.pages[c].parent
    requires var q := t.pages[c].parent; q in t'.pages && SameKids(t.pages[q], t'.pages[q])
    ensures AttachedOk(t', c)
  {
    var q := t.pages[c].parent;
    SameKidsSame(t.pages[q], t'.pages[q], c);
  }

  /** A page is one level below its parent. */
  lemma ParentLevel(rank: Rank, t: Tree, c: PageId) returns (i: nat)
    requires Framed(t) && c in t.pages && c != t.root && !Orphan(t, c) && AttachedOk(t, c)
    requires PageOk(rank, t, t.pages[c].parent)
    ensures var q := t.pages[c].parent;
            && i <= |t.pages[q].entries| && Kid(t.pages[q], i) == c && KidOk(rank, t, q, i)
            && t.info[q].level == t.info[c].level + 1 && q != c
  {
    var q := t.pages[c].parent;
    i :| 0 <= i <= |t.pages[q].entries| && Kid(t.pages[q], i) == c;
    assert KidOk(rank, t, q, i);
  }

  // -------------------------------------------------------------- leaf content

  function WithEntries(t: Tree, p: PageId, es: seq<Entry>, dead: nat): Tree
    requires p in t.pages
  {
    t.(pages := t.pages[p := t.pages[p].(entries := es, dead := dead)])
  }

  /** New entries for a leaf, all within its range. */
  lemma LeafEdit(rank: Rank, t: Tree, p: PageId, es: seq<Entry>, dead: nat)
    requires Shape(rank, t) && p in t.pages && t.pages[p].leaf
    requires NodeOk(rank, t.pages[p].(entries := es, dead := dead), t.info[p])
    ensures Shape(rank, WithEntries(t, p, es, dead))
  {
    var t' := WithEntries(t, p, es, dead);
    forall q | q in t'.pages ensures PageOk(rank, t', q) {
      assert PageOk(rank, t, q);
      if !t.pages[q].leaf {
        forall i | 0 <= i <= |t'.pages[q].entries| ensures KidOk(rank, t', q, i) {
          assert KidOk(rank, t, q, i);
        }
      }
    }
  }

  // ---------------------------------------------------------------- leaf split

  /** Page `p` keeps `el`, fresh page `r` to its right takes `er`; the boundary is `sep`. */
  function LeafCut(rank: Rank, t: Tree, p: PageId, r: PageId, sep: Key,
                   el: seq<Entry>, dl: nat, er: seq<Entry>, dr: nat): Tree
    requires p in t.pages && p in t.info
  {
    var n := t.pages[p];
    var pages := t.pages[p := n.(entries := el, dead := dl, right := r)]
                        [r := Node(true, n.parent, p, n.right, NO_PAGE, er, dr)];
    var pages' := if n.right in pages then pages[n.right := pages[n.right].(left := r)] else pages;
    Tree(pages', t.info[p := t.info[p].(hi := rank(sep))][r := Info(0, rank(sep), t.info[p].hi)],
         t.root, Split(p, r))
  }

  /** What a leaf cut needs: a fresh page, and a boundary that separates the two halves. */
  ghost predicate CutReady(rank: Rank, t: Tree, p: PageId, r: PageId, sep: Key, el: seq<Entry>, er: seq<Entry>) {
    && Framed(t) && t.pend == Whole && p in t.pages && t.pages[p].leaf
    && r !in t.pages && r != NO_PAGE
    && t.info[p].lo < rank(sep) < t.info[p].hi
    && NodeOk(rank, t.pages[p].(entries := el), Info(0, t.info[p].lo, rank(sep)))
    && NodeOk(rank, t.pages[p].(entries := er), Info(0, rank(sep), t.info[p].hi))
  }

  lemma LeafCutFrame(rank: Rank, t: Tree, p: PageId, r: PageId, sep: Key,
                     el: seq<Entry>, dl: nat, er: seq<Entry>, dr: nat)
    requires CutReady(rank, t, p, r, sep, el, er) && PageOk(rank, t, p)
    ensures var t' := LeafCut(rank, t, p, r, sep, el, dl, er, dr);
            var next := t.pages[p].right;
            && Framed(t') && next != p && next != r
            && t'.pages.Keys == t.pages.Keys + {r}
            && t'.pages[p] == t.pages[p].(entries := el, dead := dl, right := r)
            && t'.pages[r] == Node(true, t.pages[p].parent, p, next, NO_PAGE, er, dr)
            && (next != NO_PAGE ==> next in t.pages && t'.pages[next] == t.pages[next].(left := r))
            && (forall c :: c in t.pages && c != p && c != next ==> t'.pages[c] == t.pages[c])
  {
    hide Sorted, KidsOk, AttachedOk;
    var t' := LeafCut(rank, t, p, r, sep, el, dl, er, dr);
    var next := t.pages[p].right;
    assert next != p && next != r;
    assert t'.pages.Keys == t'.info.Keys == t.pages.Keys + {r};
    assert t'.pages[r] == Node(true, t.pages[p].parent, p, next, NO_PAGE, er, dr);
    assert t'.pages[p] == t.pages[p].(entries := el, dead := dl, right := r);
    assert Claimed(t', t.root) == t.info[t.root];
    assert Framed(t');
  }

  lemma LeafCutHalves(rank: Rank, t: Tree, p: PageId, r: PageId, sep: Key,
                      el: seq<Entry>, dl: nat, er: seq<Entry>, dr: nat)
    requires CutReady(rank, t, p, r, sep, el, er) && PageOk(rank, t, p)
    requires p != t.root ==> PageOk(rank, t, t.pages[p].parent)
    requires Framed(LeafCut(rank, t, p, r, sep, el, dl, er, dr))
    ensures var t' := LeafCut(rank, t, p, r, sep, el, dl, er, dr); PageOk(rank, t', p) && PageOk(rank, t', r)
  {
    hide KidsOk, IsKid, Sorted;
    var t' := LeafCut(rank, t, p, r, sep, el, dl, er, dr);
    LeafCutFrame(rank, t, p, r, sep, el, dl, er, dr);
    assert NodeOk(rank, t'.pages[p], t'.info[p]) && NodeOk(rank, t'.pages[r], t'.info[r]);
    LeafHasNoKids(rank, t', p);
    LeafHasNoKids(rank, t', r);
    if p != t.root { FrameAttached(t, t', p); }
    var next, prev := t.pages[p].right, t.pages[p].left;
    assert ChainOk(t', p);
    assert ChainOk(t', r);
  }

  lemma LeafHasNoKids(rank: Rank, t: Tree, p: PageId)
    requires Framed(t) && p in t.pages && t.pages[p].leaf
    ensures KidsOk(rank, t, p)
  {
  }

  lemma LeafCutOther(rank: Rank, t: Tree, p: PageId, r: PageId, sep: Key,
                     el: seq<Entry>, dl: nat, er: seq<Entry>, dr: nat, c: PageId)
    requires CutReady(rank, t, p, r, sep, el, er) && PageOk(rank, t, p)
    requires c in t.pages && c != p && PageOk(rank, t, c)
    requires Framed(LeafCut(rank, t, p, r, sep, el, dl, er, dr))
    ensures PageOk(rank, LeafCut(rank, t, p, r, sep, el, dl, er, dr), c)
  {
    hide NodeOk, IsKid;
    var t' := LeafCut(rank, t, p, r, sep, el, dl, er, dr);
    LeafCutFrame(rank, t, p, r, sep, el, dl, er, dr);
    assert NodeOk(rank, t'.pages[c], t'.info[c]) by { SameNodeOk(rank, t.pages[c], t'.pages[c], t.info[c]); }
    if !t.pages[c].leaf {
      forall j | 0 <= j <= |t.pages[c].entries| ensures KidKept(t, t', c, j) {
        assert KidOk(rank, t, c, j);
      }
    }
    assert SameKids(t.pages[c], t'.pages[c]);
    FrameKids(rank, t, t', c);
    if c != t.root { FrameAttached(t, t', c); }
    assert ChainOk(t', c);
  }

  lemma SameNodeOk(rank: Rank, n: Node, n': Node, x: Info)
    requires NodeOk(rank, n, x) && n'.leaf == n.leaf && n'.entries == n.entries
    ensures NodeOk(rank, n', x)
  {
  }

  lemma LeafCutShape(rank: Rank, t: Tree, p: PageId, r: PageId, sep: Key,
                     el: seq<Entry>, dl: nat, er: seq<Entry>, dr: nat)
    requires Shape(rank, t) && CutReady(rank, t, p, r, sep, el, er)
    ensures Shape(rank, LeafCut(rank, t, p, r, sep, el, dl, er, dr))
  {
    hide PageOk, NodeOk;
    var t' := LeafCut(rank, t, p, r, sep, el, dl, er, dr);
    assert PageOk(rank, t, p);
    LeafCutFrame(rank, t, p, r, sep, el, dl, er, dr);
    if p != t.root { ParentThere(rank, t, p); }
    LeafCutHalves(rank, t, p, r, sep, el, dl, er, dr);
    forall c | c in t'.pages ensures PageOk(rank, t', c) {
      if c != p && c != r {
        assert PageOk(rank, t, c);
        LeafCutOther(rank, t, p, r, sep, el, dl, er, dr, c);
      }
    }
  }

  lemma ParentThere(rank: Rank, t: Tree, c: PageId)
    requires Shape(rank, t) && c in t.pages && c != t.root && !Orphan(t, c)
    ensures t.pages[c].parent in t.pages && PageOk(rank, t, t.pages[c].parent)
  {
    assert PageOk(rank, t, c);
  }

  // ----------------------------------------------------- attaching the new page

  /** The pending right page becomes child `i + 1` of `q`. */
  function Attach(t: Tree, q: PageId, i: nat, sep: Key, dead: nat): Tree
    requires t.pend.Split? && q in t.pages && t.pend.right in t.pages && i <= |t.pages[q].entries|
  {
    var r := t.pend.right;
    var pages := t.pages[q := t.pages[q].(entries := Inserted(t.pages[q].entries, i, KP(sep, r)), dead := dead)];
    Tree(pages[r := pages[r].(parent := q)], t.info, t.root, Whole)
  }

  ghost predicate AttachReady(rank: Rank, t: Tree, q: PageId, i: nat, sep: Key) {
    && Framed(t) && t.pend.Split? && q in t.pages && !t.pages[q].leaf
    && i <= |t.pages[q].entries| && Kid(t.pages[q], i) == t.pend.left
    && rank(sep) == t.info[t.pend.left].hi
    && PageOk(rank, t, q) && PageOk(rank, t, t.pend.left) && PageOk(rank, t, t.pend.right)
  }

  lemma AttachFrame(rank: Rank, t: Tree, q: PageId, i: nat, sep: Key, dead: nat)
    requires AttachReady(rank, t, q, i, sep)
    ensures var t' := Attach(t, q, i, sep, dead);
            var Split(p, r) := t.pend;
            && Framed(t') && q != r && q != p && t.pages[p].parent == q
            && t'.pages.Keys == t.pages.Keys
            && t'.pages[q] == t.pages[q].(entries := Inserted(t.pages[q].entries, i, KP(sep, r)), dead := dead)
            && t'.pages[r] == t.pages[r].(parent := q)
            && (forall c :: c in t.pages && c != q && c != r ==> t'.pages[c] == t.pages[c])
  {
    hide Sorted, AttachedOk, ChainOk;
    assert KidOk(rank, t, q, i);
    var t' := Attach(t, q, i, sep, dead);
    assert t'.pages.Keys == t.pages.Keys;
  }

  lemma AttachNode(rank: Rank, t: Tree, q: PageId, i: nat, sep: Key, dead: nat)
    requires AttachReady(rank, t, q, i, sep)
    ensures NodeOk(rank, Attach(t, q, i, sep, dead).pages[q], t.info[q])
  {
    hide AttachedOk, ChainOk, Inserted;
    var r := t.pend.right;
    var es, es' := t.pages[q].entries, Inserted(t.pages[q].entries, i, KP(sep, r));
    assert KidOk(rank, t, q, i);
    AttachFrame(rank, t, q, i, sep, dead);
    InsertedEntries(es, i, KP(sep, r));
    var lo, hi := KidRange(rank, t.pages[q], t.info[q], i).lo, KidRange(rank, t.pages[q], t.info[q], i).hi;
    assert lo < rank(sep) < hi;
    SortedInserted(rank, es, i, KP(sep, r));
  }

  lemma AttachKids(rank: Rank, t: Tree, q: PageId, i: nat, sep: Key, dead: nat)
    requires AttachReady(rank, t, q, i, sep)
    ensures KidsOk(rank, Attach(t, q, i, sep, dead), q)
  {
    hide Sorted, AttachedOk, ChainOk, Inserted;
    var Split(p, r) := t.pend;
    var t' := Attach(t, q, i, sep, dead);
    AttachFrame(rank, t, q, i, sep, dead);
    InsertedEntries(t.pages[q].entries, i, KP(sep, r));
    assert KidOk(rank, t, q, i);
    forall j | 0 <= j <= |t'.pages[q].entries| ensures KidOk(rank, t', q, j) {
      if j < i {
        assert KidOk(rank, t, q, j);
        KidOnce(rank, t, q, i, j);
      } else if j > i + 1 {
        assert KidOk(rank, t, q, j - 1);
        KidOnce(rank, t, q, i, j - 1);
      }
    }
  }

  /** A page is one child of its parent only. */
  lemma KidOnce(rank: Rank, t: Tree, q: PageId, i: nat, j: nat)
    requires Framed(t) && q in t.pages && !t.pages[q].leaf && PageOk(rank, t, q)
    requires i <= |t.pages[q].entries| && j <= |t.pages[q].entries| && i != j
    ensures Kid(t.pages[q], i) != Kid(t.pages[q], j)
  {
    assert KidOk(rank, t, q, i) && KidOk(rank, t, q, j);
    var a, b := if i < j then i else j, if i < j then j else i;
    assert KidRange(rank, t.pages[q], t.info[q], a).lo < KidRange(rank, t.pages[q], t.info[q], b).lo;
  }

  lemma AttachParentPage(rank: Rank, t: Tree, q: PageId, i: nat, sep: Key, dead: nat)
    requires AttachReady(rank, t, q, i, sep)
    requires q != t.root ==> t.pages[q].parent in t.pages && PageOk(rank, t, t.pages[q].parent)
    ensures Framed(Attach(t, q, i, sep, dead)) && PageOk(rank, Attach(t, q, i, sep, dead), q)
  {
    hide Sorted, IsKid, ChainOk, NodeOk, Inserted;
    var t' := Attach(t, q, i, sep, dead);
    AttachFrame(rank, t, q, i, sep, dead);
    AttachNode(rank, t, q, i, sep, dead);
    AttachKids(rank, t, q, i, sep, dead);
    if q != t.root {
      var g := ParentLevel(rank, t, q);
      assert KidOk(rank, t, q, i);
      FrameAttached(t, t', q);
    }
    NoChain(t', q);
  }

  lemma NoChain(t: Tree, p: PageId)
    requires Framed(t) && p in t.pages && !t.pages[p].leaf
    ensures ChainOk(t, p)
  {
  }

  lemma AttachNewPage(rank: Rank, t: Tree, q: PageId, i: nat, sep: Key, dead: nat)
    requires AttachReady(rank, t, q, i, sep)
    ensures Framed(Attach(t, q, i, sep, dead)) && PageOk(rank, Attach(t, q, i, sep, dead), t.pend.right)
  {
    hide Sorted, Inserted;
    var Split(p, r) := t.pend;
    var t' := Attach(t, q, i, sep, dead);
    AttachFrame(rank, t, q, i, sep, dead);
    InsertedEntries(t.pages[q].entries, i, KP(sep, r));
    assert Kid(t'.pages[q], i + 1) == r;
    AttachKeepsKids(rank, t, q, i, sep, dead, r);
  }

  lemma AttachKeepsKids(rank: Rank, t: Tree, q: PageId, i: nat, sep: Key, dead: nat, c: PageId)
    requires AttachReady(rank, t, q, i, sep) && c in t.pages && c != q && PageOk(rank, t, c)
    ensures Framed(Attach(t, q, i, sep, dead)) && KidsOk(rank, Attach(t, q, i, sep, dead), c)
  {
    hide Sorted, Inserted, AttachedOk, ChainOk;
    var t' := Attach(t, q, i, sep, dead);
    AttachFrame(rank, t, q, i, sep, dead);
    if !t.pages[c].leaf {
      forall j | 0 <= j <= |t.pages[c].entries| ensures KidKept(t, t', c, j) {
        assert KidOk(rank, t, c, j);
      }
    }
    FrameKids(rank, t, t', c);
  }

  lemma AttachOther(rank: Rank, t: Tree, q: PageId, i: nat, sep: Key, dead: nat, c: PageId)
    requires AttachReady(rank, t, q, i, sep) && c in t.pages && c != q && c != t.pend.right && PageOk(rank, t, c)
    ensures Framed(Attach(t, q, i, sep, dead)) && PageOk(rank, Attach(t, q, i, sep, dead), c)
  {
    hide Sorted, Inserted, NodeOk, KidsOk;
    var t' := Attach(t, q, i, sep, dead);
    AttachFrame(rank, t, q, i, sep, dead);
    AttachKeepsKids(rank, t, q, i, sep, dead, c);
    if c != t.root {
      if t.pages[c].parent == q {
        AttachedShift(t, q, i, sep, dead, c);
      } else {
        FrameAttached(t, t', c);
      }
    }
  }

  lemma AttachedShift(t: Tree, q: PageId, i: nat, sep: Key, dead: nat, c: PageId)
    requires t.pend.Split? && q in t.pages && t.pend.right in t.pages && i <= |t.pages[q].entries|
    requires q != t.pend.right && IsKid(t.pages[q], c)
    ensures IsKid(Attach(t, q, i, sep, dead).pages[q], c)
  {
    hide Inserted;
    var es := t.pages[q].entries;
    InsertedEntries(es, i, KP(sep, t.pend.right));
    var j :| 0 <= j <= |es| && Kid(t.pages[q], j) == c;
    assert Kid(Attach(t, q, i, sep, dead).pages[q], if j <= i then j else j + 1) == c;
  }

  lemma AttachShape(rank: Rank, t: Tree, q: PageId, i: nat, sep: Key, dead: nat)
    requires Shape(rank, t) && t.pend.Split? && q in t.pages && !t.pages[q].leaf
    requires i <= |t.pages[q].entries| && Kid(t.pages[q], i) == t.pend.left
    requires rank(sep) == t.info[t.pend.left].hi
    ensures Shape(rank, Attach(t, q, i, sep, dead))
  {
    hide PageOk, Inserted;
    var t' := Attach(t, q, i, sep, dead);
    assert PageOk(rank, t, q) && PageOk(rank, t, t.pend.left) && PageOk(rank, t, t.pend.right);
    AttachFrame(rank, t, q, i, sep, dead);
    if q != t.root { ParentThere(rank, t, q); }
    forall c | c in t'.pages ensures PageOk(rank, t', c) {
      assert PageOk(rank, t, c);
      if c == q {
        AttachParentPage(rank, t, q, i, sep, dead);
      } else if c == t.pend.right {
        AttachNewPage(rank, t, q, i, sep, dead);
      } else {
        AttachOther(rank, t, q, i, sep, dead, c);
      }
    }
  }

  // ------------------------------------------------------------ internal split

  /** Entry `m` of page `p` is promoted; what follows it moves to fresh page `r`. */
  function InternalCut(rank: Rank, t: Tree, p: PageId, r: PageId, m: nat, dl: nat, dr: nat): Tree
    requires p in t.pages && p in t.info && m < |t.pages[p].entries|
  {
    var n := t.pages[p];
    var right := Node(false, n.parent, NO_PAGE, NO_PAGE, ChildOf(n.entries[m]), n.entries[m + 1..], dr);
    var pages := t.pages[p := n.(entries := n.entries[..m], dead := dl)][r := right];
    Tree(Reparented(pages, right, r),
         t.info[p := t.info[p].(hi := rank(n.entries[m].key))]
               [r := Info(t.info[p].level, rank(n.entries[m].key), t.info[p].hi)],
         t.root, Split(p, r))
  }

  /** Every child of `n` now names `r` as its parent. */
  function Reparented(pages: map<PageId, Node>, n: Node, r: PageId): map<PageId, Node> {
    map c | c in pages :: if IsKid(n, c) then pages[c].(parent := r) else pages[c]
  }

  ghost predicate PromoteReady(rank: Rank, t: Tree, p: PageId, r: PageId, m: nat) {
    && Framed(t) && t.pend == Whole && p in t.pages && !t.pages[p].leaf && PageOk(rank, t, p)
    && r !in t.pages && r != NO_PAGE && m < |t.pages[p].entries|
  }

  function RightHalf(n: Node, m: nat, dr: nat): Node
    requires m < |n.entries|
  {
    Node(false, n.parent, NO_PAGE, NO_PAGE, ChildOf(n.entries[m]), n.entries[m + 1..], dr)
  }

  /** Which children the two halves have. */
  lemma CutKids(rank: Rank, t: Tree, p: PageId, r: PageId, m: nat, dr: nat)
    requires PromoteReady(rank, t, p, r, m)
    ensures var n := t.pages[p];
            var right := RightHalf(n, m, dr);
            && (forall j :: 0 <= j <= m ==> !IsKid(right, Kid(n, j)))
            && (forall j :: 0 <= j <= |right.entries| ==> Kid(right, j) == Kid(n, j + m + 1) && IsKid(right, Kid(n, j + m + 1)))
            && (forall c :: IsKid(right, c) ==> IsKid(n, c) && c != r && c != p && c in t.pages && t.pages[c].parent == p)
  {
    hide Sorted, AttachedOk, ChainOk;
    var n := t.pages[p];
    var right := RightHalf(n, m, dr);
    forall j | 0 <= j <= |right.entries| ensures Kid(right, j) == Kid(n, j + m + 1) && IsKid(right, Kid(n, j + m + 1)) { }
    forall c | IsKid(right, c)
      ensures IsKid(n, c) && c != r && c != p && c in t.pages && t.pages[c].parent == p
    {
      var j :| 0 <= j <= |right.entries| && Kid(right, j) == c;
      assert Kid(n, j + m + 1) == c;
      assert KidOk(rank, t, p, j + m + 1);
    }
    forall j | 0 <= j <= m ensures !IsKid(right, Kid(n, j)) {
      if IsKid(right, Kid(n, j)) {
        var l :| 0 <= l <= |right.entries| && Kid(right, l) == Kid(n, j);
        KidOnce(rank, t, p, j, l + m + 1);
      }
    }
  }

  lemma CutFrame(rank: Rank, t: Tree, p: PageId, r: PageId, m: nat, dl: nat, dr: nat)
    requires PromoteReady(rank, t, p, r, m)
    ensures var t' := InternalCut(rank, t, p, r, m, dl, dr);
            var n := t.pages[p];
            var right := RightHalf(n, m, dr);
            && Framed(t') && t'.pages.Keys == t.pages.Keys + {r}
            && t'.pages[p] == n.(entries := n.entries[..m], dead := dl)
            && t'.pages[r] == right
            && (forall c :: c in t.pages && c != p ==>
                              t'.pages[c] == if IsKid(right, c) then t.pages[c].(parent := r) else t.pages[c])
  {
    hide Sorted, AttachedOk, ChainOk, KidsOk;
    var t' := InternalCut(rank, t, p, r, m, dl, dr);
    var right := RightHalf(t.pages[p], m, dr);
    CutKids(rank, t, p, r, m, dr);
    assert t'.pages.Keys == t'.info.Keys == t.pages.Keys + {r};
    assert t'.pages[t.root].parent == NO_PAGE;
    assert Claimed(t', t.root) == t.info[t.root];
  }

  lemma CutNodes(rank: Rank, t: Tree, p: PageId, r: PageId, m: nat, dl: nat, dr: nat)
    requires PromoteReady(rank, t, p, r, m)
    ensures var t' := InternalCut(rank, t, p, r, m, dl, dr);
            Framed(t') && NodeOk(rank, t'.pages[p], t'.info[p]) && NodeOk(rank, t'.pages[r], t'.info[r])
  {
    hide AttachedOk, ChainOk, KidsOk, IsKid;
    CutFrame(rank, t, p, r, m, dl, dr);
  }

  lemma CutLeft(rank: Rank, t: Tree, p: PageId, r: PageId, m: nat, dl: nat, dr: nat)
    requires PromoteReady(rank, t, p, r, m)
    requires p != t.root ==> t.pages[p].parent in t.pages && PageOk(rank, t, t.pages[p].parent)
    ensures var t' := InternalCut(rank, t, p, r, m, dl, dr); Framed(t') && PageOk(rank, t', p)
  {
    hide Sorted, IsKid, ChainOk, NodeOk;
    var t' := InternalCut(rank, t, p, r, m, dl, dr);
    CutFrame(rank, t, p, r, m, dl, dr);
    CutNodes(rank, t, p, r, m, dl, dr);
    CutKids(rank, t, p, r, m, dr);
    forall j | 0 <= j <= m ensures KidOk(rank, t', p, j) {
      assert KidOk(rank, t, p, j);
      assert Kid(t'.pages[p], j) == Kid(t.pages[p], j);
    }
    if p != t.root {
      var g := ParentLevel(rank, t, p);
      assert SameKids(t.pages[t.pages[p].parent], t'.pages[t.pages[p].parent]);
      FrameAttached(t, t', p);
    }
    NoChain(t', p);
  }

  lemma CutRight(rank: Rank, t: Tree, p: PageId, r: PageId, m: nat, dl: nat, dr: nat)
    requires PromoteReady(rank, t, p, r, m)
    ensures var t' := InternalCut(rank, t, p, r, m, dl, dr); Framed(t') && PageOk(rank, t', r)
  {
    hide Sorted, IsKid, ChainOk, NodeOk;
    var t' := InternalCut(rank, t, p, r, m, dl, dr);
    CutFrame(rank, t, p, r, m, dl, dr);
    CutNodes(rank, t, p, r, m, dl, dr);
    CutKids(rank, t, p, r, m, dr);
    forall j | 0 <= j <= |t'.pages[r].entries| ensures KidOk(rank, t', r, j) {
      assert KidOk(rank, t, p, j + m + 1);
      assert Kid(t'.pages[r], j) == Kid(t.pages[p], j + m + 1);
    }
    NoChain(t', r);
  }

  lemma CutOther(rank: Rank, t: Tree, p: PageId, r: PageId, m: nat, dl: nat, dr: nat, c: PageId)
    requires PromoteReady(rank, t, p, r, m) && c != p && c in t.pages && PageOk(rank, t, c)
    ensures var t' := InternalCut(rank, t, p, r, m, dl, dr); Framed(t') && PageOk(rank, t', c)
  {
    hide Sorted, IsKid;
    var t' := InternalCut(rank, t, p, r, m, dl, dr);
    CutFrame(rank, t, p, r, m, dl, dr);
    CutKids(rank, t, p, r, m, dr);
    SameNodeOk(rank, t.pages[c], t'.pages[c], t.info[c]);
    if !t.pages[c].leaf {
      forall j | 0 <= j <= |t.pages[c].entries| ensures KidKept(t, t', c, j) {
        assert KidOk(rank, t, c, j);
      }
    }
    FrameKids(rank, t, t', c);
    if c != t.root { CutAttached(rank, t, p, r, m, dl, dr, c); }
  }

  lemma CutAttached(rank: Rank, t: Tree, p: PageId, r: PageId, m: nat, dl: nat, dr: nat, c: PageId)
    requires PromoteReady(rank, t, p, r, m) && c != p && c in t.pages && c != t.root && AttachedOk(t, c)
    ensures AttachedOk(InternalCut(rank, t, p, r, m, dl, dr), c)
  {
    hide Sorted, NodeOk, ChainOk, KidsOk;
    var t' := InternalCut(rank, t, p, r, m, dl, dr);
    CutFrame(rank, t, p, r, m, dl, dr);
    CutKids(rank, t, p, r, m, dr);
    var q := t.pages[c].parent;
    if q == p {
      var i :| 0 <= i <= |t.pages[p].entries| && Kid(t.pages[p], i) == c;
      if i > m {
        assert Kid(t'.pages[r], i - m - 1) == c;
      } else {
        assert Kid(t'.pages[p], i) == c;
      }
    } else {
      SameKidsSame(t.pages[q], t'.pages[q], c);
    }
  }

  lemma InternalCutShape(rank: Rank, t: Tree, p: PageId, r: PageId, m: nat, dl: nat, dr: nat)
    requires Shape(rank, t) && t.pend == Whole && p in t.pages && !t.pages[p].leaf
    requires r !in t.pages && r != NO_PAGE && m < |t.pages[p].entries|
    ensures Shape(rank, InternalCut(rank, t, p, r, m, dl, dr))
  {
    hide PageOk, IsKid;
    var t' := InternalCut(rank, t, p, r, m, dl, dr);
    assert PageOk(rank, t, p);
    CutFrame(rank, t, p, r, m, dl, dr);
    if p != t.root { ParentThere(rank, t, p); }
    forall c | c in t'.pages ensures PageOk(rank, t', c) {
      if c == p {
        CutLeft(rank, t, p, r, m, dl, dr);
      } else if c == r {
        CutRight(rank, t, p, r, m, dl, dr);
      } else {
        assert PageOk(rank, t, c);
        CutOther(rank, t, p, r, m, dl, dr, c);
      }
    }
  }

  // ------------------------------------------------------------------ new root

  /** A fresh root over the two halves of the old one. */
  function Grown(t: Tree, r: PageId, sep: Key): Tree
    requires t.pend.Split? && t.pend.left in t.pages && t.pend.right in t.pages
    requires t.pend.left in t.info && t.pend.right in t.info
  {
    var Split(a, b) := t.pend;
    var pages := t.pages[r := Node(false, NO_PAGE, NO_PAGE, NO_PAGE, a, [KP(sep, b)], 0)];
    Tree(pages[a := pages[a].(parent := r)][b := pages[b].(parent := r)],
         t.info[r := Info(t.info[a].level + 1, t.info[a].lo, t.info[b].hi)], r, Whole)
  }

  ghost predicate GrowReady(rank: Rank, t: Tree, r: PageId, sep: Key) {
    && Framed(t) && t.pend.Split? && t.pend.left == t.root
    && PageOk(rank, t, t.pend.left) && PageOk(rank, t, t.pend.right)
    && r !in t.pages && r != NO_PAGE && rank(sep) == t.info[t.root].hi
  }

  lemma GrownFrame(rank: Rank, t: Tree, r: PageId, sep: Key)
    requires GrowReady(rank, t, r, sep)
    ensures var t' := Grown(t, r, sep);
            var Split(a, b) := t.pend;
            && Framed(t') && t'.pages.Keys == t.pages.Keys + {r}
            && t'.pages[r] == Node(false, NO_PAGE, NO_PAGE, NO_PAGE, a, [KP(sep, b)], 0)
            && (forall c :: c in t.pages ==>
                              t'.pages[c] == if c == a || c == b then t.pages[c].(parent := r) else t.pages[c])
            && (forall c :: c in t.pages ==> t'.info[c] == t.info[c])
            && t'.info[r] == Info(t.info[a].level + 1, 0.0, 1.0)
  {
    hide PageOk;
    var t' := Grown(t, r, sep);
    assert t'.pages.Keys == t'.info.Keys == t.pages.Keys + {r};
  }

  lemma GrownRoot(rank: Rank, t: Tree, r: PageId, sep: Key)
    requires GrowReady(rank, t, r, sep)
    ensures Framed(Grown(t, r, sep)) && PageOk(rank, Grown(t, r, sep), r)
  {
    var t' := Grown(t, r, sep);
    GrownFrame(rank, t, r, sep);
    assert Kid(t'.pages[r], 0) == t.pend.left && Kid(t'.pages[r], 1) == t.pend.right;
    assert KidOk(rank, t', r, 0) && KidOk(rank, t', r, 1);
  }

  lemma GrownOther(rank: Rank, t: Tree, r: PageId, sep: Key, c: PageId)
    requires GrowReady(rank, t, r, sep) && c in t.pages && PageOk(rank, t, c)
    ensures Framed(Grown(t, r, sep)) && PageOk(rank, Grown(t, r, sep), c)
  {
    hide Sorted;
    var t' := Grown(t, r, sep);
    GrownFrame(rank, t, r, sep);
    SameNodeOk(rank, t.pages[c], t'.pages[c], t.info[c]);
    if !t.pages[c].leaf {
      forall j | 0 <= j <= |t.pages[c].entries| ensures KidKept(t, t', c, j) {
        assert KidOk(rank, t, c, j);
      }
    }
    FrameKids(rank, t, t', c);
    assert Kid(t'.pages[r], 0) == t.pend.left && Kid(t'.pages[r], 1) == t.pend.right;
    if c != t.pend.left && c != t.pend.right { FrameAttached(t, t', c); }
  }

  lemma GrownShape(rank: Rank, t: Tree, r: PageId, sep: Key)
    requires Shape(rank, t) && t.pend.Split? && t.pend.left == t.root
    requires r !in t.pages && r != NO_PAGE && rank(sep) == t.info[t.root].hi
    ensures Shape(rank, Grown(t, r, sep))
  {
    hide PageOk;
    var t' := Grown(t, r, sep);
    assert PageOk(rank, t, t.pend.left) && PageOk(rank, t, t.pend.right);
    GrownFrame(rank, t, r, sep);
    forall c | c in t'.pages ensures PageOk(rank, t', c) {
      if c == r {
        GrownRoot(rank, t, r, sep);
      } else {
        assert PageOk(rank, t, c);
        GrownOther(rank, t, r, sep, c);
      }
    }
  }
}
