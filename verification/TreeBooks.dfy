/** What every state of the B+Tree keeps besides its shape: page sizes, bindings, page
    ownership and the path back to the root. */
module TreeBooks {
  import opened Base
  import opened Nodes
  import opened Trees
  import opened TreeEdits

  // ----------------------------------------------------------- what is kept

  /** A page's live and dead bytes fit, and no leaf cell costs more than `lim`; a separator may
      cost two bytes more than the leaf cell it comes from. With `lim == USABLE` the second part
      says nothing. */
  ghost predicate NodeSized(lim: nat, n: Node) {
    Used(n) <= USABLE && AllWithin(n.entries, if n.leaf then lim else lim + 2)
  }

  ghost predicate Sized(lim: nat, pages: map<PageId, Node>) {
    forall p :: p in pages ==> NodeSized(lim, pages[p])
  }

  ghost predicate HasBinding(pages: map<PageId, Node>, e: Entry) {
    exists p :: p in pages && pages[p].leaf && e in pages[p].entries
  }

  /** The leaves hold exactly the bindings of `m`. */
  ghost predicate Stores(pages: map<PageId, Node>, m: map<Key, Value>) {
    forall e :: HasBinding(pages, e) <==> e.KV? && Lookup(m, e.key) == Some(e.val)
  }

  /** Page 0, the free list and the live pages share out the file without overlap. */
  ghost predicate AllocOk(live: set<PageId>, free: seq<PageId>, numPages: nat) {
    && numPages >= 1
    && (forall p :: p in live ==> 1 <= p < numPages && p !in free)
    && (forall p :: p in free ==> 1 <= p < numPages)
    && (forall i, j :: 0 <= i < j < |free| ==> free[i] != free[j])
    && (forall p :: 1 <= p < numPages ==> p in live || p in free)
  }

  /** `crumbs` are the ancestors of `p`, root first. */
  ghost predicate PathTo(t: Tree, crumbs: seq<PageId>, p: PageId) {
    if crumbs == [] then p == t.root
    else
      var q := crumbs[|crumbs| - 1];
      && p in t.pages && q in t.pages && p in t.info && q in t.info
      && p != t.root && t.pages[p].parent == q && t.info[q].level == t.info[p].level + 1
      && PathTo(t, crumbs[..|crumbs| - 1], q)
  }

  lemma {:induction false} PathFrame(t: Tree, t': Tree, crumbs: seq<PageId>, p: PageId)
    requires PathTo(t, crumbs, p) && p in t.info && t'.root == t.root
    requires forall c :: c in t.pages && c in t.info && t.info[c].level >= t.info[p].level ==>
                           c in t'.pages && c in t'.info && t'.pages[c].parent == t.pages[c].parent
                           && t'.info[c].level == t.info[c].level
    ensures PathTo(t', crumbs, p)
    decreases |crumbs|
  {
    if crumbs != [] {
      PathFrame(t, t', crumbs[..|crumbs| - 1], crumbs[|crumbs| - 1]);
    }
  }

  lemma PathStart(t: Tree)
    ensures PathTo(t, [], t.root)
  {
  }

  lemma PathSnoc(t: Tree, crumbs: seq<PageId>, p: PageId, c: PageId)
    requires PathTo(t, crumbs, p) && c in t.pages && p in t.pages && c in t.info && p in t.info
    requires c != t.root && t.pages[c].parent == p && t.info[p].level == t.info[c].level + 1
    ensures PathTo(t, crumbs + [p], c)
  {
    assert (crumbs + [p])[..|crumbs|] == crumbs;
  }

  /** Ancestors are on higher levels. */
  lemma {:induction false} PathLevels(t: Tree, crumbs: seq<PageId>, p: PageId)
    requires PathTo(t, crumbs, p) && p in t.info
    ensures forall i :: 0 <= i < |crumbs| ==>
              crumbs[i] in t.pages && crumbs[i] in t.info && t.info[crumbs[i]].level > t.info[p].level
    decreases |crumbs|
  {
    if crumbs != [] {
      var q, init := crumbs[|crumbs| - 1], crumbs[..|crumbs| - 1];
      PathLevels(t, init, q);
      forall i | 0 <= i < |crumbs|
        ensures crumbs[i] in t.pages && crumbs[i] in t.info && t.info[crumbs[i]].level > t.info[p].level
      {
        if i < |init| { assert init[i] == crumbs[i]; }
      }
    }
  }

  lemma BindingsFrame(pages: map<PageId, Node>, pages': map<PageId, Node>, m: map<Key, Value>)
    requires Stores(pages, m)
    requires forall p :: p in pages ==> p in pages' && pages'[p].leaf == pages[p].leaf
                                        && (pages[p].leaf ==> pages'[p].entries == pages[p].entries)
    requires forall p :: p in pages' && p !in pages ==> !pages'[p].leaf
    ensures Stores(pages', m)
  {
    forall e ensures HasBinding(pages', e) <==> HasBinding(pages, e) {
      if HasBinding(pages, e) {
        var p :| p in pages && pages[p].leaf && e in pages[p].entries;
        assert p in pages';
      }
      if HasBinding(pages', e) {
        var p :| p in pages' && pages'[p].leaf && e in pages'[p].entries;
        assert p in pages;
      }
    }
  }

  /** Only the leaf responsible for a key can hold it. */
  lemma OnlyHere(rank: Rank, t: Tree, p: PageId, k: Key, e: Entry)
    requires Shape(rank, t) && t.pend == Whole && p in t.pages && t.pages[p].leaf && Covers(rank, t.info[p], k)
    requires HasBinding(t.pages, e) && e.key == k
    ensures e in t.pages[p].entries
  {
    hide KidsOk, AttachedOk, ChainOk, Sorted;
    var q :| q in t.pages && t.pages[q].leaf && e in t.pages[q].entries;
    assert PageOk(rank, t, q) && PageOk(rank, t, p);
    UniqueOnLevel(rank, t, p, q, k);
  }

  /** Rebinding `k` in its leaf, alone or together with a fresh sibling leaf, rebinds it in the tree. */
  lemma StoresOverwrite(rank: Rank, t: Tree, p: PageId, k: Key, v: Value, m: map<Key, Value>,
                        pages': map<PageId, Node>, es': seq<Entry>)
    requires Shape(rank, t) && t.pend == Whole && p in t.pages && t.pages[p].leaf && Covers(rank, t.info[p], k)
    requires Stores(t.pages, m) && Overwrites(t.pages[p].entries, es', k, v)
    requires forall q :: q in t.pages && q != p ==> q in pages' && pages'[q].leaf == t.pages[q].leaf
                                                    && pages'[q].entries == t.pages[q].entries
    requires forall e :: e in es' <==> exists q :: q in pages' && (q == p || q !in t.pages) && pages'[q].leaf && e in pages'[q].entries
    ensures Stores(pages', m[k := v])
  {
    hide Shape, Covers;
    forall e ensures HasBinding(pages', e) <==> e.KV? && Lookup(m[k := v], e.key) == Some(e.val) {
      if e in es' {
        var q :| q in pages' && (q == p || q !in t.pages) && pages'[q].leaf && e in pages'[q].entries;
        assert HasBinding(pages', e);
        if e != KV(k, v) { assert HasBinding(t.pages, e); }
      } else if HasBinding(pages', e) {
        var q :| q in pages' && pages'[q].leaf && e in pages'[q].entries;
        assert q in t.pages && q != p;
        assert HasBinding(t.pages, e);
        if e.key == k { ElsewhereNot(rank, t, p, q, k, e); }
      }
    }
  }

  /** The same when `k` is dropped instead. */
  lemma StoresWithout(rank: Rank, t: Tree, p: PageId, k: Key, m: map<Key, Value>,
                      pages': map<PageId, Node>, es': seq<Entry>)
    requires Shape(rank, t) && t.pend == Whole && p in t.pages && t.pages[p].leaf && Covers(rank, t.info[p], k)
    requires Stores(t.pages, m) && Drops(t.pages[p].entries, es', k)
    requires forall q :: q in t.pages && q != p ==> q in pages' && pages'[q].leaf == t.pages[q].leaf
                                                    && pages'[q].entries == t.pages[q].entries
    requires forall e :: e in es' <==> exists q :: q in pages' && (q == p || q !in t.pages) && pages'[q].leaf && e in pages'[q].entries
    ensures Stores(pages', m - {k})
  {
    hide Shape, Covers;
    forall e ensures HasBinding(pages', e) <==> HasBinding(t.pages, e) && e.key != k {
      if HasBinding(t.pages, e) && e.key != k {
        var q :| q in t.pages && t.pages[q].leaf && e in t.pages[q].entries;
        if q == p {
          assert e in es';
        } else {
          assert q in pages';
        }
      }
      if HasBinding(pages', e) {
        var q :| q in pages' && pages'[q].leaf && e in pages'[q].entries;
        if q == p || q !in t.pages {
          assert e in es';
          assert HasBinding(t.pages, e);
        } else {
          assert HasBinding(t.pages, e);
          if e.key == k { ElsewhereNot(rank, t, p, q, k, e); }
        }
      }
    }
  }

  lemma ElsewhereNot(rank: Rank, t: Tree, p: PageId, q: PageId, k: Key, e: Entry)
    requires Shape(rank, t) && t.pend == Whole && p in t.pages && t.pages[p].leaf && Covers(rank, t.info[p], k)
    requires q in t.pages && t.pages[q].leaf && e in t.pages[q].entries && e.key == k
    ensures q == p
  {
    assert PageOk(rank, t, q) && PageOk(rank, t, p);
    UniqueOnLevel(rank, t, p, q, k);
  }

  /** Where the separator of a pending split belongs in the parent. */
  lemma SeparatorSlot(rank: Rank, t: Tree, q: PageId, sep: Key) returns (i: nat)
    requires Shape(rank, t) && t.pend.Split? && t.pend.left != t.root && q == t.pages[t.pend.left].parent
    requires rank(sep) == t.info[t.pend.left].hi
    ensures q in t.pages && !t.pages[q].leaf && i <= |t.pages[q].entries| && Kid(t.pages[q], i) == t.pend.left
    ensures LowerBound(rank, t.pages[q].entries, sep) == i
  {
    hide ChainOk;
    var Split(p, r) := t.pend;
    assert PageOk(rank, t, p) && PageOk(rank, t, r);
    i :| 0 <= i <= |t.pages[q].entries| && Kid(t.pages[q], i) == p;
    assert PageOk(rank, t, q);
    assert KidOk(rank, t, q, i);
    LowerBoundIs(rank, t.pages[q].entries, sep, i);
  }

  // ---------------------------------------------------------------- small facts

  lemma HalvesSorted(rank: Rank, es: seq<Entry>, i: nat)
    requires Sorted(rank, es) && i <= |es|
    ensures Sorted(rank, es[..i]) && Sorted(rank, es[i..])
  {
  }

  lemma HalvesWithin(es: seq<Entry>, i: nat, limit: nat)
    requires AllWithin(es, limit) && i <= |es|
    ensures AllWithin(es[..i], limit) && AllWithin(es[i..], limit)
  {
  }

  lemma InsertedWithin(es: seq<Entry>, i: nat, e: Entry, limit: nat)
    requires AllWithin(es, limit) && i <= |es| && Cost(e) <= limit
    ensures AllWithin(Inserted(es, i, e), limit)
  {
    InsertedEntries(es, i, e);
  }

  lemma SubWithin(es: seq<Entry>, es': seq<Entry>, limit: nat)
    requires AllWithin(es, limit) && forall e :: e in es' ==> e in es || Cost(e) <= limit
    ensures AllWithin(es', limit)
  {
    forall i | 0 <= i < |es'| ensures Cost(es'[i]) <= limit { assert es'[i] in es'; }
  }

  /** A sorted run of leaf cells within bounds is a proper leaf for those bounds. */
  lemma LeafNodeOk(rank: Rank, n: Node, es: seq<Entry>, lo: real, hi: real)
    requires n.leaf && Sorted(rank, es) && lo < hi
    requires forall e :: e in es ==> e.KV? && lo <= rank(e.key) < hi
    ensures NodeOk(rank, n.(entries := es), Info(0, lo, hi))
  {
    forall i | 0 <= i < |es| ensures es[i].KV? && lo <= rank(es[i].key) < hi { assert es[i] in es; }
  }

  lemma LeafEntries(rank: Rank, t: Tree, p: PageId)
    requires Shape(rank, t) && p in t.pages && t.pages[p].leaf
    ensures t.info[p].lo < t.info[p].hi && t.info[p].level == 0 && Sorted(rank, t.pages[p].entries)
    ensures forall e :: e in t.pages[p].entries ==> e.KV? && t.info[p].lo <= rank(e.key) < t.info[p].hi
  {
    hide KidsOk, AttachedOk, ChainOk;
    assert PageOk(rank, t, p);
  }

  lemma FramedTree(rank: Rank, t: Tree)
    requires Shape(rank, t)
    ensures Framed(t)
  {
    hide PageOk;
  }

  lemma SortedPage(rank: Rank, t: Tree, p: PageId)
    requires Shape(rank, t) && p in t.pages
    ensures Sorted(rank, t.pages[p].entries)
    ensures forall e :: e in t.pages[p].entries ==> (e.KV? <==> t.pages[p].leaf)
  {
    assert PageOk(rank, t, p);
  }

  lemma NotRoot(rank: Rank, t: Tree, p: PageId, c: PageId)
    requires Shape(rank, t) && p in t.pages && c in t.pages && t.pages[c].parent == p
    ensures c != t.root
  {
  }
}
