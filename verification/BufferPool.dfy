/**
 * The LRU page cache.  `Cache` is the pool's bookkeeping as a value; the lemmas say what
 * each elementary move does to it, and the class performs the moves in place.
 */
module Caches {
  import opened Base
  import opened Storage

  const POOL_SIZE := 64

  datatype Frame = Frame(page: Page, pins: nat, dirty: bool, inUse: bool)

  const CLEARED_FRAME := Frame(ZeroPage(), 0, false, false)

  /** Frames, page table, free frames (popped at the back) and frames in use, most recent first. */
  datatype Cache = Cache(fs: seq<Frame>, table: map<int, int>, free: seq<int>, lru: seq<int>)

  predicate Distinct(s: seq<int>) {
    forall i, j :: 0 <= i < j < |s| ==> s[i] != s[j]
  }

  predicate Frameable(i: int) { 0 <= i < POOL_SIZE }

  /** Every frame is in exactly one place: free, in use, lost, or being handed over. */
  ghost predicate Placed(c: Cache, lost: set<int>, limbo: set<int>)
    requires |c.fs| == POOL_SIZE
  {
    && (forall i :: i in c.free ==> Frameable(i) && !c.fs[i].inUse && i !in lost && i !in limbo)
    && (forall i :: i in lost ==> Frameable(i) && !c.fs[i].inUse && i !in limbo)
    && (forall i :: i in limbo ==> Frameable(i) && !c.fs[i].inUse)
    && (forall i :: Frameable(i) && !c.fs[i].inUse ==> i in c.free || i in lost || i in limbo)
  }

  /** The page table and the frames in use name each other. */
  ghost predicate TableOk(fs: seq<Frame>, table: map<int, int>)
    requires |fs| == POOL_SIZE
  {
    && (forall p :: p in table ==> Frameable(table[p]) && fs[table[p]].inUse && fs[table[p]].page.id == p)
    && (forall i :: Frameable(i) && fs[i].inUse ==> fs[i].page.id in table && table[fs[i].page.id] == i)
  }

  ghost predicate LruOk(fs: seq<Frame>, lru: seq<int>)
    requires |fs| == POOL_SIZE
  {
    && Distinct(lru)
    && (forall i :: i in lru ==> Frameable(i) && fs[i].inUse)
    && (forall i :: Frameable(i) && fs[i].inUse ==> i in lru)
  }

  ghost predicate Books(c: Cache, lost: set<int>, limbo: set<int>) {
    |c.fs| == POOL_SIZE && Distinct(c.free) && Placed(c, lost, limbo) && TableOk(c.fs, c.table) && LruOk(c.fs, c.lru)
  }

  function Without(s: seq<int>, x: int): (r: seq<int>)
    ensures x !in r
    ensures forall y :: y in r <==> y in s && y != x
  {
    if s == [] then [] else if s[0] == x then Without(s[1..], x) else [s[0]] + Without(s[1..], x)
  }

  lemma {:induction false} WithoutDistinct(s: seq<int>, x: int)
    requires Distinct(s)
    ensures Distinct(Without(s, x))
  {
    if s != [] {
      assert s[0] !in s[1..];
      WithoutDistinct(s[1..], x);
      var r := Without(s[1..], x);
      assert forall j :: 0 <= j < |r| ==> r[j] in r;
    }
  }

  function Touched(lru: seq<int>, i: int): seq<int> { [i] + Without(lru, i) }

  lemma TouchBooks(c: Cache, i: int, lost: set<int>, limbo: set<int>)
    requires Books(c, lost, limbo) && Frameable(i) && c.fs[i].inUse
    ensures Books(c.(lru := Touched(c.lru, i)), lost, limbo)
  {
    hide TableOk, Without;
    WithoutDistinct(c.lru, i);
  }

  /** Changing a frame's pins, dirtiness or page bytes disturbs no bookkeeping. */
  lemma EditBooks(c: Cache, i: int, f: Frame, lost: set<int>, limbo: set<int>)
    requires Books(c, lost, limbo) && Frameable(i) && f.inUse == c.fs[i].inUse && f.page.id == c.fs[i].page.id
    ensures Books(c.(fs := c.fs[i := f]), lost, limbo)
  {
  }

  function Evicted(c: Cache, i: int): Cache
    requires |c.fs| == POOL_SIZE && Frameable(i)
  {
    c.(fs := c.fs[i := CLEARED_FRAME], table := c.table - {c.fs[i].page.id}, lru := Without(c.lru, i))
  }

  lemma EvictBooks(c: Cache, i: int, lost: set<int>)
    requires Books(c, lost, {}) && Frameable(i) && c.fs[i].inUse
    ensures Books(Evicted(c, i), lost, {i})
  {
    hide Without;
    WithoutDistinct(c.lru, i);
  }

  function Filled(c: Cache, i: int, f: Frame): Cache
    requires |c.fs| == POOL_SIZE && Frameable(i)
  {
    c.(fs := c.fs[i := f], table := c.table[f.page.id := i], lru := Touched(c.lru, i))
  }

  lemma FillBooks(c: Cache, i: int, f: Frame, lost: set<int>)
    requires Books(c, lost, {i}) && f.inUse && f.page.id !in c.table
    ensures Books(Filled(c, i, f), lost, {})
  {
    hide Without;
    assert i in {i};
    WithoutDistinct(c.lru, i);
  }

  lemma PopBooks(c: Cache, lost: set<int>)
    requires Books(c, lost, {}) && c.free != []
    ensures Books(c.(free := c.free[..|c.free| - 1]), lost, {c.free[|c.free| - 1]})
  {
    hide TableOk, LruOk;
    var n := |c.free| - 1;
    assert forall i :: i in c.free <==> i in c.free[..n] || i == c.free[n];
  }

  /** Losing the frame that was being handed over. */
  lemma LoseBooks(c: Cache, i: int, lost: set<int>)
    requires Books(c, lost, {i})
    ensures i !in lost && Books(c, lost + {i}, {})
  {
    hide TableOk, LruOk, Distinct;
    assert i in {i};
  }

  lemma {:induction false} DistinctSize(s: seq<int>)
    requires Distinct(s)
    ensures |set x | x in s| == |s|
  {
    if s != [] {
      var n := |s| - 1;
      DistinctSize(s[..n]);
      assert (set x | x in s) == (set x | x in s[..n]) + {s[n]};
      assert s[n] !in s[..n];
    }
  }

  ghost function FramesBelow(n: nat): (r: set<int>)
    ensures |r| == n && forall i :: i in r <==> 0 <= i < n
  {
    if n == 0 then {} else FramesBelow(n - 1) + {n - 1}
  }

  /** Free, in-use and lost frames always total the pool, and residents match the frames in use. */
  lemma FramesAreConserved(c: Cache, lost: set<int>)
    requires Books(c, lost, {})
    ensures |c.free| + |c.lru| + |lost| == POOL_SIZE
    ensures |c.table| == |c.lru|
  {
    hide FramesBelow, TableOk;
    ResidentsAreUsed(c);
    DistinctSize(c.free);
    DistinctSize(c.lru);
    var free, used := (set i | i in c.free), (set i | i in c.lru);
    Thirds(FramesBelow(POOL_SIZE), free, used, lost) by {
      forall i | i in FramesBelow(POOL_SIZE) ensures i in c.free || i in c.lru || i in lost { assert Frameable(i); }
    }
  }

  lemma Thirds(all: set<int>, a: set<int>, b: set<int>, c: set<int>)
    requires all == a + b + c && a !! b && a !! c && b !! c
    ensures |all| == |a| + |b| + |c|
  {
  }

  lemma ResidentsAreUsed(c: Cache)
    requires |c.fs| == POOL_SIZE && TableOk(c.fs, c.table) && LruOk(c.fs, c.lru)
    ensures |c.table| == |c.lru|
  {
    assert forall a :: 0 <= a < |c.lru| ==> c.lru[a] in c.lru && Frameable(c.lru[a]);
    var ids := seq(|c.lru|, a requires 0 <= a < |c.lru| => c.fs[c.lru[a]].page.id);
    assert forall a :: 0 <= a < |ids| ==> c.lru[a] in c.lru && c.table[ids[a]] == c.lru[a];
    DistinctSize(ids);
    forall p | p in c.table ensures p in ids {
      var a :| 0 <= a < |c.lru| && c.lru[a] == c.table[p];
      assert ids[a] == p;
    }
    assert c.table.Keys == set x | x in ids;
  }

  // What the pages mean, wherever they are.

  ghost predicate Locatable(fs: seq<Frame>, table: map<int, int>, pages: map<int, Page>, live: set<int>) {
    forall p :: p in live ==> if p in table then 0 <= table[p] < |fs| else p in pages
  }

  ghost function Located(fs: seq<Frame>, table: map<int, int>, pages: map<int, Page>, p: int): Page
  {
    if p in table && 0 <= table[p] < |fs| then fs[table[p]].page else if p in pages then pages[p] else ZeroPage()
  }

  ghost function Logical(fs: seq<Frame>, table: map<int, int>, pages: map<int, Page>, live: set<int>): (m: map<int, Page>)
    ensures m.Keys == live
  {
    map p | p in live :: Located(fs, table, pages, p)
  }

  /** Clean resident pages equal their disk copy, except while a caller is still editing them. */
  ghost predicate Backed(fs: seq<Frame>, table: map<int, int>, pages: map<int, Page>, live: set<int>, unsaved: set<int>)
  {
    && Locatable(fs, table, pages, live)
    && table.Keys <= live
    && (forall p :: p in table ==> 0 <= table[p] < |fs|)
    && (forall p :: p in live && p !in table ==> pages[p].id == p)
    && (forall p :: p in unsaved ==> p in table && fs[table[p]].pins > 0)
    && (forall p :: p in table && !fs[table[p]].dirty && p !in unsaved ==> p in pages && pages[p] == fs[table[p]].page)
  }

  predicate Within(s: seq<int>, n: nat) { forall i :: i in s ==> 0 <= i < n }

  /** The frame the scan from the cold end picks, if any. */
  function Victim(fs: seq<Frame>, lru: seq<int>): (v: Option<int>)
    requires Within(lru, |fs|)
    ensures v.Some? <==> exists i :: i in lru && fs[i].pins == 0
    ensures v.Some? ==> v.value in lru && fs[v.value].pins == 0
  {
    if lru == [] then None
    else
      var init, last := lru[..|lru| - 1], lru[|lru| - 1];
      assert lru == init + [last] && last in lru && forall i :: i in lru <==> i in init || i == last;
      if fs[last].pins == 0 then Some(last) else Victim(fs, init)
  }

  /** Later entries of the recency list were last used earlier. */
  ghost predicate Recency(lru: seq<int>, lastUse: map<int, nat>, clock: nat) {
    && (forall a :: 0 <= a < |lru| ==> lru[a] in lastUse && lastUse[lru[a]] < clock)
    && (forall a, b :: 0 <= a < b < |lru| ==> lru[a] in lastUse && lru[b] in lastUse && lastUse[lru[a]] > lastUse[lru[b]])
  }

  lemma {:induction false} RecencyWithout(lru: seq<int>, i: int, lastUse: map<int, nat>, clock: nat)
    requires Recency(lru, lastUse, clock)
    ensures Recency(Without(lru, i), lastUse, clock)
  {
    if lru != [] {
      RecencyWithout(lru[1..], i, lastUse, clock);
      var r := Without(lru[1..], i);
      forall b | 0 <= b < |r| ensures r[b] in lastUse && lastUse[lru[0]] > lastUse[r[b]] {
        assert r[b] in r && r[b] in lru[1..];
      }
    }
  }

  lemma TouchRecency(lru: seq<int>, i: int, lastUse: map<int, nat>, clock: nat)
    requires Recency(lru, lastUse, clock)
    ensures Recency(Touched(lru, i), lastUse[i := clock], clock + 1)
  {
    hide Without;
    RecencyWithout(lru, i, lastUse, clock);
    var r := Without(lru, i);
    assert forall b :: 0 <= b < |r| ==> r[b] in r;
  }

  /** The victim is the unpinned frame that was used longest ago. */
  lemma {:induction false} VictimIsOldest(fs: seq<Frame>, lru: seq<int>, lastUse: map<int, nat>, clock: nat)
    requires Within(lru, |fs|)
    requires Recency(lru, lastUse, clock) && Victim(fs, lru).Some?
    ensures var v := Victim(fs, lru).value;
      && v in lastUse
      && (forall i :: i in lru && fs[i].pins == 0 ==> i in lastUse && lastUse[v] <= lastUse[i])
  {
    var n := |lru| - 1;
    assert lru[n] in lru;
    if fs[lru[n]].pins == 0 {
      forall i | i in lru && fs[i].pins == 0 ensures i in lastUse && lastUse[lru[n]] <= lastUse[i] {
        var a :| 0 <= a < |lru| && lru[a] == i;
      }
    } else {
      assert forall i :: i in lru <==> i in lru[..n] || i == lru[n];
      VictimIsOldest(fs, lru[..n], lastUse, clock);
    }
  }

  // Moves that keep the meaning of every page.

  lemma BackedLocates(fs: seq<Frame>, table: map<int, int>, pages: map<int, Page>, live: set<int>, unsaved: set<int>)
    requires Backed(fs, table, pages, live, unsaved)
    ensures Locatable(fs, table, pages, live)
    ensures forall p :: p in table ==> p in live && 0 <= table[p] < |fs|
  {
  }

  /** Eviction with write-back keeps what every page means. */
  lemma EvictKeeps(c: Cache, i: int, pages: map<int, Page>, pages': map<int, Page>, live: set<int>, unsaved: set<int>,
                   lost: set<int>)
    requires Books(c, lost, {}) && Frameable(i) && c.fs[i].inUse && c.fs[i].pins == 0
    requires Backed(c.fs, c.table, pages, live, unsaved)
    requires pages' == if c.fs[i].dirty then pages[c.fs[i].page.id := c.fs[i].page] else pages
    ensures var e := Evicted(c, i);
      && Backed(e.fs, e.table, pages', live, unsaved)
      && Logical(e.fs, e.table, pages', live) == Logical(c.fs, c.table, pages, live)
  {
    hide Placed, LruOk, Distinct, Without;
    var e, p := Evicted(c, i), c.fs[i].page.id;
    assert forall q :: q in e.table ==> q in c.table && e.table[q] == c.table[q] && e.fs[e.table[q]] == c.fs[c.table[q]];
    assert pages'[p] == c.fs[i].page;
  }

  lemma LimboIsUnmapped(c: Cache, i: int, lost: set<int>)
    requires Books(c, lost, {i})
    ensures Frameable(i) && |c.fs| == POOL_SIZE && forall p :: p in c.table ==> Frameable(c.table[p]) && c.table[p] != i
  {
    hide LruOk, Distinct;
    assert i in {i};
  }

  /** Loading a page from disk changes nothing but where it is. */
  lemma FillKeeps(c: Cache, i: int, p: int, pages: map<int, Page>, live: set<int>, unsaved: set<int>, lost: set<int>)
    requires Books(c, lost, {i}) && p in live && p !in c.table
    requires Backed(c.fs, c.table, pages, live, unsaved)
    ensures p in pages
    ensures |c.fs| == POOL_SIZE && Frameable(i)
    ensures var e := Filled(c, i, Frame(pages[p], 1, false, true));
      && Backed(e.fs, e.table, pages, live, unsaved)
      && Logical(e.fs, e.table, pages, live) == Logical(c.fs, c.table, pages, live)
  {
    hide Books, Without;
    LimboIsUnmapped(c, i, lost);
    var e := Filled(c, i, Frame(pages[p], 1, false, true));
    assert forall q :: q in c.table ==> e.table[q] == c.table[q] && e.fs[e.table[q]] == c.fs[c.table[q]];
  }

  /** A fresh page joins the live pages; every other page keeps its meaning. */
  lemma NewKeeps(c: Cache, i: int, p: int, page: Page, pages: map<int, Page>, live: set<int>, unsaved: set<int>, lost: set<int>)
    requires Books(c, lost, {i}) && p !in live && page.id == p
    requires Backed(c.fs, c.table, pages, live, unsaved)
    ensures |c.fs| == POOL_SIZE && Frameable(i)
    ensures var e := Filled(c, i, Frame(page, 1, true, true));
      && Backed(e.fs, e.table, pages, live + {p}, unsaved)
      && Logical(e.fs, e.table, pages, live + {p}) == Logical(c.fs, c.table, pages, live)[p := page]
  {
    hide Books, Without;
    LimboIsUnmapped(c, i, lost);
    var e := Filled(c, i, Frame(page, 1, true, true));
    assert forall q :: q in c.table ==> e.table[q] == c.table[q] && e.fs[e.table[q]] == c.fs[c.table[q]];
  }

  /** Dropping an unpinned resident page, dirty or not, keeps every other page. */
  lemma DiscardKeeps(c: Cache, i: int, pages: map<int, Page>, live: set<int>, unsaved: set<int>, lost: set<int>)
    requires Books(c, lost, {}) && Frameable(i) && c.fs[i].inUse && c.fs[i].pins == 0
    requires Backed(c.fs, c.table, pages, live, unsaved)
    ensures var e, p := Evicted(c, i), c.fs[i].page.id;
      && Backed(e.fs, e.table, pages, live - {p}, unsaved)
      && Logical(e.fs, e.table, pages, live - {p}) == Logical(c.fs, c.table, pages, live) - {p}
  {
    hide Placed, LruOk, Distinct, Without;
    var e := Evicted(c, i);
    assert forall q :: q in e.table ==> q in c.table && e.table[q] == c.table[q] && e.fs[e.table[q]] == c.fs[c.table[q]];
  }

  /** Only the disk copies of live pages matter. */
  lemma DiskAgrees(c: Cache, pages: map<int, Page>, pages': map<int, Page>, live: set<int>, unsaved: set<int>)
    requires Backed(c.fs, c.table, pages, live, unsaved)
    requires forall p :: p in live && p in pages ==> p in pages' && pages'[p] == pages[p]
    ensures Backed(c.fs, c.table, pages', live, unsaved)
    ensures Logical(c.fs, c.table, pages', live) == Logical(c.fs, c.table, pages, live)
  {
  }

  /** Writing a resident page's content to disk and marking it clean. */
  lemma FlushKeeps(c: Cache, p: int, pages: map<int, Page>, live: set<int>, unsaved: set<int>, lost: set<int>, fs': seq<Frame>)
    requires Books(c, lost, {}) && p in c.table && Backed(c.fs, c.table, pages, live, unsaved)
    requires fs' == c.fs[c.table[p] := c.fs[c.table[p]].(dirty := false)]
    ensures var pages' := pages[p := c.fs[c.table[p]].page];
      && Backed(fs', c.table, pages', live, unsaved - {p})
      && Logical(fs', c.table, pages', live) == Logical(c.fs, c.table, pages, live)
  {
    hide Placed, LruOk, Distinct;
    assert forall q :: q in c.table && q != p ==> c.table[q] != c.table[p];
  }

  /** A caller writes through its pointer, keeping the header's page id. */
  lemma EditKeeps(c: Cache, p: int, page: Page, pages: map<int, Page>, live: set<int>, unsaved: set<int>, lost: set<int>,
                  fs': seq<Frame>)
    requires Books(c, lost, {}) && p in c.table && Backed(c.fs, c.table, pages, live, unsaved)
    requires c.fs[c.table[p]].pins > 0 && fs' == c.fs[c.table[p] := c.fs[c.table[p]].(page := page)]
    ensures Backed(fs', c.table, pages, live, unsaved + {p})
      && Logical(fs', c.table, pages, live) == Logical(c.fs, c.table, pages, live)[p := page]
  {
    hide Placed, LruOk, Distinct;
    assert forall q :: q in c.table && q != p ==> c.table[q] != c.table[p];
  }

  /** Pins and dirtiness carry no meaning, provided unsaved edits stay pinned or become dirty. */
  lemma PinKeeps(c: Cache, p: int, pins: nat, dirty: bool, pages: map<int, Page>, live: set<int>,
                 unsaved: set<int>, unsaved': set<int>, lost: set<int>, fs': seq<Frame>)
    requires Books(c, lost, {}) && p in c.table && Backed(c.fs, c.table, pages, live, unsaved)
    requires fs' == c.fs[c.table[p] := c.fs[c.table[p]].(pins := pins, dirty := dirty)]
    requires c.fs[c.table[p]].dirty ==> dirty
    requires unsaved' == unsaved || (dirty && unsaved' == unsaved - {p})
    requires p in unsaved' ==> pins > 0
    ensures Backed(fs', c.table, pages, live, unsaved')
      && Logical(fs', c.table, pages, live) == Logical(c.fs, c.table, pages, live)
  {
    hide Placed, LruOk, Distinct;
    assert forall q :: q in c.table && q != p ==> c.table[q] != c.table[p];
  }

  lemma FreshCache(c: Cache, pages: map<int, Page>, live: set<int>)
    requires c == Cache(seq(POOL_SIZE, _ => CLEARED_FRAME), map[], seq(POOL_SIZE, i => i), [])
    requires forall p :: p in live ==> p in pages && pages[p].id == p
    ensures Books(c, {}, {}) && Backed(c.fs, c.table, pages, live, {}) && Pinned(c.fs, c.table) == map[]
    ensures Logical(c.fs, c.table, pages, live) == map p | p in live :: pages[p]
  {
    forall i | Frameable(i) ensures i in c.free { assert c.free[i] == i; }
  }

  /** How often each pinned page is pinned. */
  ghost function Pinned(fs: seq<Frame>, table: map<int, int>): map<int, nat> {
    map p | p in table && 0 <= table[p] < |fs| && fs[table[p]].pins > 0 :: fs[table[p]].pins
  }

  lemma PinnedKnown(fs: seq<Frame>, table: map<int, int>)
    ensures Pinned(fs, table).Keys <= table.Keys
  {
  }

  lemma EvictPins(c: Cache, i: int, lost: set<int>)
    requires Books(c, lost, {}) && Frameable(i) && c.fs[i].inUse && c.fs[i].pins == 0
    ensures var e := Evicted(c, i);
      && Pinned(e.fs, e.table) == Pinned(c.fs, c.table)
      && (forall p :: p in e.table ==> p in c.table && e.table[p] == c.table[p])
      && Pinned(e.fs, e.table).Keys <= e.table.Keys
  {
    hide Placed, LruOk, Distinct, Without;
    var e := Evicted(c, i);
    assert forall q :: q in e.table ==> q in c.table && e.table[q] == c.table[q] && e.fs[e.table[q]] == c.fs[c.table[q]];
  }

  /** Everything that discarding page `p` does to the pool. */
  lemma DiscardEffect(c: Cache, p: int, pages: map<int, Page>, live: set<int>, unsaved: set<int>, lost: set<int>, fs': seq<Frame>)
    requires Books(c, lost, {}) && Backed(c.fs, c.table, pages, live, unsaved)
    requires p in c.table && p !in Pinned(c.fs, c.table)
    requires Frameable(c.table[p]) && |c.fs| == POOL_SIZE && fs' == c.fs[c.table[p] := c.fs[c.table[p]].(dirty := false)]
    ensures var i, e := c.table[p], Evicted(c.(fs := fs'), c.table[p]);
      && c.fs[i].inUse && c.fs[i].pins == 0 && c.fs[i].page.id == p && i !in lost
      && Books(e, lost + {i}, {})
      && Backed(e.fs, e.table, pages, live - {p}, unsaved)
      && Logical(e.fs, e.table, pages, live - {p}) == Logical(c.fs, c.table, pages, live) - {p}
      && Pinned(e.fs, e.table) == Pinned(c.fs, c.table)
      && (forall q :: q in Pinned(c.fs, c.table) ==> q in e.table && q in c.table && e.table[q] == c.table[q])
  {
    hide Books, Backed, Logical, Pinned, Without;
    var i := c.table[p];
    TableIs(c, p, lost);
    PinnedIs(c, lost);
    DiscardKeeps(c, i, pages, live, unsaved, lost);
    EvictBooks(c, i, lost);
    EvictPins(c, i, lost);
    LoseBooks(Evicted(c, i), i, lost);
    assert fs'[i := CLEARED_FRAME] == c.fs[i := CLEARED_FRAME];
    assert Evicted(c.(fs := fs'), i) == Evicted(c, i);
  }

  lemma FillPins(c: Cache, i: int, f: Frame, lost: set<int>)
    requires Books(c, lost, {i}) && f.pins == 1 && f.page.id !in c.table
    ensures |c.fs| == POOL_SIZE && Frameable(i)
    ensures var e := Filled(c, i, f); Pinned(e.fs, e.table) == Pinned(c.fs, c.table)[f.page.id := 1]
  {
    hide Books, Without;
    LimboIsUnmapped(c, i, lost);
    var e := Filled(c, i, f);
    assert forall q :: q in c.table ==> e.table[q] == c.table[q] && e.fs[e.table[q]] == c.fs[c.table[q]];
  }

  /** What changing the pins of a resident page changes. */
  lemma RepinPins(c: Cache, p: int, f: Frame, lost: set<int>, fs': seq<Frame>)
    requires Books(c, lost, {}) && p in c.table && fs' == c.fs[c.table[p] := f]
    ensures Pinned(fs', c.table)
         == if f.pins > 0 then Pinned(c.fs, c.table)[p := f.pins] else Pinned(c.fs, c.table) - {p}
  {
    hide Placed, LruOk, Distinct;
    assert forall q :: q in c.table && q != p ==> c.table[q] != c.table[p];
  }

  lemma TableIs(c: Cache, p: int, lost: set<int>)
    requires Books(c, lost, {}) && p in c.table
    ensures |c.fs| == POOL_SIZE && Frameable(c.table[p]) && c.fs[c.table[p]].inUse && c.fs[c.table[p]].page.id == p
  {
  }

  lemma PinnedIs(c: Cache, lost: set<int>)
    requires Books(c, lost, {})
    ensures |Pinned(c.fs, c.table)| + |lost| <= POOL_SIZE
    ensures forall p :: p in Pinned(c.fs, c.table) ==> p in c.table && Pinned(c.fs, c.table)[p] > 0
    ensures forall p :: p in c.table ==>
      && Frameable(c.table[p]) && |c.fs| == POOL_SIZE
      && c.fs[c.table[p]].pins == (if p in Pinned(c.fs, c.table) then Pinned(c.fs, c.table)[p] else 0)
  {
    hide Placed, LruOk, Distinct;
    FramesAreConserved(c, lost);
    Sub(Pinned(c.fs, c.table).Keys, c.table.Keys);
  }

  lemma LogicalAt(fs: seq<Frame>, table: map<int, int>, pages: map<int, Page>, live: set<int>, p: int)
    requires Locatable(fs, table, pages, live) && p in live
    ensures Logical(fs, table, pages, live)[p] == Located(fs, table, pages, p)
  {
  }

  lemma UnsavedPinned(c: Cache, pages: map<int, Page>, live: set<int>, unsaved: set<int>, lost: set<int>)
    requires Books(c, lost, {}) && Backed(c.fs, c.table, pages, live, unsaved)
    ensures forall p :: p in unsaved ==> p in c.table && Frameable(c.table[p]) && |c.fs| == POOL_SIZE && c.fs[c.table[p]].pins > 0
  {
  }

  lemma TableIsInjective(c: Cache, lost: set<int>)
    requires Books(c, lost, {})
    ensures forall p, q :: p in c.table && q in c.table && p != q ==> c.table[p] != c.table[q]
  {
  }

  /** Dropping a page that is not in the pool. */
  lemma ForgetKeeps(c: Cache, p: int, pages: map<int, Page>, live: set<int>, unsaved: set<int>)
    requires Backed(c.fs, c.table, pages, live, unsaved) && p !in c.table
    ensures Backed(c.fs, c.table, pages, live - {p}, unsaved)
      && Logical(c.fs, c.table, pages, live - {p}) == Logical(c.fs, c.table, pages, live) - {p}
  {
  }

  lemma HeaderKept(fs: seq<Frame>, table: map<int, int>, pages: map<int, Page>, live: set<int>, unsaved: set<int>, p: int)
    requires Backed(fs, table, pages, live, unsaved) && p in live && p !in table
    ensures p in pages && pages[p].id == p
  {
  }

  lemma LruInRange(c: Cache, lost: set<int>)
    requires Books(c, lost, {})
    ensures Within(c.lru, |c.fs|)
    ensures c.lru == c.lru[..|c.lru|]
  {
  }

  lemma VictimStep(fs: seq<Frame>, lru: seq<int>, k: int)
    requires 0 < k <= |lru| && Within(lru[..k], |fs|)
    ensures 0 <= lru[k - 1] < |fs| && Within(lru[..k - 1], |fs|)
    ensures Victim(fs, lru[..k]) == if fs[lru[k - 1]].pins == 0 then Some(lru[k - 1]) else Victim(fs, lru[..k - 1])
  {
    var s := lru[..k];
    assert s[k - 1] == lru[k - 1] && s[k - 1] in s && s[..k - 1] == lru[..k - 1];
    var t := lru[..k - 1];
    forall i | i in t ensures 0 <= i < |fs| { assert i in s; }
  }

  lemma VictimInUse(c: Cache, i: int, pages: map<int, Page>, live: set<int>, unsaved: set<int>, lost: set<int>)
    requires Books(c, lost, {}) && i in c.lru && Backed(c.fs, c.table, pages, live, unsaved)
    ensures |c.fs| == POOL_SIZE && Frameable(i) && c.fs[i].inUse && c.fs[i].page.id in c.table && c.fs[i].page.id in live
  {
  }

  /** No frame can be had exactly when pinned pages and lost frames fill the pool. */
  lemma ExhaustedWhen(c: Cache, lost: set<int>)
    requires Books(c, lost, {})
    ensures Within(c.lru, |c.fs|)
    ensures c.free == [] && Victim(c.fs, c.lru) == None <==> |Pinned(c.fs, c.table)| + |lost| == POOL_SIZE
  {
    hide Placed, Distinct, Victim;
    FramesAreConserved(c, lost);
    var pinned := Pinned(c.fs, c.table).Keys;
    if forall p :: p in c.table ==> p in pinned {
      assert pinned == c.table.Keys;
      forall i | i in c.lru ensures c.fs[i].pins > 0 { assert c.fs[i].page.id in pinned; }
    } else {
      var p :| p in c.table && p !in pinned;
      assert c.table[p] in c.lru;
      Smaller(pinned, c.table.Keys, p);
    }
  }

  lemma Smaller(a: set<int>, b: set<int>, x: int)
    requires a <= b && x in b && x !in a
    ensures |a| < |b|
  {
    Sub(a, b - {x});
  }

  lemma {:induction false} Sub(a: set<int>, b: set<int>)
    requires a <= b
    ensures |a| <= |b|
  {
    assert b == a + (b - a);
  }
}

/** The pool itself, with the disk and the page-0 registry beneath it. */
module BufferPools {
  import opened Base
  import opened Storage
  import opened FreeLists
  import opened Caches

  /** Page 0, live, free and orphaned pages partition the file. */
  ghost predicate Owned(live: set<int>, free: seq<int>, orphans: set<int>, n: nat) {
    && Distinct(free)
    && (forall p :: 0 < p < n ==> p in live || p in free || p in orphans)
    && (forall p :: p in live ==> 0 < p < n && p !in free && p !in orphans)
    && (forall p :: p in free ==> 0 < p < n && p !in orphans)
    && (forall p :: p in orphans ==> 0 < p < n)
  }

  /** A cleared page that knows its id. */
  function FreshPage(id: int): Page { ZeroPage().(id := id) }

  /** One pin fewer; a page that is not pinned stays so. */
  function Unpinned(pins: map<int, nat>, p: int): map<int, nat> {
    if PinCount(pins, p) <= 1 then pins - {p} else pins[p := pins[p] - 1]
  }

  function PinCount(pins: map<int, nat>, p: int): nat { if p in pins then pins[p] else 0 }

  lemma OwnedIds(live: set<int>, free: seq<int>, orphans: set<int>, n: nat)
    requires Owned(live, free, orphans, n)
    ensures forall p :: p in live || p in free || p in orphans ==> 0 < p < n
  {
  }

  /** How page ids change hands: each step keeps the partition. */
  lemma OwnedMoves(live: set<int>, free: seq<int>, orphans: set<int>, n: nat)
    requires Owned(live, free, orphans, n)
    ensures free == [] && n > 0 ==> n !in live && n !in orphans && Owned(live, free, orphans + {n}, n + 1)
    ensures free != [] ==>
      var p := free[|free| - 1];
      0 < p < n && p !in live && p !in orphans && Owned(live, free[..|free| - 1], orphans + {p}, n)
    ensures forall p :: p in live ==> 0 < p < n && p !in orphans && Owned(live - {p}, free, orphans + {p}, n)
    ensures forall p :: p in orphans ==> Owned(live + {p}, free, orphans - {p}, n) && Owned(live, free + [p], orphans - {p}, n)
  {
    if free != [] {
      var m := |free| - 1;
      assert free[m] in free && forall p :: p in free <==> p in free[..m] || p == free[m];
    }
  }

  class BufferPool {
    const dm: DiskManager
    const fl: FreeList
    const frames: array<Frame>
    var table: map<int, int>
    var freeFrames: seq<int>
    var lru: seq<int>

    ghost var live: set<int>         // pages handed out and not deleted
    ghost var unsaved: set<int>      // pages edited since they were last marked dirty or flushed
    ghost var lost: set<int>         // frames no list mentions any more
    ghost var orphans: set<int>      // page ids consumed by a failed NewPage
    ghost var lastUse: map<int, nat>
    ghost var clock: nat

    ghost function Cached(): Cache reads this, frames {
      Cache(frames[..], table, freeFrames, lru)
    }

    /** Valid but for the frames being handed over. */
    ghost predicate Ready(limbo: set<int>) reads this, frames, fl, dm {
      && frames.Length == POOL_SIZE && fl.dm == dm && fl.Valid()
      && Books(Cached(), lost, limbo)
      && Backed(frames[..], table, dm.pages, live, unsaved)
      && Owned(live, fl.list, orphans, dm.numPages)
      && Recency(lru, lastUse, clock)
    }

    ghost predicate Valid() reads this, frames, fl, dm { Ready({}) }

    /** The content of every live page, wherever it currently is. */
    ghost function Pages(): map<int, Page>
      reads this, frames, dm
    {
      Logical(frames[..], table, dm.pages, live)
    }

    /** How often each pinned page is pinned. */
    ghost function Pins(): map<int, nat> reads this, frames { Pinned(frames[..], table) }

    /** Nothing a caller can see has changed. */
    twostate predicate SameOutside() reads this, fl, dm {
      && live == old(live) && unsaved == old(unsaved) && orphans == old(orphans)
      && fl.list == old(fl.list) && dm.numPages == old(dm.numPages)
    }

    constructor (disk: DiskManager, registry: FreeList, ghost existing: set<int>)
      requires registry.dm == disk && registry.Valid()
      requires Owned(existing, registry.list, {}, disk.numPages)
      requires forall p :: p in existing ==> disk.pages[p].id == p
      ensures Valid() && dm == disk && fl == registry && fresh(frames)
      ensures live == existing && lost == {} && orphans == {} && unsaved == {} && Pins() == map[]
      ensures forall p :: p in live ==> p in Pages() && Pages()[p] == disk.pages[p]
    {
      dm, fl, frames := disk, registry, new Frame[POOL_SIZE](_ => CLEARED_FRAME);
      table, lru, freeFrames := map[], [], seq(POOL_SIZE, i => i);
      live, unsaved, lost, orphans, lastUse, clock := existing, {}, {}, {}, map[], 0;
      new;
      hide Books, Backed, Logical, Pinned, Owned;
      FreshCache(Cached(), dm.pages, live) by {
        hide Owned;
        OwnedIds(live, fl.list, {}, dm.numPages);
      }
    }

    method Touch(i: int)
      requires Recency(lru, lastUse, clock)
      modifies this`lru, this`lastUse, this`clock
      ensures lru == Touched(old(lru), i) && Recency(lru, lastUse, clock)
    {
      TouchRecency(lru, i, lastUse, clock);
      lru := Without(lru, i);
      lru := [i] + lru;
      lastUse, clock := lastUse[i := clock], clock + 1;
    }

    /** Write back if dirty, forget the page, clear the frame. */
    method EvictFrame(i: int)
      requires frames.Length == POOL_SIZE && dm.Valid() && Frameable(i) && Recency(lru, lastUse, clock)
      requires frames[i].inUse && frames[i].pins == 0 && frames[i].page.id >= 0
      modifies this`table, this`lru, frames, dm
      ensures Cached() == Evicted(old(Cached()), i) && Recency(lru, lastUse, clock)
      ensures dm.Valid() && dm.numPages == old(dm.numPages)
      ensures var f := old(frames[i]); dm.pages == if f.dirty then old(dm.pages)[f.page.id := f.page] else old(dm.pages)
    {
      var f := frames[i];
      if f.dirty {
        var _ := dm.WritePage(f.page.id, f.page);
      }
      table := table - {f.page.id};
      RecencyWithout(lru, i, lastUse, clock);
      lru := Without(lru, i);
      frames[i] := CLEARED_FRAME;
    }

    /** Scan from the least recently used end for an unpinned frame. */
    method Coldest() returns (victim: Option<int>)
      requires Within(lru, frames.Length)
      ensures victim == Victim(frames[..], lru)
    {
      ghost var fs := frames[..];
      assert lru == lru[..|lru|];
      for k := |lru| downto 0
        invariant Within(lru[..k], |fs|)
        invariant Victim(fs, lru) == Victim(fs, lru[..k])
      {
        VictimStep(fs, lru, k + 1);
        if frames[lru[k]].pins == 0 { return Some(lru[k]); }
      }
      return None;
    }

    method FindFreeFrame() returns (r: Option<int>)
      requires Valid()
      modifies this`table, this`lru, this`freeFrames, frames, dm
      ensures SameOutside()
      ensures r.None? ==> Valid() && Cached() == old(Cached()) && dm.pages == old(dm.pages)
      ensures r.None? <==> |old(Pins())| + |lost| == POOL_SIZE
      ensures r.Some? ==> Ready({r.value})
      ensures old(freeFrames) == [] ==> r == Victim(old(frames[..]), old(lru))
      ensures Pages() == old(Pages()) && Pins() == old(Pins())
      ensures table.Keys <= old(table.Keys) && forall p :: p in Pins() ==> p in table && table[p] == old(table[p])
    {
      hide Books, Backed, Logical, Locatable, Pinned, Owned, Recency;
      ghost var c := Cached();
      BackedLocates(c.fs, table, dm.pages, live, unsaved);
      ExhaustedWhen(c, lost);
      if freeFrames != [] {
        r := Some(freeFrames[|freeFrames| - 1]);
        PopBooks(c, lost);
        freeFrames := freeFrames[..|freeFrames| - 1];
        assert Cached() == c.(free := freeFrames);
        PinnedKnown(c.fs, c.table);
        return;
      }
      LruInRange(c, lost);
      var victim := Coldest();
      if victim == None {
        PinnedKnown(c.fs, c.table);
        return None;
      }
      var i := victim.value;
      VictimInUse(c, i, dm.pages, live, unsaved, lost);
      OwnedIds(live, fl.list, orphans, dm.numPages);
      EvictFrame(i);
      EvictKeeps(c, i, old(dm.pages), dm.pages, live, unsaved, lost);
      EvictBooks(c, i, lost);
      EvictPins(c, i, lost);
      BackedLocates(frames[..], table, dm.pages, live, unsaved);
      return victim;
    }

    /** Put a page into the frame that was handed over. */
    method Admit(i: int, f: Frame)
      requires frames.Length == POOL_SIZE && Frameable(i) && Recency(lru, lastUse, clock)
      modifies this`table, this`lru, this`lastUse, this`clock, frames
      ensures Cached() == Filled(old(Cached()), i, f) && Recency(lru, lastUse, clock)
    {
      frames[i] := f;
      table := table[f.page.id := i];
      Touch(i);
    }

    /** A cache miss on a live page, once its bytes are read: one pin, clean. */
    method Load(i: int, p: int, page: Page)
      requires Ready({i}) && p in live && p !in table && p in dm.pages && page == dm.pages[p]
      modifies this`table, this`lru, this`lastUse, this`clock, frames
      ensures Valid() && Pages() == old(Pages())
      ensures Pins() == old(Pins())[p := 1] && table == old(table)[p := i]
      ensures 0 <= i < frames.Length && frames[i].page == Pages()[p] && lru[0] == i
    {
      hide Books, Backed, Logical, Locatable, Pinned, Owned, Recency, Without;
      ghost var c := Cached();
      BackedLocates(c.fs, table, dm.pages, live, unsaved);
      FillKeeps(c, i, p, dm.pages, live, unsaved, lost);
      HeaderKept(c.fs, table, dm.pages, live, unsaved, p);
      var f := Frame(page, 1, false, true);
      FillBooks(c, i, f, lost);
      FillPins(c, i, f, lost);
      Admit(i, f);
      BackedLocates(frames[..], table, dm.pages, live, unsaved);
      LogicalAt(frames[..], table, dm.pages, live, p);
    }

    /** A cache hit: one more pin, most recently used. */
    method Repin(p: int)
      requires Valid() && p in table
      modifies this`lru, this`lastUse, this`clock, frames
      ensures Valid() && Pages() == old(Pages())
      ensures Pins() == old(Pins())[p := PinCount(old(Pins()), p) + 1]
      ensures p in live && 0 <= table[p] < frames.Length && frames[table[p]].page == Pages()[p] && lru[0] == table[p]
    {
      hide Books, Backed, Logical, Locatable, Pinned, Owned, Recency, Without;
      ghost var c := Cached();
      BackedLocates(c.fs, table, dm.pages, live, unsaved);
      PinnedIs(c, lost);
      var i := table[p];
      TableIs(c, p, lost);
      frames[i] := frames[i].(pins := frames[i].pins + 1);
      ghost var c' := c.(fs := frames[..]);
      EditBooks(c, i, frames[i], lost, {});
      PinKeeps(c, p, frames[i].pins, frames[i].dirty, dm.pages, live, unsaved, unsaved, lost, frames[..]);
      RepinPins(c, p, frames[i], lost, frames[..]);
      TouchBooks(c', i, lost, {});
      Touch(i);
      assert Cached() == c'.(lru := Touched(c'.lru, i));
      BackedLocates(frames[..], table, dm.pages, live, unsaved);
      LogicalAt(frames[..], table, dm.pages, live, p);
    }

    /** Returns the frame index the caller's pointer stands for; None when the pool is exhausted. */
    method FetchPage(p: int) returns (r: Result<Option<int>, DiskError>)
      requires Valid() && (p in live || !(0 <= p < dm.numPages))
      modifies this, frames, dm
      ensures Valid() && SameOutside() && Pages() == old(Pages())
      ensures r.Failure? <==> p !in live && |old(Pins())| + |old(lost)| < POOL_SIZE
      ensures r == Success(None) <==> p !in old(table) && |old(Pins())| + |old(lost)| == POOL_SIZE
      ensures r.Failure? ==> r.error == OutOfRange && |lost| == |old(lost)| + 1
      ensures r.Success? ==> lost == old(lost)
      ensures r.Success? && r.value.Some? ==>
        && p in live && p in table && table[p] == r.value.value && 0 <= table[p] < frames.Length
        && frames[table[p]].page == Pages()[p] && lru[0] == table[p]
      ensures Pins() == if r.Success? && r.value.Some? then old(Pins())[p := PinCount(old(Pins()), p) + 1] else old(Pins())
      ensures forall q :: q in old(Pins()) ==> q in table && table[q] == old(table[q])
    {
      hide Books, Backed, Logical, Locatable, Pinned, Owned, Recency, Without;
      ghost var c := Cached();
      BackedLocates(c.fs, table, dm.pages, live, unsaved);
      PinnedIs(c, lost);
      if p in table {
        Repin(p);
        return Success(Some(table[p]));
      }
      r := Miss(p);
    }

    /** The page is not in the pool: find a frame and read it, or lose the frame to a bad id. */
    method Miss(p: int) returns (r: Result<Option<int>, DiskError>)
      requires Valid() && (p in live || !(0 <= p < dm.numPages)) && p !in table
      modifies this, frames, dm
      ensures Valid() && SameOutside() && Pages() == old(Pages())
      ensures r.Failure? <==> p !in live && |old(Pins())| + |old(lost)| < POOL_SIZE
      ensures r == Success(None) <==> |old(Pins())| + |old(lost)| == POOL_SIZE
      ensures r.Failure? ==> r.error == OutOfRange && |lost| == |old(lost)| + 1
      ensures r.Success? ==> lost == old(lost)
      ensures r.Success? && r.value.Some? ==>
        && p in live && p in table && table[p] == r.value.value && 0 <= table[p] < frames.Length
        && frames[table[p]].page == Pages()[p] && lru[0] == table[p]
      ensures Pins() == if r.Success? && r.value.Some? then old(Pins())[p := 1] else old(Pins())
      ensures forall q :: q in old(Pins()) ==> q in table && table[q] == old(table[q])
    {
      hide Books, Backed, Logical, Locatable, Pinned, Owned, Recency, Without;
      ghost var c := Cached();
      PinnedIs(c, lost);
      OwnedIds(live, fl.list, orphans, dm.numPages);
      var id := FindFreeFrame();
      if id == None { return Success(None); }
      c := Cached();
      BackedLocates(c.fs, table, dm.pages, live, unsaved);
      var page := dm.ReadPage(p);
      if page.Failure? {
        LoseBooks(c, id.value, lost);
        lost := lost + {id.value};
        return Failure(page.error);
      }
      Load(id.value, p, page.value);
      return Success(id);
    }

    /** The caller writes through its pointer, leaving the header's page id alone. */
    method Edit(p: int, page: Page)
      requires Valid() && p in Pins() && page.id == p
      modifies frames, this`unsaved
      ensures Valid() && Pages() == old(Pages())[p := page] && Pins() == old(Pins())
      ensures unsaved == old(unsaved) + {p}
    {
      hide Books, Backed, Logical, Locatable, Pinned, Owned, Recency;
      ghost var c := Cached();
      BackedLocates(c.fs, table, dm.pages, live, unsaved);
      PinnedIs(c, lost);
      TableIs(c, p, lost);
      frames[table[p]] := frames[table[p]].(page := page);
      EditBooks(c, table[p], frames[table[p]], lost, {});
      EditKeeps(c, p, page, dm.pages, live, unsaved, lost, frames[..]);
      RepinPins(c, p, frames[table[p]], lost, frames[..]);
      unsaved := unsaved + {p};
      assert Cached() == c.(fs := frames[..]);
      BackedLocates(frames[..], table, dm.pages, live, unsaved);
    }

    /** The last unpin of an edited page must report it dirty, unless the frame already is. */
    method UnpinPage(p: int, dirty: bool)
      requires Valid()
      requires p in unsaved && PinCount(Pins(), p) == 1 ==> dirty || frames[table[p]].dirty
      modifies frames, this`unsaved
      ensures Valid() && Pages() == old(Pages())
      ensures Pins() == Unpinned(old(Pins()), p)
      ensures unsaved == if p in table && frames[table[p]].dirty then old(unsaved) - {p} else old(unsaved)
      ensures p in table && dirty ==> frames[table[p]].dirty
      ensures dirty ==> p !in unsaved
    {
      hide Books, Backed, Logical, Locatable, Pinned, Owned, Recency;
      ghost var c := Cached();
      BackedLocates(c.fs, table, dm.pages, live, unsaved);
      PinnedIs(c, lost);
      UnsavedPinned(c, dm.pages, live, unsaved, lost);
      if p !in table { return; }
      TableIs(c, p, lost);
      var f := frames[table[p]];
      if f.pins > 0 { f := f.(pins := f.pins - 1); }
      if dirty { f := f.(dirty := true); }
      frames[table[p]] := f;
      if f.dirty { unsaved := unsaved - {p}; }
      EditBooks(c, table[p], f, lost, {});
      PinKeeps(c, p, f.pins, f.dirty, dm.pages, live, old(unsaved), unsaved, lost, frames[..]);
      RepinPins(c, p, f, lost, frames[..]);
      assert Cached() == c.(fs := frames[..]);
      BackedLocates(frames[..], table, dm.pages, live, unsaved);
    }

    method FlushPage(p: int) returns (r: bool)
      requires Valid()
      modifies frames, dm, this`unsaved
      ensures Valid() && Pages() == old(Pages()) && Pins() == old(Pins())
      ensures r == (p in table) && dm.numPages == old(dm.numPages)
      ensures r ==> !frames[table[p]].dirty
      ensures r && old(frames[table[p]].dirty) ==> dm.pages == old(dm.pages)[p := Pages()[p]] && unsaved == old(unsaved) - {p}
      ensures !(r && old(frames[table[p]].dirty)) ==> dm.pages == old(dm.pages) && unsaved == old(unsaved)
      ensures forall q :: q in table && q != p ==> 0 <= table[q] < frames.Length && frames[table[q]] == old(frames[table[q]])
    {
      hide Books, Backed, Logical, Locatable, Pinned, Owned, Recency;
      ghost var c := Cached();
      BackedLocates(c.fs, table, dm.pages, live, unsaved);
      TableIsInjective(c, lost);
      if p !in table { return false; }
      TableIs(c, p, lost);
      OwnedIds(live, fl.list, orphans, dm.numPages);
      var i := table[p];
      if frames[i].dirty {
        FlushKeeps(c, p, dm.pages, live, unsaved, lost, c.fs[i := c.fs[i].(dirty := false)]);
        LogicalAt(c.fs, table, dm.pages, live, p);
        var _ := dm.WritePage(p, frames[i].page);
        frames[i] := frames[i].(dirty := false);
        unsaved := unsaved - {p};
        EditBooks(c, i, frames[i], lost, {});
        PinnedIs(c, lost);
        RepinPins(c, p, frames[i], lost, frames[..]);
        assert Cached() == c.(fs := frames[..]);
        BackedLocates(frames[..], table, dm.pages, live, unsaved);
      }
      return true;
    }

    /** Afterwards the file holds every page, except those being edited right now. */
    method FlushAll()
      requires Valid()
      modifies frames, dm, this`unsaved
      ensures Valid() && Pages() == old(Pages()) && Pins() == old(Pins())
      ensures unsaved <= old(unsaved) && dm.numPages == old(dm.numPages)
      ensures forall p :: p in live && p !in unsaved ==> p in dm.pages && dm.pages[p] == Pages()[p]
    {
      hide Books, Logical, Pinned, Owned, Recency;
      var todo := table.Keys;
      while exists p :: p in todo
        invariant Valid() && Pages() == old(Pages()) && Pins() == old(Pins())
        invariant unsaved <= old(unsaved) && dm.numPages == old(dm.numPages)
        invariant todo <= table.Keys
        invariant forall p :: p in table && p !in todo ==> !frames[table[p]].dirty
        decreases todo
      {
        var p :| p in todo;
        var _ := FlushPage(p);
        todo := todo - {p};
      }
      forall p | p in live && p !in unsaved ensures p in dm.pages && dm.pages[p] == Pages()[p] {
        LogicalAt(frames[..], table, dm.pages, live, p);
      }
    }

    /** A zeroed page under a recycled id if there is one, else at the end of the file. */
    method NewPage() returns (id: int, frame: Option<int>)
      requires Valid() && dm.numPages < 0x7FFF_FFFF
      modifies this, frames, dm, fl
      ensures Valid() && unsaved == old(unsaved) && lost == old(lost)
      ensures if old(fl.list) == [] then id == old(dm.numPages) == dm.numPages - 1 && fl.list == []
              else old(fl.list) == fl.list + [id] && dm.numPages == old(dm.numPages)
      ensures id !in old(live)
      ensures frame.None? <==> |old(Pins())| + |lost| == POOL_SIZE
      ensures frame.None? ==>
        live == old(live) && Pages() == old(Pages()) && Pins() == old(Pins()) && orphans == old(orphans) + {id}
      ensures frame.Some? ==>
        && live == old(live) + {id} && orphans == old(orphans)
        && Pages() == old(Pages())[id := FreshPage(id)] && Pins() == old(Pins())[id := 1]
        && id in table && table[id] == frame.value && frames[table[id]].dirty
      ensures forall q :: q in old(Pins()) ==> q in table && table[q] == old(table[q])
    {
      hide Books, Backed, Logical, Locatable, Pinned, Owned, Recency, Without;
      BackedLocates(frames[..], table, dm.pages, live, unsaved);
      PinnedIs(Cached(), lost);
      id := TakePageId();
      frame := FindFreeFrame();
      if frame == None { return; }
      Install(frame.value, id);
    }

    /** Recycle a free page or extend the file; the id belongs to nobody yet. */
    method TakePageId() returns (id: int)
      requires Valid() && dm.numPages < 0x7FFF_FFFF
      modifies dm, fl, this`orphans
      ensures Valid() && Pages() == old(Pages())
      ensures if old(fl.list) == [] then id == old(dm.numPages) == dm.numPages - 1 && fl.list == []
              else old(fl.list) == fl.list + [id] && dm.numPages == old(dm.numPages)
      ensures id !in old(live) && id !in old(orphans) && orphans == old(orphans) + {id}
    {
      hide Books, Logical, Recency, Loaded, Backed, Locatable, Owned;
      ghost var c := Cached();
      BackedLocates(c.fs, table, dm.pages, live, unsaved);
      OwnedMoves(live, fl.list, orphans, dm.numPages);
      OwnedIds(live, fl.list, orphans, dm.numPages);
      id := fl.Allocate();
      assert old(fl.list) != [] ==> id == old(fl.list)[|old(fl.list)| - 1] && fl.list == old(fl.list)[..|old(fl.list)| - 1];
      if id == INVALID_PAGE_ID {
        id := dm.AllocatePage();
      }
      orphans := orphans + {id};
      DiskAgrees(c, old(dm.pages), dm.pages, live, unsaved);
    }

    method Install(i: int, id: int)
      requires Ready({i}) && id !in live && id in orphans
      modifies this`table, this`lru, this`lastUse, this`clock, this`live, this`orphans, frames
      ensures Valid() && live == old(live) + {id} && orphans == old(orphans) - {id}
      ensures Pages() == old(Pages())[id := FreshPage(id)]
      ensures Pins() == old(Pins())[id := 1] && table == old(table)[id := i] && frames[i].dirty
    {
      hide Books, Backed, Logical, Locatable, Pinned, Recency, Without, Owned;
      ghost var c := Cached();
      BackedLocates(c.fs, table, dm.pages, live, unsaved);
      OwnedMoves(live, fl.list, orphans, dm.numPages);
      var f := Frame(FreshPage(id), 1, true, true);
      NewKeeps(c, i, id, f.page, dm.pages, live, unsaved, lost);
      FillBooks(c, i, f, lost);
      FillPins(c, i, f, lost);
      Admit(i, f);
      live, orphans := live + {id}, orphans - {id};
      BackedLocates(frames[..], table, dm.pages, live, unsaved);
    }

    /** Drop an unpinned page; its frame, if it had one, is never used again. */
    method DeletePage(p: int)
      requires Valid() && p in live && p !in Pins() && |fl.list| < MAX_FREE_PAGES
      modifies this, frames, dm, fl
      ensures Valid() && live == old(live) - {p} && orphans == old(orphans) && unsaved == old(unsaved)
      ensures Pages() == old(Pages()) - {p} && Pins() == old(Pins())
      ensures fl.list == old(fl.list) + [p] && dm.numPages == old(dm.numPages)
      ensures lost == if p in old(table) then old(lost) + {old(table[p])} else old(lost)
      ensures p in old(table) ==> old(table[p]) !in old(lost)
      ensures forall q :: q in old(Pins()) ==> q in table && table[q] == old(table[q])
    {
      hide Books, Backed, Logical, Locatable, Pinned, Recency, Loaded, Without, Owned;
      BackedLocates(frames[..], table, dm.pages, live, unsaved);
      if p in table {
        Discard(p);
      } else {
        Forget(p);
      }
      GiveBack(p);
    }

    ghost method Forget(p: int)
      requires Valid() && p in live && p !in table
      modifies this`live, this`orphans
      ensures Valid() && live == old(live) - {p} && p !in old(orphans) && orphans == old(orphans) + {p}
      ensures Pages() == old(Pages()) - {p} && Pins() == old(Pins())
      ensures forall q :: q in old(Pins()) ==> q in table
    {
      hide Books, Backed, Logical, Locatable, Pinned, Recency, Loaded, Without, Owned;
      BackedLocates(frames[..], table, dm.pages, live, unsaved);
      PinnedIs(Cached(), lost);
      OwnedMoves(live, fl.list, orphans, dm.numPages);
      ForgetKeeps(Cached(), p, dm.pages, live, unsaved);
      live, orphans := live - {p}, orphans + {p};
    }

    /** Register an unowned page id as free. */
    method GiveBack(p: int)
      requires Valid() && p in orphans && |fl.list| < MAX_FREE_PAGES
      modifies dm, fl, this`orphans
      ensures Valid() && Pages() == old(Pages()) && dm.numPages == old(dm.numPages)
      ensures fl.list == old(fl.list) + [p] && orphans == old(orphans) - {p}
    {
      hide Books, Logical, Recency, Loaded, Backed, Locatable, Owned;
      ghost var c := Cached();
      BackedLocates(c.fs, table, dm.pages, live, unsaved);
      OwnedMoves(live, fl.list, orphans, dm.numPages);
      OwnedIds(live, fl.list, orphans, dm.numPages);
      fl.Free(p);
      orphans := orphans - {p};
      DiskAgrees(c, old(dm.pages), dm.pages, live, unsaved);
    }

    /** Evict without writing back: the content is being given up. */
    method Discard(p: int)
      requires Valid() && p in table && p !in Pins()
      modifies this`table, this`lru, this`live, this`lost, this`orphans, frames, dm
      ensures Valid() && live == old(live) - {p} && p !in old(orphans) && orphans == old(orphans) + {p}
      ensures Pages() == old(Pages()) - {p} && Pins() == old(Pins()) && dm.numPages == old(dm.numPages)
      ensures old(table[p]) !in old(lost) && lost == old(lost) + {old(table[p])}
      ensures forall q :: q in old(Pins()) ==> q in table && table[q] == old(table[q])
    {
      hide Books, Backed, Logical, Locatable, Pinned, Recency, Loaded, Without, Owned, Evicted;
      OwnedMoves(live, fl.list, orphans, dm.numPages);
      OwnedIds(live, fl.list, orphans, dm.numPages);
      ghost var c := Cached();
      BackedLocates(c.fs, table, dm.pages, live, unsaved);
      TableIs(c, p, lost);
      var i := table[p];
      frames[i] := frames[i].(dirty := false);
      DiscardEffect(c, p, dm.pages, live, unsaved, lost, frames[..]);
      EvictFrame(i);
      live, lost, orphans := live - {p}, lost + {i}, orphans + {p};
      BackedLocates(frames[..], table, dm.pages, live, unsaved);
    }
  }
}
