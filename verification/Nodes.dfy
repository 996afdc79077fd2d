/** B+Tree nodes as their slotted pages present them: sorted entries plus the number of
    dead heap bytes. The layout arithmetic of the page is exact. */
module Nodes {
  import opened Base

  type PageId = int

  const NO_PAGE: PageId := -1

  /** Bytes for slots and cells in a page: 4096 - 24 - 32. */
  const USABLE: nat := 4040

  /** Largest leaf cell plus slot for which splitting is guaranteed to make room. */
  const LEAF_LIMIT: nat := USABLE / 4

  /** A separator is a key of such a leaf cell: two bytes more at most. */
  const SEP_LIMIT: nat := LEAF_LIMIT + 2

  /** A leaf cell or an internal cell. */
  datatype Entry = KV(key: Key, val: Value) | KP(key: Key, child: PageId)

  datatype Node = Node(leaf: bool, parent: PageId, left: PageId, right: PageId, first: PageId,
                       entries: seq<Entry>, dead: nat)

  /** Keys are compared through an order-preserving rank. */
  type Rank = Key -> real

  ghost predicate Ordered(rank: Rank) {
    && (forall k :: 0.0 <= rank(k) < 1.0)
    && (forall a, b :: rank(a) == rank(b) ==> a == b)
  }

  lemma RankBounds(rank: Rank, k: Key)
    requires Ordered(rank)
    ensures 0.0 <= rank(k) < 1.0
  {
  }

  lemma SameRank(rank: Rank, a: Key, b: Key)
    requires Ordered(rank) && rank(a) == rank(b)
    ensures a == b
  {
  }

  function EmptyLeaf(parent: PageId): Node {
    Node(true, parent, NO_PAGE, NO_PAGE, NO_PAGE, [], 0)
  }

  function EmptyInternal(parent: PageId): Node {
    Node(false, parent, NO_PAGE, NO_PAGE, NO_PAGE, [], 0)
  }

  // -------------------------------------------------------------------- sizes

  function Payload(e: Entry): nat {
    match e
    case KV(k, v) => 2 + |k| + 2 + |v|
    case KP(k, _) => 2 + |k| + 4
  }

  function Cost(e: Entry): nat { 2 + Payload(e) }

  function Costs(es: seq<Entry>): nat {
    if es == [] then 0 else Costs(es[..|es| - 1]) + Cost(es[|es| - 1])
  }

  function Used(n: Node): nat { Costs(n.entries) + n.dead }

  /** The free gap between the slot array and the cell heap. */
  function Gap(n: Node): int { USABLE - Used(n) }

  predicate Full(n: Node, payload: nat) { Gap(n) < 2 + payload }

  /** Occupancy as the code measures it, dead bytes included. */
  predicate Underflow(n: Node) { USABLE - Gap(n) < USABLE / 2 }

  // -------------------------------------------------------------------- order

  ghost predicate Sorted(rank: Rank, es: seq<Entry>) {
    forall i, j :: 0 <= i < j < |es| ==> rank(es[i].key) < rank(es[j].key)
  }

  /** First position whose key is not below `k`, at or after `from`. */
  function LowerBoundFrom(rank: Rank, es: seq<Entry>, k: Key, from: nat): (i: nat)
    requires from <= |es|
    ensures from <= i <= |es|
    ensures forall j :: from <= j < i ==> rank(es[j].key) < rank(k)
    ensures i < |es| ==> rank(es[i].key) >= rank(k)
    decreases |es| - from
  {
    if from == |es| || rank(es[from].key) >= rank(k) then from else LowerBoundFrom(rank, es, k, from + 1)
  }

  function LowerBound(rank: Rank, es: seq<Entry>, k: Key): (i: nat)
    ensures i <= |es|
    ensures forall j :: 0 <= j < i ==> rank(es[j].key) < rank(k)
    ensures i < |es| ==> rank(es[i].key) >= rank(k)
  {
    LowerBoundFrom(rank, es, k, 0)
  }

  /** In a sorted node the lower bound is the only position with smaller keys before it only. */
  lemma LowerBoundIs(rank: Rank, es: seq<Entry>, k: Key, i: nat)
    requires Sorted(rank, es) && i <= |es|
    requires i > 0 ==> rank(es[i - 1].key) < rank(k)
    requires i < |es| ==> rank(es[i].key) >= rank(k)
    ensures LowerBound(rank, es, k) == i
  {
  }

  predicate Present(rank: Rank, es: seq<Entry>, k: Key) {
    var i := LowerBound(rank, es, k);
    i < |es| && es[i].key == k
  }

  ghost predicate HasKey(es: seq<Entry>, k: Key) {
    exists i :: 0 <= i < |es| && es[i].key == k
  }

  lemma PresentIffHas(rank: Rank, es: seq<Entry>, k: Key)
    requires Sorted(rank, es)
    ensures Present(rank, es, k) <==> HasKey(es, k)
  {
    if HasKey(es, k) {
      var i :| 0 <= i < |es| && es[i].key == k;
      if i > 0 { assert rank(es[i - 1].key) < rank(es[i].key); }
      LowerBoundIs(rank, es, k, i);
    }
  }

  /** The page's binary search. */
  method Search(rank: Rank, es: seq<Entry>, k: Key) returns (lo: nat)
    requires Sorted(rank, es)
    ensures lo == LowerBound(rank, es, k)
  {
    var hi := |es|;
    lo := 0;
    while lo < hi
      invariant 0 <= lo <= hi <= |es|
      invariant forall j :: 0 <= j < lo ==> rank(es[j].key) < rank(k)
      invariant forall j :: hi <= j < |es| ==> rank(es[j].key) >= rank(k)
    {
      var mid := lo + (hi - lo) / 2;
      if rank(es[mid].key) < rank(k) {
        lo := mid + 1;
      } else {
        hi := mid;
      }
    }
    LowerBoundIs(rank, es, k, lo);
  }

  /** Position one past the last key not above `k`: the child to descend into. */
  method UpperBound(rank: Rank, es: seq<Entry>, k: Key) returns (ub: nat)
    requires Ordered(rank) && Sorted(rank, es)
    ensures ub <= |es|
    ensures ub > 0 ==> rank(es[ub - 1].key) <= rank(k)
    ensures ub < |es| ==> rank(k) < rank(es[ub].key)
  {
    hide Ordered;
    ub := Search(rank, es, k);
    while ub < |es| && es[ub].key == k
      invariant ub <= |es|
      invariant ub > 0 ==> rank(es[ub - 1].key) <= rank(k)
      invariant ub < |es| ==> rank(es[ub].key) >= rank(k)
    {
      ub := ub + 1;
    }
    if ub < |es| && rank(es[ub].key) == rank(k) { SameRank(rank, es[ub].key, k); }
  }

  // --------------------------------------------------------------- page edits

  function Inserted(es: seq<Entry>, i: nat, e: Entry): seq<Entry>
    requires i <= |es|
  {
    es[..i] + [e] + es[i..]
  }

  function Removed(es: seq<Entry>, i: nat): seq<Entry>
    requires i < |es|
  {
    es[..i] + es[i + 1..]
  }

  /** Rebuild the cell heap without holes. */
  function Compacted(n: Node): Node { n.(dead := 0) }

  /** Drop a slot; its cell stays in the heap as dead bytes. */
  function RemoveAt(n: Node, i: nat): Node
    requires i < |n.entries|
  {
    n.(entries := Removed(n.entries, i), dead := n.dead + Payload(n.entries[i]))
  }

  /** Write a new cell at slot `i`, compacting first if the gap is too small. */
  function PlaceAt(n: Node, i: nat, e: Entry): (bool, Node)
    requires i <= |n.entries|
  {
    var c := if Full(n, Payload(e)) then Compacted(n) else n;
    if Full(c, Payload(e)) then (false, c) else (true, c.(entries := Inserted(c.entries, i, e)))
  }

  /** Insert or overwrite a leaf cell. A value of the same size is overwritten in place. */
  function InsertCell(rank: Rank, n: Node, k: Key, v: Value): (bool, Node)
    requires n.leaf && forall e :: e in n.entries ==> e.KV?
  {
    var i := LowerBound(rank, n.entries, k);
    if Present(rank, n.entries, k) then
      if |n.entries[i].val| == |v| then (true, n.(entries := n.entries[i := KV(k, v)]))
      else PlaceAt(RemoveAt(n, i), i, KV(k, v))
    else PlaceAt(n, i, KV(k, v))
  }

  function InsertSep(rank: Rank, n: Node, k: Key, child: PageId): (bool, Node) {
    PlaceAt(n, LowerBound(rank, n.entries, k), KP(k, child))
  }

  // -------------------------------------------------------------- size lemmas

  lemma {:induction false} CostsConcat(a: seq<Entry>, b: seq<Entry>)
    ensures Costs(a + b) == Costs(a) + Costs(b)
  {
    if b == [] {
      assert a + b == a;
    } else {
      assert (a + b)[..|a + b| - 1] == a + b[..|b| - 1];
      CostsConcat(a, b[..|b| - 1]);
    }
  }

  lemma CostsSplit(es: seq<Entry>, i: nat)
    requires i <= |es|
    ensures Costs(es) == Costs(es[..i]) + Costs(es[i..])
  {
    assert es == es[..i] + es[i..];
    CostsConcat(es[..i], es[i..]);
  }

  lemma CostsOne(e: Entry)
    ensures Costs([e]) == Cost(e)
  {
    assert [e][..0] == [];
  }

  lemma CostsInserted(es: seq<Entry>, i: nat, e: Entry)
    requires i <= |es|
    ensures Costs(Inserted(es, i, e)) == Costs(es) + Cost(e)
  {
    CostsConcat(es[..i] + [e], es[i..]);
    CostsConcat(es[..i], [e]);
    CostsOne(e);
    CostsSplit(es, i);
  }

  lemma CostsRemoved(es: seq<Entry>, i: nat)
    requires i < |es|
    ensures Costs(Removed(es, i)) == Costs(es) - Cost(es[i])
  {
    CostsConcat(es[..i], es[i + 1..]);
    CostsSplit(es, i);
    CostsSplit(es[i..], 1);
    assert es[i..][..1] == [es[i]] && es[i..][1..] == es[i + 1..];
    CostsOne(es[i]);
  }

  /** No entry costs more than `limit`. */
  ghost predicate AllWithin(es: seq<Entry>, limit: nat) {
    forall i :: 0 <= i < |es| ==> Cost(es[i]) <= limit
  }

  lemma CostsOfFew(es: seq<Entry>, limit: nat)
    requires AllWithin(es, limit) && |es| <= 2
    ensures Costs(es) <= 2 * limit
  {
    if |es| == 2 {
      CostsPrefix(es, 1);
      CostsPrefix(es, 0);
      assert es[..2] == es;
    } else if |es| == 1 {
      CostsPrefix(es, 0);
      assert es[..1] == es;
    }
  }

  lemma CostsPrefix(es: seq<Entry>, i: nat)
    requires i < |es|
    ensures Costs(es[..i + 1]) == Costs(es[..i]) + Cost(es[i])
    ensures Costs(es[..0]) == 0
  {
    assert es[..i + 1][..i] == es[..i];
  }

  /** Placing a cell fails exactly when the live entries leave no room for it. */
  lemma PlaceRoom(n: Node, i: nat, e: Entry)
    requires i <= |n.entries|
    ensures PlaceAt(n, i, e).0 <==> Costs(n.entries) + Cost(e) <= USABLE
    ensures PlaceAt(n, i, e).0 ==> PlaceAt(n, i, e).1.entries == Inserted(n.entries, i, e)
                                   && Used(PlaceAt(n, i, e).1) <= USABLE
    ensures PlaceAt(n, i, e).0 ==> PlaceAt(n, i, e).1.dead == if Used(n) + Cost(e) <= USABLE then n.dead else 0
    ensures !PlaceAt(n, i, e).0 ==> PlaceAt(n, i, e).1 == Compacted(n)
  {
    CostsInserted(n.entries, i, e);
  }

  /** The leaf insert refuses exactly when the live bytes without the replaced cell plus the
      new cost exceed the page, and then the page is compacted and the old cell gone. */
  lemma InsertCellRoom(rank: Rank, n: Node, k: Key, v: Value)
    requires n.leaf && Sorted(rank, n.entries) && Used(n) <= USABLE
    requires forall e :: e in n.entries ==> e.KV?
    ensures var i := LowerBound(rank, n.entries, k);
            var (ok, n') := InsertCell(rank, n, k, v);
            var gone := if Present(rank, n.entries, k) then Cost(n.entries[i]) else 0;
            && (ok <==> Costs(n.entries) - gone + Cost(KV(k, v)) <= USABLE)
            && (!ok ==> n'.dead == 0)
            && Used(n') <= USABLE
  {
    hide Costs;
    var i := LowerBound(rank, n.entries, k);
    if Present(rank, n.entries, k) {
      var e := n.entries[i];
      assert e in n.entries;
      CostsRemoved(n.entries, i);
      if |e.val| == |v| {
        CostsRemoved(n.entries[i := KV(k, v)], i);
        assert Removed(n.entries[i := KV(k, v)], i) == Removed(n.entries, i);
      } else {
        PlaceRoom(RemoveAt(n, i), i, KV(k, v));
      }
    } else {
      PlaceRoom(n, i, KV(k, v));
    }
  }

  /** Dead bytes outlive an insert exactly when the gap is large enough without compacting. */
  lemma InsertCellDead(rank: Rank, n: Node, k: Key, v: Value)
    requires n.leaf && forall e :: e in n.entries ==> e.KV?
    requires InsertCell(rank, n, k, v).0
    ensures var i, dead := LowerBound(rank, n.entries, k), InsertCell(rank, n, k, v).1.dead;
            if !Present(rank, n.entries, k) then dead == if Used(n) + Cost(KV(k, v)) <= USABLE then n.dead else 0
            else if |n.entries[i].val| == |v| then dead == n.dead
            else dead == if Used(n) + Payload(KV(k, v)) <= USABLE then n.dead + Payload(n.entries[i]) else 0
  {
    hide Costs;
    var i := LowerBound(rank, n.entries, k);
    if Present(rank, n.entries, k) {
      CostsRemoved(n.entries, i);
      PlaceRoom(RemoveAt(n, i), i, KV(k, v));
    } else {
      PlaceRoom(n, i, KV(k, v));
    }
  }

  // ------------------------------------------------------------------- splits

  /** The code's scan for a byte-balanced split: stop before the entry that would take the
      left part past `half`, but never before the first. */
  function SplitFrom(es: seq<Entry>, half: nat, i: nat, acc: nat): (r: nat)
    requires i <= |es|
    ensures i <= r <= |es|
    decreases |es| - i
  {
    if i == |es| then i
    else if acc + Cost(es[i]) > half && i > 0 then i
    else SplitFrom(es, half, i + 1, acc + Cost(es[i]))
  }

  function SplitPoint(n: Node): nat { SplitFrom(n.entries, Used(n) / 2, 0, 0) }

  /** Interior position of the promoted separator, clamped at the upper end. The scan never
      returns 0 for a node with two entries, so no lower clamp can take effect. */
  function PromotePoint(n: Node): (mid: nat)
    requires |n.entries| >= 2
    ensures 1 <= mid < |n.entries|
  {
    var m := SplitPoint(n);
    if m >= |n.entries| - 1 then |n.entries| - 1 else m
  }

  /** The cut `r` is the last one whose left part stays within `half`, but not before the first entry. */
  predicate CutsAt(es: seq<Entry>, half: nat, r: nat) {
    && 1 <= r <= |es|
    && (r > 1 ==> Costs(es[..r]) <= half)
    && (r < |es| ==> Costs(es[..r + 1]) > half)
  }

  /** The scan finds that cut, and there is only one. */
  lemma SplitPointIs(n: Node, r: nat)
    requires n.entries != []
    ensures r == SplitPoint(n) <==> CutsAt(n.entries, Used(n) / 2, r)
  {
    hide Costs;
    CostsPrefix(n.entries, 0);
    SplitFromCuts(n.entries, Used(n) / 2, 0);
    if CutsAt(n.entries, Used(n) / 2, r) { CutIsUnique(n.entries, Used(n) / 2, r, SplitPoint(n)); }
  }

  /** A compacted page is cut strictly inside: the byte-balanced cut of its live bytes, whatever the
      sizes of its cells. */
  lemma CompactedSplit(n: Node)
    requires |n.entries| >= 2 && n.dead == 0
    ensures var r, half := SplitPoint(n), Costs(n.entries) / 2;
            && 1 <= r < |n.entries|
            && Costs(n.entries[..r + 1]) > half
            && (r > 1 ==> Costs(n.entries[..r]) <= half)
  {
    hide Costs, SplitPoint;
    SplitIsInside(n);
    SplitPointIs(n, SplitPoint(n));
  }

  /** The separator `mid` goes up from the same cut, but it is one of the entries in any case. */
  predicate PromotesAt(es: seq<Entry>, half: nat, mid: nat) {
    && 1 <= mid < |es|
    && (mid > 1 ==> Costs(es[..mid]) <= half)
    && (mid + 1 < |es| ==> Costs(es[..mid + 1]) > half)
  }

  lemma PromotePointIs(n: Node, mid: nat)
    requires |n.entries| >= 2
    ensures mid == PromotePoint(n) <==> PromotesAt(n.entries, Used(n) / 2, mid)
  {
    hide Costs, SplitPoint;
    var m, last := SplitPoint(n), |n.entries| - 1;
    SplitPointIs(n, m);
    if m > last { CostsGrow(n.entries, last, m); }
    if PromotesAt(n.entries, Used(n) / 2, mid) { PromotionIsUnique(n.entries, Used(n) / 2, mid, PromotePoint(n)); }
  }

  lemma PromotionIsUnique(es: seq<Entry>, half: nat, r: nat, s: nat)
    requires PromotesAt(es, half, r) && PromotesAt(es, half, s)
    ensures r == s
  {
    hide Costs;
    if r < s { CostsGrow(es, r + 1, s); }
    if s < r { CostsGrow(es, s + 1, r); }
  }

  lemma {:induction false} SplitFromCuts(es: seq<Entry>, half: nat, i: nat)
    requires i <= |es| && es != [] && (i > 1 ==> Costs(es[..i]) <= half)
    ensures CutsAt(es, half, SplitFrom(es, half, i, Costs(es[..i])))
    decreases |es| - i
  {
    hide Costs, Cost;
    if i < |es| {
      CostsPrefix(es, i);
      if !(Costs(es[..i + 1]) > half && i > 0) { SplitFromCuts(es, half, i + 1); }
    }
  }

  lemma {:induction false} CostsGrow(es: seq<Entry>, i: nat, j: nat)
    requires i <= j <= |es|
    ensures Costs(es[..i]) <= Costs(es[..j])
    decreases j
  {
    hide Costs, Cost;
    if i < j {
      CostsPrefix(es, j - 1);
      CostsGrow(es, i, j - 1);
    }
  }

  lemma CutIsUnique(es: seq<Entry>, half: nat, r: nat, s: nat)
    requires CutsAt(es, half, r) && CutsAt(es, half, s)
    ensures r == s
  {
    hide Costs;
    if r < s { CostsGrow(es, r + 1, s); }
    if s < r { CostsGrow(es, s + 1, r); }
  }

  lemma {:induction false} SplitFromFacts(es: seq<Entry>, half: nat, i: nat)
    requires i <= |es| && Costs(es) > half
    requires es != [] && Cost(es[0]) <= half
    requires Costs(es[..i]) <= half
    ensures var r := SplitFrom(es, half, i, Costs(es[..i]));
            1 <= r < |es| && Costs(es[..r]) <= half < Costs(es[..r + 1])
    decreases |es| - i
  {
    hide Costs, Cost;
    assert es[..|es|] == es;
    if i < |es| {
      CostsPrefix(es, i);
      if !(Costs(es[..i + 1]) > half && i > 0) {
        SplitFromFacts(es, half, i + 1);
      }
    }
  }

  /** A compacted node with two or more entries is cut inside, however large they are. */
  lemma SplitIsInside(n: Node)
    requires |n.entries| >= 2 && n.dead == 0
    ensures 1 <= SplitPoint(n) < |n.entries|
  {
    hide Costs;
    CostsPositive(n.entries);
    assert n.entries[..0] == [];
    SplitFromInside(n.entries, Costs(n.entries) / 2, 0) by { CostsPrefix(n.entries, 0); }
    CostsPrefix(n.entries, 0);
  }

  lemma CostsPositive(es: seq<Entry>)
    requires es != []
    ensures Costs(es) > 0
  {
  }

  lemma {:induction false} SplitFromInside(es: seq<Entry>, half: nat, i: nat)
    requires |es| >= 2 && i < |es| && Costs(es) > half
    ensures 1 <= SplitFrom(es, half, i, Costs(es[..i])) < |es|
    decreases |es| - i
  {
    hide Costs, Cost;
    assert es[..|es|] == es;
    CostsPrefix(es, i);
    if !(Costs(es[..i + 1]) > half && i > 0) {
      assert i + 1 < |es|;
      SplitFromInside(es, half, i + 1);
    }
  }

  /** A compacted node that cannot take one more entry, all entries within the limit, is cut
      into two parts that each can. */
  lemma SplitMakesRoom(n: Node, limit: nat, cost: nat)
    requires limit <= SEP_LIMIT && AllWithin(n.entries, limit) && cost <= limit
    requires n.dead == 0 && Costs(n.entries) <= USABLE && Costs(n.entries) + cost > USABLE
    ensures |n.entries| >= 3
    ensures 1 <= SplitPoint(n) <= |n.entries| - 2
    ensures PromotePoint(n) == SplitPoint(n)
    ensures var r := SplitPoint(n);
            && Costs(n.entries[..r]) + cost <= USABLE
            && Costs(n.entries[r + 1..]) + cost <= USABLE
            && (limit <= LEAF_LIMIT ==> Costs(n.entries[r..]) + cost <= USABLE)
  {
    hide Costs, Cost;
    var es := n.entries;
    if |es| <= 2 { CostsOfFew(es, limit); }
    var half := Costs(es) / 2;
    CostsPrefix(es, 0);
    SplitFromFacts(es, half, 0);
    var r := SplitPoint(n);
    CostsSplit(es, r);
    CostsSplit(es, r + 1);
    CostsPrefix(es, r);
    assert es[..|es|] == es;
    assert Cost(es[r]) <= limit;
  }

  /** What stays in a page after its entries from `i` on were removed one by one. */
  function KeepFirst(n: Node, i: nat): Node
    requires i <= |n.entries|
  {
    n.(entries := n.entries[..i], dead := n.dead + Payloads(n.entries[i..]))
  }

  function Payloads(es: seq<Entry>): nat {
    if es == [] then 0 else Payloads(es[..|es| - 1]) + Payload(es[|es| - 1])
  }

  lemma {:induction false} PayloadsCosts(es: seq<Entry>)
    ensures Costs(es) == Payloads(es) + 2 * |es|
  {
    if es != [] { PayloadsCosts(es[..|es| - 1]); }
  }

  lemma KeepFirstFits(n: Node, i: nat)
    requires i <= |n.entries|
    ensures Used(KeepFirst(n, i)) <= Used(n)
  {
    CostsSplit(n.entries, i);
    PayloadsCosts(n.entries[i..]);
  }

  /** `es'` is `es` with `k` bound to `v` and nothing else changed. */
  ghost predicate Overwrites(es: seq<Entry>, es': seq<Entry>, k: Key, v: Value) {
    && KV(k, v) in es'
    && (forall e :: e in es' ==> e == KV(k, v) || (e in es && e.key != k))
    && (forall e :: e in es && e.key != k ==> e in es')
  }

  /** `es'` is `es` without any entry for `k`. */
  ghost predicate Drops(es: seq<Entry>, es': seq<Entry>, k: Key) {
    forall e :: e in es' <==> e in es && e.key != k
  }

  lemma RemovedEntries(es: seq<Entry>, i: nat)
    requires i < |es|
    ensures |Removed(es, i)| == |es| - 1
    ensures forall j :: 0 <= j < |es| - 1 ==> Removed(es, i)[j] == es[if j < i then j else j + 1]
  {
  }

  lemma RemovedDrops(rank: Rank, es: seq<Entry>, i: nat)
    requires Sorted(rank, es) && i < |es|
    ensures Sorted(rank, Removed(es, i)) && Drops(es, Removed(es, i), es[i].key)
  {
    hide Removed;
    var es' := Removed(es, i);
    RemovedEntries(es, i);
    forall e | e in es && e.key != es[i].key ensures e in es' {
      var j :| 0 <= j < |es| && es[j] == e;
      assert es'[if j < i then j else j - 1] == e;
    }
    forall e | e in es' ensures e in es && e.key != es[i].key {
      var j :| 0 <= j < |es'| && es'[j] == e;
      var l := if j < i then j else j + 1;
      assert es[l] == e;
      assert rank(es[l].key) != rank(es[i].key);
    }
  }

  lemma AbsentDrops(rank: Rank, es: seq<Entry>, k: Key)
    requires Sorted(rank, es) && !Present(rank, es, k)
    ensures Drops(es, es, k)
  {
    PresentIffHas(rank, es, k);
  }

  lemma SortedInserted(rank: Rank, es: seq<Entry>, i: nat, e: Entry)
    requires Sorted(rank, es) && i <= |es|
    requires i > 0 ==> rank(es[i - 1].key) < rank(e.key)
    requires i < |es| ==> rank(e.key) < rank(es[i].key)
    ensures Sorted(rank, Inserted(es, i, e))
  {
    var es' := Inserted(es, i, e);
    InsertedEntries(es, i, e);
    forall a, b | 0 <= a < b < |es'| ensures rank(es'[a].key) < rank(es'[b].key) {
      if a == i {
        assert b - 1 > i ==> rank(es[i].key) < rank(es[b - 1].key);
      } else if b == i {
        assert a < i - 1 ==> rank(es[a].key) < rank(es[i - 1].key);
      }
    }
  }

  lemma InsertedEntries(es: seq<Entry>, i: nat, e: Entry)
    requires i <= |es|
    ensures var es' := Inserted(es, i, e);
            && |es'| == |es| + 1 && es'[i] == e
            && (forall j :: 0 <= j < i ==> es'[j] == es[j])
            && (forall j :: i < j < |es'| ==> es'[j] == es[j - 1])
  {
  }

  /** Inserting a key a sorted page does not hold, at its lower bound. */
  lemma InsertedAtBound(rank: Rank, es: seq<Entry>, k: Key, e: Entry)
    requires Ordered(rank) && Sorted(rank, es) && e.key == k && !HasKey(es, k)
    ensures Sorted(rank, Inserted(es, LowerBound(rank, es, k), e))
    ensures forall x :: x in Inserted(es, LowerBound(rank, es, k), e) <==> x in es || x == e
  {
    hide Ordered, Inserted, Sorted;
    var i := LowerBound(rank, es, k);
    if i < |es| && rank(es[i].key) == rank(k) { SameRank(rank, es[i].key, k); }
    SortedInserted(rank, es, i, e);
    InsertedMembers(es, i, e);
  }

  lemma InsertedMembers(es: seq<Entry>, i: nat, e: Entry)
    requires i <= |es|
    ensures forall x :: x in Inserted(es, i, e) <==> x in es || x == e
  {
    var es' := Inserted(es, i, e);
    forall x | x in es ensures x in es' {
      var j :| 0 <= j < |es| && es[j] == x;
      assert es'[if j < i then j else j + 1] == x;
    }
  }

  /** The leaf insert, when it succeeds, overwrites exactly one binding; when it does not, it
      leaves a compacted page without the key. */
  lemma InsertCellContent(rank: Rank, n: Node, k: Key, v: Value)
    requires Ordered(rank) && n.leaf && Sorted(rank, n.entries)
    requires forall e :: e in n.entries ==> e.KV?
    ensures var (ok, n') := InsertCell(rank, n, k, v);
            && n' == n.(entries := n'.entries, dead := n'.dead)
            && Sorted(rank, n'.entries)
            && (ok ==> Overwrites(n.entries, n'.entries, k, v))
            && (!ok ==> n'.dead == 0 && Drops(n.entries, n'.entries, k))
  {
    hide Ordered, Costs, Sorted, Overwrites, Drops, HasKey, Inserted, Removed;
    var i := LowerBound(rank, n.entries, k);
    PresentIffHas(rank, n.entries, k);
    if Present(rank, n.entries, k) {
      if |n.entries[i].val| == |v| {
        ReplacedOverwrites(rank, n.entries, i, v);
      } else {
        RemovedDrops(rank, n.entries, i);
        BoundAfterRemoval(rank, n.entries, i);
        PlacedContent(rank, n.entries, RemoveAt(n, i), i, k, v);
      }
    } else {
      AbsentDrops(rank, n.entries, k);
      PlacedContent(rank, n.entries, n, i, k, v);
    }
  }

  lemma BoundAfterRemoval(rank: Rank, es: seq<Entry>, i: nat)
    requires Sorted(rank, es) && i < |es|
    ensures i <= |Removed(es, i)|
    ensures forall j :: 0 <= j < i ==> rank(Removed(es, i)[j].key) < rank(es[i].key)
    ensures i < |Removed(es, i)| ==> rank(Removed(es, i)[i].key) >= rank(es[i].key)
  {
    RemovedEntries(es, i);
  }

  /** Placing a cell for a key the page was just cleared of. */
  lemma PlacedContent(rank: Rank, es: seq<Entry>, m: Node, i: nat, k: Key, v: Value)
    requires Ordered(rank) && Sorted(rank, m.entries) && Drops(es, m.entries, k)
    requires i <= |m.entries| && (forall j :: 0 <= j < i ==> rank(m.entries[j].key) < rank(k))
    requires i < |m.entries| ==> rank(m.entries[i].key) >= rank(k)
    ensures var (ok, n') := PlaceAt(m, i, KV(k, v));
            && n' == m.(entries := n'.entries, dead := n'.dead)
            && Sorted(rank, n'.entries)
            && (ok ==> Overwrites(es, n'.entries, k, v))
            && (!ok ==> n'.dead == 0 && Drops(es, n'.entries, k))
  {
    hide Ordered, Costs, Inserted;
    assert !HasKey(m.entries, k);
    LowerBoundIs(rank, m.entries, k, i);
    InsertedAtBound(rank, m.entries, k, KV(k, v));
    PlaceRoom(m, i, KV(k, v));
  }

  lemma ReplacedOverwrites(rank: Rank, es: seq<Entry>, i: nat, v: Value)
    requires Sorted(rank, es) && i < |es|
    ensures var es' := es[i := KV(es[i].key, v)]; Sorted(rank, es') && Overwrites(es, es', es[i].key, v)
  {
    var k := es[i].key;
    var es' := es[i := KV(k, v)];
    assert es'[i] in es';
    forall e | e in es && e.key != k ensures e in es' {
      var j :| 0 <= j < |es| && es[j] == e;
      assert es'[j] == e;
    }
    forall e | e in es' ensures e == KV(k, v) || (e in es && e.key != k) {
      var j :| 0 <= j < |es'| && es'[j] == e;
      if j < i { assert rank(es[j].key) < rank(es[i].key); }
      if j > i { assert rank(es[i].key) < rank(es[j].key); }
    }
  }
}
