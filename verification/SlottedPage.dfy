/** The slotted page at byte level. The bytes are the only executable representation of the
    cells; the ghost entries say what they encode. */
module SlottedPages {
  import opened Base
  import opened Bytes
  import opened Nodes
  import opened Trees
  import opened TreeBooks
  import opened Rebalancing
  import Storage

  const DATA := Storage.DATA_SIZE
  const SLOTS := 32

  /** What follows the key in a cell: value length and value, or the child id. */
  function Tail(e: Entry): seq<byte> {
    match e
    case KV(_, v) => PutInt(|v|, 2) + v
    case KP(_, c) => PutInt32(c)
  }

  /** Wire format of a cell: key length, key, tail. */
  function EncodeEntry(e: Entry): (b: seq<byte>)
    ensures |b| == Payload(e)
  {
    PutInt(|e.key|, 2) + e.key + Tail(e)
  }

  function U16(d: seq<byte>, off: nat): nat
    requires off + 2 <= |d|
  {
    GetInt(d[off..off + 2])
  }

  /** Offset of the cell in slot `i`. */
  function SlotOf(d: seq<byte>, i: nat): nat
    requires SLOTS + 2 * i + 2 <= |d|
  {
    U16(d, SLOTS + 2 * i)
  }

  /** The cell in slot `i` lies in the heap and encodes `e`. */
  ghost predicate CellIs(d: seq<byte>, cellEnd: nat, i: nat, e: Entry)
    requires |d| == DATA && SLOTS + 2 * i + 2 <= |d|
  {
    var off := SlotOf(d, i);
    cellEnd <= off && off + Payload(e) <= DATA && d[off..off + Payload(e)] == EncodeEntry(e)
  }

  ghost predicate Apart(d: seq<byte>, i: nat, a: Entry, j: nat, b: Entry)
    requires SLOTS + 2 * i + 2 <= |d| && SLOTS + 2 * j + 2 <= |d|
  {
    SlotOf(d, i) + Payload(a) <= SlotOf(d, j) || SlotOf(d, j) + Payload(b) <= SlotOf(d, i)
  }

  /** Slot array and heap do not meet; live cells are in the heap and do not overlap. */
  ghost predicate Laid(d: seq<byte>, cellEnd: nat, es: seq<Entry>) {
    && |d| == DATA && SLOTS + 2 * |es| <= cellEnd <= DATA
    && (forall i :: 0 <= i < |es| ==> CellIs(d, cellEnd, i, es[i]))
    && (forall i, j :: 0 <= i < j < |es| ==> Apart(d, i, es[i], j, es[j]))
  }

  // ------------------------------------------------------------------ byte facts

  lemma SliceAway(d: seq<byte>, off: nat, s: seq<byte>, x: nat, y: nat)
    requires off + |s| <= |d| && x <= y <= |d|
    requires y <= off || off + |s| <= x
    ensures Splice(d, off, s)[x..y] == d[x..y]
  {
    assert forall i :: x <= i < y ==> Splice(d, off, s)[i] == d[i];
  }

  lemma SlotAfterWrite(d: seq<byte>, j: nat, v: nat, i: nat)
    requires |d| == DATA && SLOTS + 2 * j + 2 <= DATA && SLOTS + 2 * i + 2 <= DATA && v < 0x1_0000
    ensures SlotOf(Splice(d, SLOTS + 2 * j, PutInt(v, 2)), i) == if i == j then v else SlotOf(d, i)
  {
    hide PutInt, GetInt;
    if i == j {
      Powers();
      GetPut(v, 2);
    } else {
      SliceAway(d, SLOTS + 2 * j, PutInt(v, 2), SLOTS + 2 * i, SLOTS + 2 * i + 2);
    }
  }

  /** Bytes below the heap may change freely. */
  lemma CellKept(d: seq<byte>, d': seq<byte>, cellEnd: nat, i: nat, e: Entry, i': nat)
    requires |d| == |d'| == DATA && SLOTS + 2 * i + 2 <= DATA && SLOTS + 2 * i' + 2 <= DATA
    requires CellIs(d, cellEnd, i, e) && SlotOf(d', i') == SlotOf(d, i)
    requires forall x :: cellEnd <= x < DATA ==> d'[x] == d[x]
    ensures CellIs(d', cellEnd, i', e)
  {
    var off := SlotOf(d, i);
    assert d'[off..off + Payload(e)] == d[off..off + Payload(e)];
  }

  lemma SliceOfSlice(d: seq<byte>, off: nat, b: seq<byte>, x: nat, y: nat)
    requires off + |b| <= |d| && d[off..off + |b|] == b && x <= y <= |b|
    ensures d[off + x..off + y] == b[x..y]
  {
    assert forall i :: 0 <= i < |b| ==> b[i] == d[off + i];
  }

  lemma CellAt(d: seq<byte>, cellEnd: nat, es: seq<Entry>, i: nat)
    requires Laid(d, cellEnd, es) && i < |es|
    ensures |d| == DATA && SLOTS + 2 * i + 2 <= DATA && CellIs(d, cellEnd, i, es[i])
  {
  }

  lemma KeyInCell(d: seq<byte>, cellEnd: nat, i: nat, e: Entry)
    requires |d| == DATA && SLOTS + 2 * i + 2 <= DATA && CellIs(d, cellEnd, i, e)
    ensures var off := SlotOf(d, i);
            off + 2 + |e.key| <= DATA && U16(d, off) == |e.key| && d[off + 2..off + 2 + |e.key|] == e.key
  {
    hide PutInt, GetInt, Tail;
    var off := SlotOf(d, i);
    var b := EncodeEntry(e);
    SliceOfSlice(d, off, b, 0, 2);
    SliceOfSlice(d, off, b, 2, 2 + |e.key|);
    assert b[0..2] == PutInt(|e.key|, 2);
    assert b[2..2 + |e.key|] == e.key;
    Powers();
    GetPut(|e.key|, 2);
  }

  lemma TailInCell(d: seq<byte>, cellEnd: nat, i: nat, e: Entry)
    requires |d| == DATA && SLOTS + 2 * i + 2 <= DATA && CellIs(d, cellEnd, i, e)
    ensures var off := SlotOf(d, i) + 2 + |e.key|;
            off + |Tail(e)| <= DATA && d[off..off + |Tail(e)|] == Tail(e)
  {
    hide PutInt, GetInt;
    var b := EncodeEntry(e);
    SliceOfSlice(d, SlotOf(d, i), b, 2 + |e.key|, |b|);
    assert b[2 + |e.key|..] == Tail(e);
  }

  lemma ValueInCell(d: seq<byte>, cellEnd: nat, i: nat, e: Entry)
    requires |d| == DATA && SLOTS + 2 * i + 2 <= DATA && CellIs(d, cellEnd, i, e) && e.KV?
    ensures var off := SlotOf(d, i) + 2 + |e.key|;
            off + 2 + |e.val| <= DATA && U16(d, off) == |e.val| && d[off + 2..off + 2 + |e.val|] == e.val
  {
    hide PutInt, GetInt;
    var off := SlotOf(d, i) + 2 + |e.key|;
    TailInCell(d, cellEnd, i, e);
    SliceOfSlice(d, off, Tail(e), 0, 2);
    SliceOfSlice(d, off, Tail(e), 2, 2 + |e.val|);
    assert Tail(e)[0..2] == PutInt(|e.val|, 2);
    assert Tail(e)[2..2 + |e.val|] == e.val;
    Powers();
    GetPut(|e.val|, 2);
  }

  lemma ChildInCell(d: seq<byte>, cellEnd: nat, i: nat, e: Entry)
    requires |d| == DATA && SLOTS + 2 * i + 2 <= DATA && CellIs(d, cellEnd, i, e) && e.KP?
    requires Int32(e.child)
    ensures var off := SlotOf(d, i) + 2 + |e.key|;
            off + 4 <= DATA && e.child == GetInt32(d[off..off + 4])
  {
    hide PutInt32, GetInt32;
    TailInCell(d, cellEnd, i, e);
    Int32RoundTrip(e.child);
  }

  /** The format of a page, byte by byte: slot `i` is the offset at 32 + 2i; there the key length and
      the key, then the value length and the value of a leaf cell, or the signed child id of an
      internal one. Offsets and lengths take two bytes, ids four, least significant first. */
  lemma PageFormat(d: seq<byte>, cellEnd: nat, es: seq<Entry>, i: nat)
    requires Laid(d, cellEnd, es) && i < |es| && (es[i].KP? ==> Int32(es[i].child))
    ensures 32 + 2 * i + 2 <= |d|
    ensures var off, e := HalfWord(d, 32 + 2 * i), es[i];
            var at := off + 2 + |e.key|;
            && at + 2 <= |d| && HalfWord(d, off) == |e.key| && d[off + 2..at] == e.key
            && (e.KV? ==> at + 2 + |e.val| <= |d| && HalfWord(d, at) == |e.val| && d[at + 2..at + 2 + |e.val|] == e.val)
            && (e.KP? ==> at + 4 <= |d| && Signed32(Word(d, at)) == e.child)
  {
    hide GetInt, HalfWord, Word, EncodeEntry, Tail;
    CellAt(d, cellEnd, es, i);
    HalfWordIs(d, 32 + 2 * i);
    KeyInCell(d, cellEnd, i, es[i]);
    HalfWordIs(d, SlotOf(d, i));
    var at := SlotOf(d, i) + 2 + |es[i].key|;
    if es[i].KV? {
      ValueInCell(d, cellEnd, i, es[i]);
      HalfWordIs(d, at);
    } else {
      ChildInCell(d, cellEnd, i, es[i]);
      WordIs(d, at);
    }
  }

  /** An entry of the right kind for the page; child ids are 32-bit. */
  predicate Proper(leaf: bool, e: Entry) {
    (e.KV? <==> leaf) && (e.KP? ==> Int32(e.child))
  }

  // ---------------------------------------------------------------- layout edits

  /** `d'` has the first `n` slots of `d` with one for `off` squeezed in at `s`. */
  ghost predicate SlotOpened(d: seq<byte>, d': seq<byte>, n: nat, s: nat, off: nat)
    requires |d| == |d'| == DATA && SLOTS + 2 * n + 2 <= DATA
  {
    forall i {:trigger SlotOf(d', i)} :: 0 <= i <= n ==>
                  SlotOf(d', i) == if i < s then SlotOf(d, i) else if i == s then off else SlotOf(d, i - 1)
  }

  lemma OpenedAt(d: seq<byte>, d': seq<byte>, n: nat, s: nat, off: nat, i: nat)
    requires |d| == |d'| == DATA && SLOTS + 2 * n + 2 <= DATA && SlotOpened(d, d', n, s, off) && i <= n
    ensures SlotOf(d', i) == if i < s then SlotOf(d, i) else if i == s then off else SlotOf(d, i - 1)
  {
  }

  /** A new cell right below the heap, its slot squeezed in at `s`. */
  lemma LaidInsert(d: seq<byte>, d': seq<byte>, cellEnd: nat, es: seq<Entry>, s: nat, e: Entry)
    requires Laid(d, cellEnd, es) && s <= |es| && |d'| == DATA
    requires SLOTS + 2 * |es| + 2 + Payload(e) <= cellEnd
    requires SlotOpened(d, d', |es|, s, cellEnd - Payload(e))
    requires d'[cellEnd - Payload(e)..cellEnd] == EncodeEntry(e)
    requires forall x :: cellEnd <= x < DATA ==> d'[x] == d[x]
    ensures Laid(d', cellEnd - Payload(e), Inserted(es, s, e))
  {
    hide EncodeEntry, SlotOf, Payload, Inserted, SlotOpened;
    var es' := Inserted(es, s, e);
    var c' := cellEnd - Payload(e);
    InsertedEntries(es, s, e);
    forall i | 0 <= i < |es'| ensures CellIs(d', c', i, es'[i]) {
      OpenedAt(d, d', |es|, s, c', i);
      if i != s {
        var j := if i < s then i else i - 1;
        CellAt(d, cellEnd, es, j);
        CellKept(d, d', cellEnd, j, es[j], i);
      }
    }
    forall i, j | 0 <= i < j < |es'| ensures Apart(d', i, es'[i], j, es'[j]) {
      OpenedAt(d, d', |es|, s, c', i);
      OpenedAt(d, d', |es|, s, c', j);
      if i == s {
        CellAt(d, cellEnd, es, j - 1);
      } else if j == s {
        CellAt(d, cellEnd, es, i);
      } else {
        assert Apart(d, if i < s then i else i - 1, es'[i], if j < s then j else j - 1, es'[j]);
      }
    }
  }

  lemma LaidRemove(d: seq<byte>, d': seq<byte>, cellEnd: nat, es: seq<Entry>, s: nat)
    requires Laid(d, cellEnd, es) && s < |es| && |d'| == DATA
    requires forall i :: 0 <= i < |es| - 1 ==> SlotOf(d', i) == SlotOf(d, if i < s then i else i + 1)
    requires forall x :: cellEnd <= x < DATA ==> d'[x] == d[x]
    ensures Laid(d', cellEnd, Removed(es, s))
  {
    hide EncodeEntry, U16, Payload, Removed;
    var es' := Removed(es, s);
    RemovedEntries(es, s);
    forall i | 0 <= i < |es'| ensures CellIs(d', cellEnd, i, es'[i]) {
      var j := if i < s then i else i + 1;
      assert CellIs(d, cellEnd, j, es[j]);
      CellKept(d, d', cellEnd, j, es[j], i);
    }
    forall i, j | 0 <= i < j < |es'| ensures Apart(d', i, es'[i], j, es'[j]) {
      assert Apart(d, if i < s then i else i + 1, es'[i], if j < s then j else j + 1, es'[j]);
    }
  }

  /** Bytes written inside the cell of slot `s` make it a cell of the same size. */
  lemma LaidPatch(d: seq<byte>, cellEnd: nat, es: seq<Entry>, s: nat, at: nat, b: seq<byte>, e: Entry)
    requires Laid(d, cellEnd, es) && s < |es| && Payload(e) == Payload(es[s])
    requires SlotOf(d, s) <= at && at + |b| <= SlotOf(d, s) + Payload(e) <= DATA
    requires Splice(d, at, b)[SlotOf(d, s)..SlotOf(d, s) + Payload(e)] == EncodeEntry(e)
    ensures Laid(Splice(d, at, b), cellEnd, es[s := e])
  {
    hide EncodeEntry, U16, Splice;
    var d', es' := Splice(d, at, b), es[s := e];
    assert CellIs(d, cellEnd, s, es[s]);
    forall i | 0 <= i < |es'| ensures SlotOf(d', i) == SlotOf(d, i) { SlotElsewhere(d, at, b, i); }
    assert CellIs(d', cellEnd, s, e);
    forall i | 0 <= i < |es'| ensures CellIs(d', cellEnd, i, es'[i]) {
      if i != s { CellBeside(d, cellEnd, es, s, at, b, i); }
    }
    forall i, j | 0 <= i < j < |es'| ensures Apart(d', i, es'[i], j, es'[j]) {
      assert Apart(d, i, es[i], j, es[j]);
    }
  }

  /** Overwriting a value with one of the same size, inside its cell. */
  lemma LaidReplace(d: seq<byte>, cellEnd: nat, es: seq<Entry>, s: nat, v: Value)
    requires Laid(d, cellEnd, es) && s < |es| && es[s].KV? && |v| == |es[s].val|
    ensures var at := SlotOf(d, s) + 4 + |es[s].key|;
            at + |v| <= DATA && Laid(Splice(d, at, v), cellEnd, es[s := KV(es[s].key, v)])
  {
    hide EncodeEntry, U16, Splice;
    assert CellIs(d, cellEnd, s, es[s]);
    ReplacedCell(d, SlotOf(d, s), es[s], v);
    LaidPatch(d, cellEnd, es, s, SlotOf(d, s) + 4 + |es[s].key|, v, KV(es[s].key, v));
  }

  /** Overwriting a separator's key with one of the same length, length field included. */
  lemma LaidRename(d: seq<byte>, cellEnd: nat, es: seq<Entry>, s: nat, k: Key)
    requires Laid(d, cellEnd, es) && s < |es| && es[s].KP? && |k| == |es[s].key|
    ensures var b := PutInt(|k|, 2) + k;
            SlotOf(d, s) + |b| <= DATA && Laid(Splice(d, SlotOf(d, s), b), cellEnd, es[s := KP(k, es[s].child)])
  {
    hide EncodeEntry, U16, Splice, PutInt;
    var b := PutInt(|k|, 2) + k;
    assert CellIs(d, cellEnd, s, es[s]);
    RenamedCell(d, SlotOf(d, s), es[s], k);
    LaidPatch(d, cellEnd, es, s, SlotOf(d, s), b, KP(k, es[s].child));
  }

  lemma RenamedCell(d: seq<byte>, off: nat, e: Entry, k: Key)
    requires e.KP? && |k| == |e.key| && off + Payload(e) <= |d| && d[off..off + Payload(e)] == EncodeEntry(e)
    ensures Splice(d, off, PutInt(|k|, 2) + k)[off..off + Payload(e)] == EncodeEntry(KP(k, e.child))
  {
    hide PutInt, PutInt32;
    var b, w := EncodeEntry(e), PutInt(|k|, 2) + k;
    var n := 2 + |k|;
    var d' := Splice(d, off, w);
    SliceAway(d, off, w, off + n, off + Payload(e));
    SliceOfSlice(d, off, b, n, n + 4);
    assert b[n..n + 4] == PutInt32(e.child);
    assert d'[off..off + Payload(e)] == d'[off..off + n] + d'[off + n..off + Payload(e)];
  }

  /** Other cells do not see bytes written inside the cell of slot `s`. */
  lemma CellBeside(d: seq<byte>, cellEnd: nat, es: seq<Entry>, s: nat, at: nat, v: seq<byte>, i: nat)
    requires Laid(d, cellEnd, es) && s < |es| && i < |es| && i != s
    requires SlotOf(d, s) <= at && at + |v| <= SlotOf(d, s) + Payload(es[s]) <= DATA
    requires SlotOf(Splice(d, at, v), i) == SlotOf(d, i)
    ensures CellIs(Splice(d, at, v), cellEnd, i, es[i])
  {
    hide EncodeEntry, U16, Payload;
    assert CellIs(d, cellEnd, i, es[i]);
    if i < s { assert Apart(d, i, es[i], s, es[s]); } else { assert Apart(d, s, es[s], i, es[i]); }
    SliceAway(d, at, v, SlotOf(d, i), SlotOf(d, i) + Payload(es[i]));
  }

  lemma ReplacedCell(d: seq<byte>, off: nat, e: Entry, v: Value)
    requires e.KV? && |v| == |e.val| && off + Payload(e) <= |d| && d[off..off + Payload(e)] == EncodeEntry(e)
    ensures var at := off + 4 + |e.key|;
            Splice(d, at, v)[off..off + Payload(e)] == EncodeEntry(KV(e.key, v))
  {
    hide PutInt;
    var at := off + 4 + |e.key|;
    var b, b' := EncodeEntry(e), EncodeEntry(KV(e.key, v));
    var n := 4 + |e.key|;
    assert b[..n] == b'[..n];
    assert b'[n..] == v;
    var d' := Splice(d, at, v);
    SliceAway(d, at, v, off, at);
    SliceOfSlice(d, off, b, 0, n);
    assert d'[off..off + Payload(e)] == d'[off..at] + d'[at..at + |v|];
    assert b' == b'[..n] + b'[n..];
  }

  // ------------------------------------------------------------------- the page

  class SlottedPage {
    const rank: Rank
    const leaf: bool
    const data: array<byte>
    var cellEnd: nat
    var freeEnd: nat
    var numKeys: nat
    var parent: PageId
    var left: PageId
    var right: PageId
    var first: PageId
    ghost var entries: seq<Entry>
    ghost var dead: nat

    /** The node this page presents to the tree. */
    ghost function View(): Node
      reads this
    {
      Node(leaf, parent, left, right, first, entries, dead)
    }

    /** The bytes are the cells, in whatever order. */
    ghost predicate LaidOut()
      reads this, data
    {
      && data.Length == DATA && numKeys == |entries| && freeEnd == SLOTS + 2 * numKeys
      && Laid(data[..], cellEnd, entries)
      && DATA - cellEnd == Payloads(entries) + dead
      && (forall i :: 0 <= i < |entries| ==> Proper(leaf, entries[i]))
    }

    ghost predicate Valid()
      reads this, data
    {
      LaidOut() && Sorted(rank, entries)
    }

    constructor (rank: Rank, leaf: bool, parent: PageId)
      ensures Valid() && fresh(data) && this.rank == rank && this.leaf == leaf
      ensures View() == if leaf then EmptyLeaf(parent) else EmptyInternal(parent)
    {
      this.rank, this.leaf, this.parent := rank, leaf, parent;
      left, right, first := NO_PAGE, NO_PAGE, NO_PAGE;
      data := new byte[DATA](i => 0);
      numKeys, freeEnd, cellEnd := 0, SLOTS, DATA;
      entries, dead := [], 0;
    }

    /** The gap between the regions is what the node arithmetic says it is. */
    lemma GapIs()
      requires Valid()
      ensures cellEnd - freeEnd == Gap(View()) && Used(View()) <= USABLE
    {
      PayloadsCosts(entries);
    }

    method KeyAt(i: nat) returns (k: Key)
      requires Valid() && i < numKeys
      ensures k == entries[i].key
    {
      hide Laid, GetInt, EncodeEntry;
      var d := data[..];
      CellAt(d, cellEnd, entries, i);
      KeyInCell(d, cellEnd, i, entries[i]);
      var off := SlotOf(d, i);
      k := d[off + 2..off + 2 + U16(d, off)];
    }

    method ValueAt(i: nat) returns (v: Value)
      requires Valid() && i < numKeys && leaf
      ensures v == entries[i].val
    {
      hide Laid, GetInt, EncodeEntry;
      var d := data[..];
      CellAt(d, cellEnd, entries, i);
      KeyInCell(d, cellEnd, i, entries[i]);
      ValueInCell(d, cellEnd, i, entries[i]);
      var off := SlotOf(d, i);
      var at := off + 2 + U16(d, off);
      v := d[at + 2..at + 2 + U16(d, at)];
    }

    method ChildAt(i: nat) returns (c: PageId)
      requires Valid() && i < numKeys && !leaf
      ensures c == entries[i].child
    {
      hide Laid, GetInt, EncodeEntry;
      var d := data[..];
      CellAt(d, cellEnd, entries, i);
      KeyInCell(d, cellEnd, i, entries[i]);
      ChildInCell(d, cellEnd, i, entries[i]);
      var off := SlotOf(d, i);
      var at := off + 2 + U16(d, off);
      c := GetInt32(d[at..at + 4]);
    }

    method FindSlot(k: Key) returns (lo: nat)
      requires Valid()
      ensures lo == LowerBound(rank, entries, k)
    {
      hide Laid;
      var hi := numKeys;
      lo := 0;
      while lo < hi
        invariant 0 <= lo <= hi <= numKeys
        invariant forall j :: 0 <= j < lo ==> rank(entries[j].key) < rank(k)
        invariant forall j :: hi <= j < numKeys ==> rank(entries[j].key) >= rank(k)
      {
        var mid := lo + (hi - lo) / 2;
        var key := KeyAt(mid);
        if rank(key) < rank(k) {
          lo := mid + 1;
        } else {
          hi := mid;
        }
      }
      LowerBoundIs(rank, entries, k, lo);
    }

    method SetSlot(i: nat, off: nat)
      requires data.Length == DATA && SLOTS + 2 * i + 2 <= DATA && off < 0x1_0000
      modifies data
      ensures forall j :: 0 <= j && SLOTS + 2 * j + 2 <= DATA ==>
                            SlotOf(data[..], j) == if j == i then off else SlotOf(old(data[..]), j)
      ensures forall x :: 0 <= x < DATA && !(SLOTS + 2 * i <= x < SLOTS + 2 * i + 2) ==> data[x] == old(data[x])
    {
      hide PutInt, GetInt, U16;
      ghost var d := data[..];
      CopyInto(data, SLOTS + 2 * i, PutInt(off, 2));
      assert forall x :: 0 <= x < DATA && !(SLOTS + 2 * i <= x < SLOTS + 2 * i + 2) ==> data[..][x] == d[x];
      forall j | 0 <= j && SLOTS + 2 * j + 2 <= DATA
        ensures SlotOf(data[..], j) == if j == i then off else SlotOf(d, j)
      {
        SlotAfterWrite(d, i, off, j);
      }
    }

    /** Move the slots from `from` on one place up. */
    method ShiftSlotsRight(from: nat)
      requires data.Length == DATA && from <= numKeys && SLOTS + 2 * numKeys + 2 <= DATA
      requires forall j :: 0 <= j < numKeys ==> SlotOf(data[..], j) < 0x1_0000
      modifies data
      ensures forall j :: 0 <= j <= numKeys && j != from ==>
                            SlotOf(data[..], j) == SlotOf(old(data[..]), if j < from then j else j - 1)
      ensures forall x :: SLOTS + 2 * numKeys + 2 <= x < DATA ==> data[x] == old(data[x])
    {
      hide GetInt, U16;
      ghost var d := data[..];
      var i := numKeys;
      while i > from
        invariant from <= i <= numKeys
        invariant forall j :: 0 <= j <= i && j < numKeys ==> SlotOf(data[..], j) == SlotOf(d, j)
        invariant forall j :: i < j <= numKeys ==> SlotOf(data[..], j) == SlotOf(d, j - 1)
        invariant forall x :: SLOTS + 2 * numKeys + 2 <= x < DATA ==> data[x] == d[x]
      {
        SetSlot(i, SlotOf(data[..], i - 1));
        i := i - 1;
      }
    }

    /** Close the gap left by slot `from`. */
    method ShiftSlotsLeft(from: nat)
      requires data.Length == DATA && from < numKeys && SLOTS + 2 * numKeys <= DATA
      requires forall j :: 0 <= j < numKeys ==> SlotOf(data[..], j) < 0x1_0000
      modifies data
      ensures forall j :: 0 <= j < numKeys - 1 ==>
                            SlotOf(data[..], j) == SlotOf(old(data[..]), if j < from then j else j + 1)
      ensures forall x :: SLOTS + 2 * numKeys <= x < DATA ==> data[x] == old(data[x])
    {
      hide GetInt, U16;
      ghost var d := data[..];
      var i := from;
      while i + 1 < numKeys
        invariant from <= i < numKeys
        invariant forall j :: 0 <= j < i ==> SlotOf(data[..], j) == SlotOf(d, if j < from then j else j + 1)
        invariant forall j :: i <= j < numKeys ==> SlotOf(data[..], j) == SlotOf(d, j)
        invariant forall x :: SLOTS + 2 * numKeys <= x < DATA ==> data[x] == d[x]
      {
        SetSlot(i, SlotOf(data[..], i + 1));
        i := i + 1;
      }
    }

    lemma SlotsSmall()
      requires Valid()
      ensures forall j :: 0 <= j < numKeys ==> SlotOf(data[..], j) < 0x1_0000
    {
      forall j | 0 <= j < numKeys ensures SlotOf(data[..], j) < 0x1_0000 {
        CellAt(data[..], cellEnd, entries, j);
      }
    }

    /** Carve the cell out of the gap, then open a slot for it. */
    method WriteCell(s: nat, e: Entry)
      requires Valid() && s <= numKeys && Proper(leaf, e) && !Full(View(), Payload(e))
      requires s > 0 ==> rank(entries[s - 1].key) < rank(e.key)
      requires s < numKeys ==> rank(e.key) < rank(entries[s].key)
      modifies this, data
      ensures Valid() && View() == old(View()).(entries := Inserted(old(entries), s, e))
    {
      hide Laid, SlotOf, SlotOpened, GetInt, EncodeEntry, Inserted, Costs, Payloads, Sorted, Splice;
      GapIs();
      SlotsSmall();
      ghost var d := data[..];
      cellEnd := cellEnd - Payload(e);
      var off := cellEnd;
      CopyInto(data, off, EncodeEntry(e));
      SlotsKept(d, off, EncodeEntry(e), numKeys);
      OpenSlot(s, off);
      CellWritten(d, data[..], old(cellEnd), entries, s, e);
      InsertedFacts(rank, leaf, entries, s, e);
      entries := Inserted(entries, s, e);
    }

    /** Make room in the slot array and fill the new slot. */
    method OpenSlot(s: nat, off: nat)
      requires data.Length == DATA && s <= numKeys && SLOTS + 2 * numKeys + 2 <= DATA && off < 0x1_0000
      requires forall j :: 0 <= j < numKeys ==> SlotOf(data[..], j) < 0x1_0000
      modifies this`freeEnd, this`numKeys, data
      ensures freeEnd == old(freeEnd) + 2 && numKeys == old(numKeys) + 1
      ensures SlotOpened(old(data[..]), data[..], old(numKeys), s, off)
      ensures forall x :: SLOTS + 2 * old(numKeys) + 2 <= x < DATA ==> data[x] == old(data[x])
    {
      hide SlotOf;
      ghost var d := data[..];
      ShiftSlotsRight(s);
      ghost var d1 := data[..];
      SetSlot(s, off);
      forall j | 0 <= j <= numKeys
        ensures SlotOf(data[..], j) == if j < s then SlotOf(d, j) else if j == s then off else SlotOf(d, j - 1)
      {
        assert j != s ==> SlotOf(data[..], j) == SlotOf(d1, j);
      }
      freeEnd := freeEnd + 2;
      numKeys := numKeys + 1;
    }

    /** Forget slot `s`; the cell's bytes stay behind as dead heap. */
    method RemoveCell(s: nat)
      requires Valid() && s < numKeys
      modifies this, data
      ensures Valid() && View() == RemoveAt(old(View()), s)
    {
      hide Laid, U16, GetInt, Removed, Costs, Payloads, Sorted;
      SlotsSmall();
      ghost var d := data[..];
      LaidBounds(d, cellEnd, entries);
      ShiftSlotsLeft(s);
      numKeys := numKeys - 1;
      freeEnd := freeEnd - 2;
      LaidRemove(d, data[..], cellEnd, entries, s);
      RemovedFacts(rank, leaf, entries, s);
      dead := dead + Payload(entries[s]);
      entries := Removed(entries, s);
    }

    /** Read a whole cell back. */
    method ReadCell(i: nat) returns (e: Entry)
      requires Valid() && i < numKeys
      ensures e == entries[i]
    {
      hide Laid;
      var k := KeyAt(i);
      if leaf {
        var v := ValueAt(i);
        e := KV(k, v);
      } else {
        var c := ChildAt(i);
        e := KP(k, c);
      }
    }

    /** Copy all live cells out, zero the page, and write them back in slot order. */
    method Compact()
      requires Valid()
      modifies this, data
      ensures Valid() && View() == Compacted(old(View()))
    {
      hide Laid, Costs, Payloads, Sorted, U16;
      GapIs();
      ghost var all := entries;
      if numKeys == 0 {
        cellEnd := DATA;
        dead := 0;
        NothingLaid(data[..], entries);
        return;
      }
      var cells: seq<Entry> := [];
      for i := 0 to numKeys
        invariant Valid() && View() == old(View()) && numKeys == |all|
        invariant cells == all[..i]
      {
        var e := ReadCell(i);
        cells := cells + [e];
      }
      assert cells == all;
      Clear();
      for i := 0 to |cells|
        invariant Valid() && numKeys == i && dead == 0
        invariant View() == old(View()).(entries := cells[..i], dead := 0)
      {
        AppendFits(rank, cells, i, View());
        assert Inserted(cells[..i], i, cells[i]) == cells[..i + 1];
        WriteCell(numKeys, cells[i]);
      }
    }

    /** Zero the data area and start over; the node header fields stay. */
    method Clear()
      requires data.Length == DATA
      modifies this, data
      ensures Valid() && View() == old(View()).(entries := [], dead := 0)
    {
      forall i | 0 <= i < data.Length { data[i] := 0; }
      numKeys, freeEnd, cellEnd := 0, SLOTS, DATA;
      entries, dead := [], 0;
    }

    /** Insert or overwrite a leaf cell; false when even a compacted page has no room. */
    method InsertLeafCell(k: Key, v: Value) returns (ok: bool)
      requires Valid() && leaf && Ordered(rank)
      requires forall e :: e in entries ==> e.KV?
      modifies this, data
      ensures Valid() && (ok, View()) == InsertCell(rank, old(View()), k, v)
    {
      hide Laid, Costs, Payloads, Sorted, U16, Ordered, Removed, Inserted, LowerBound;
      ghost var n := View();
      GapIs();
      var s := FindSlot(k);
      var present := false;
      if s < numKeys {
        var key := KeyAt(s);
        present := key == k;
      }
      if present {
        var was := ValueAt(s);
        if |was| == |v| {
          OverwriteValue(s, v);
          return true;
        }
        RemoveCell(s);
        BoundAfterRemoval(rank, n.entries, s);
        GapIs();
      }
      ghost var m := View();
      NotThere(rank, n.entries, m.entries, s, k, present);
      ok := Place(s, KV(k, v));
    }

    method InsertSeparator(k: Key, c: PageId) returns (ok: bool)
      requires Valid() && !leaf && Ordered(rank) && !HasKey(entries, k) && Int32(c)
      modifies this, data
      ensures Valid() && (ok, View()) == InsertSep(rank, old(View()), k, c)
    {
      hide Laid, Costs, Payloads, Sorted, U16, Ordered, Removed, Inserted;
      var s := FindSlot(k);
      BetweenKeys(rank, entries, s, k);
      ok := Place(s, KP(k, c));
    }

    /** Compact if that is what it takes, then write the cell. */
    method Place(s: nat, e: Entry) returns (ok: bool)
      requires Valid() && s <= numKeys && Proper(leaf, e)
      requires s > 0 ==> rank(entries[s - 1].key) < rank(e.key)
      requires s < numKeys ==> rank(e.key) < rank(entries[s].key)
      modifies this, data
      ensures Valid() && (ok, View()) == PlaceAt(old(View()), s, e)
    {
      hide Laid, Costs, Payloads, Sorted, U16, Inserted;
      GapIs();
      if cellEnd - freeEnd < 2 + Payload(e) {
        Compact();
        GapIs();
      }
      if cellEnd - freeEnd < 2 + Payload(e) {
        return false;
      }
      WriteCell(s, e);
      return true;
    }

    method OverwriteValue(s: nat, v: Value)
      requires Valid() && leaf && s < numKeys && entries[s].KV? && |entries[s].val| == |v|
      modifies this`entries, data
      ensures Valid() && View() == old(View()).(entries := old(entries)[s := KV(old(entries)[s].key, v)])
    {
      hide Laid, Costs, U16, GetInt, Payloads, Sorted, CellIs, EncodeEntry, Splice, SlotOf;
      CellAt(data[..], cellEnd, entries, s);
      KeyInCell(data[..], cellEnd, s, entries[s]);
      LaidReplace(data[..], cellEnd, entries, s, v);
      var off := SlotOf(data[..], s);
      var klen := U16(data[..], off);
      CopyInto(data, off + 2 + klen + 2, v);
      ReplacedFacts(rank, entries, s, v);
      entries := entries[s := KV(entries[s].key, v)];
    }

    /** Rename a separator in place; the lengths agree, the order is the caller's business. */
    method UpdateSeparatorKey(s: nat, k: Key)
      requires Valid() && !leaf && s < numKeys && entries[s].KP? && |entries[s].key| == |k|
      modifies this`entries, data
      ensures LaidOut() && View() == old(View()).(entries := old(entries)[s := KP(k, old(entries)[s].child)])
      ensures Sorted(rank, entries) ==> Valid()
    {
      hide Laid, Costs, U16, GetInt, Payloads, Sorted, CellIs, EncodeEntry, Splice, SlotOf, PutInt;
      CellAt(data[..], cellEnd, entries, s);
      LaidRename(data[..], cellEnd, entries, s, k);
      var off := SlotOf(data[..], s);
      CopyInto(data, off, PutInt(|k|, 2) + k);
      PatchedPayloads(entries, s, KP(k, entries[s].child));
      entries := entries[s := KP(k, entries[s].child)];
    }

    /** Walk from the left until adding one more cell would pass half of the occupied bytes. */
    method ScanForSplit() returns (i: nat)
      requires Valid()
      ensures i == SplitPoint(View())
      ensures numKeys >= 1 ==> CutsAt(entries, (Costs(entries) + dead) / 2, i)
    {
      hide Laid, Costs, Payloads, Sorted, U16;
      GapIs();
      if numKeys >= 1 { SplitPointIs(View(), SplitPoint(View())); }
      var half: nat := (USABLE - (cellEnd - freeEnd)) / 2;
      var acc: nat := 0;
      i := 0;
      while i < numKeys
        invariant i <= numKeys && SplitPoint(View()) == SplitFrom(entries, half, i, acc)
      {
        var e := ReadCell(i);
        if acc + Cost(e) > half && i > 0 { return; }
        acc := acc + Cost(e);
        i := i + 1;
      }
    }

    /** Copy the cells from `from` on into an empty page. */
    method CopyTail(other: SlottedPage, from: nat)
      requires Valid() && other.Valid() && other != this && other.data != data && Ordered(rank)
      requires other.leaf == leaf && other.rank == rank && other.entries == [] && other.dead == 0 && from <= numKeys
      modifies other, other.data
      ensures Valid() && other.Valid() && View() == old(View())
      ensures other.View() == old(other.View()).(entries := entries[from..])
    {
      hide Laid, Costs, Payloads, Sorted, U16, Ordered, InsertCell, InsertSep, HasKey;
      ghost var start := other.View();
      for i := from to numKeys
        invariant Valid() && View() == old(View()) && other.Valid()
        invariant other.View() == start.(entries := entries[from..i])
      {
        var e := ReadCell(i);
        GapIs();
        CopyStep(rank, View(), other.View(), from, i);
        assert Proper(leaf, e);
        if leaf {
          var _ := other.InsertLeafCell(e.key, e.val);
        } else {
          var _ := other.InsertSeparator(e.key, e.child);
        }
      }
      assert entries[from..numKeys] == entries[from..];
    }

    /** Remove the cells from `from` on, last first. */
    method DropTail(from: nat)
      requires Valid() && from <= numKeys
      modifies this, data
      ensures Valid() && View() == KeepFirst(old(View()), from)
    {
      hide Laid, Costs, Payloads, Sorted, U16;
      ghost var n := View();
      KeepAll(n);
      for i := numKeys downto from
        invariant Valid() && numKeys == i && View() == KeepFirst(n, i)
      {
        KeepStep(n, i);
        RemoveCell(i);
      }
    }

    /** Move the upper part to the empty page `other`. A leaf keeps its first right key as the
        separator on the right; an internal page gives the separator up. */
    method SplitInto(self: PageId, other: SlottedPage, otherId: PageId) returns (sep: Key)
      requires Valid() && other.Valid() && other != this && other.data != data && Ordered(rank)
      requires other.leaf == leaf && other.rank == rank && other.entries == [] && other.dead == 0
      requires numKeys >= 2 && (leaf ==> SplitPoint(View()) < numKeys)
      modifies this, data, other, other.data
      ensures Valid() && other.Valid()
      ensures var n := old(View());
              var s := if leaf then SplitPoint(n) else PromotePoint(n);
              && sep == n.entries[s].key
              && View() == KeepFirst(n, s).(right := if leaf then otherId else n.right)
              && other.View() == if leaf then old(other.View()).(parent := n.parent, left := self, right := n.right, entries := n.entries[s..])
                                 else old(other.View()).(parent := n.parent, first := ChildOf(n.entries[s]), entries := n.entries[s + 1..])
    {
      hide Laid, Costs, Payloads, Sorted, U16, Ordered, SplitPoint;
      ghost var n := View();
      var s := ScanForSplit();
      other.parent := parent;
      if leaf {
        sep := KeyAt(s);
        CopyTail(other, s);
        DropTail(s);
        other.right := right;
        other.left := self;
        right := otherId;
      } else {
        if s >= numKeys - 1 { s := numKeys - 1; }
        sep := KeyAt(s);
        var c := ChildAt(s);
        other.first := c;
        CopyTail(other, s + 1);
        DropTail(s);
      }
    }
  }

  /** The next cell goes above all that were copied, and there is room for it. */
  lemma CopyStep(rank: Rank, n: Node, m: Node, from: nat, i: nat)
    requires Sorted(rank, n.entries) && from <= i < |n.entries| && Used(n) <= USABLE
    requires m == m.(entries := n.entries[from..i], dead := 0)
    requires n.entries[i].KV? == m.leaf && forall j :: 0 <= j < |n.entries| ==> n.entries[j].KV? == m.leaf
    ensures !HasKey(m.entries, n.entries[i].key) && forall e :: e in m.entries ==> e.KV? == m.leaf
    ensures var e := n.entries[i];
            var done := m.(entries := n.entries[from..i + 1]);
            if m.leaf then InsertCell(rank, m, e.key, e.val) == (true, done) else InsertSep(rank, m, e.key, e.child) == (true, done)
  {
    hide Costs;
    var e := n.entries[i];
    var all := m.entries + [e];
    assert all == n.entries[from..i + 1];
    HalvesSorted(rank, n.entries, from);
    HalvesSorted(rank, n.entries[from..], i + 1 - from);
    assert n.entries[from..][..i + 1 - from] == all;
    Appended(rank, m, e);
    PresentIffHas(rank, m.entries, e.key) by { HalvesSorted(rank, all, i - from); assert all[..i - from] == m.entries; }
    AbsentAt(rank, m.entries, e.key);
    CostsConcat(m.entries, [e]);
    CostsOne(e);
    CostsSplit(n.entries, i + 1);
    CostsSplit(n.entries[..i + 1], from);
    assert n.entries[..i + 1][from..] == all;
  }

  lemma KeepAll(n: Node)
    ensures KeepFirst(n, |n.entries|) == n
  {
    assert n.entries[..|n.entries|] == n.entries && n.entries[|n.entries|..] == [];
  }

  lemma KeepStep(n: Node, i: nat)
    requires i < |n.entries|
    ensures RemoveAt(KeepFirst(n, i + 1), i) == KeepFirst(n, i)
  {
    hide Costs, Payloads;
    var es := n.entries;
    assert Removed(es[..i + 1], i) == es[..i];
    PayloadsCosts(es[i..]);
    PayloadsCosts(es[i + 1..]);
    CostsSplit(es[i..], 1);
    assert es[i..][..1] == [es[i]] && es[i..][1..] == es[i + 1..];
    CostsOne(es[i]);
  }

  /** A cell written into the gap leaves the slots alone. */
  lemma SlotsKept(d: seq<byte>, off: nat, b: seq<byte>, n: nat)
    requires |d| == DATA && off + |b| <= DATA && SLOTS + 2 * n <= off
    ensures forall j :: 0 <= j < n ==> SlotOf(Splice(d, off, b), j) == SlotOf(d, j)
  {
    hide SlotOf, Splice;
    forall j | 0 <= j < n ensures SlotOf(Splice(d, off, b), j) == SlotOf(d, j) { SlotElsewhere(d, off, b, j); }
  }

  /** The new cell carved out of the gap, then a slot opened for it. */
  lemma CellWritten(d: seq<byte>, d2: seq<byte>, cellEnd: nat, es: seq<Entry>, s: nat, e: Entry)
    requires Laid(d, cellEnd, es) && s <= |es| && |d| == |d2| == DATA && SLOTS + 2 * |es| + 2 + Payload(e) <= cellEnd <= DATA
    requires var off := cellEnd - Payload(e);
             var d1 := Splice(d, off, EncodeEntry(e));
             SlotOpened(d1, d2, |es|, s, off) && forall x :: SLOTS + 2 * |es| + 2 <= x < DATA ==> d2[x] == d1[x]
    ensures Laid(d2, cellEnd - Payload(e), Inserted(es, s, e))
  {
    hide Laid, SlotOf, SlotOpened, EncodeEntry, Inserted;
    var off := cellEnd - Payload(e);
    var d1 := Splice(d, off, EncodeEntry(e));
    SlotsKept(d, off, EncodeEntry(e), |es|);
    assert d2[off..off + Payload(e)] == d1[off..off + Payload(e)];
    OpenedFrom(d, d1, d2, |es|, s, off);
    LaidInsert(d, d2, cellEnd, es, s, e);
  }

  lemma OpenedFrom(d: seq<byte>, d1: seq<byte>, d2: seq<byte>, n: nat, s: nat, off: nat)
    requires |d| == |d1| == |d2| == DATA && SLOTS + 2 * n + 2 <= DATA && SlotOpened(d1, d2, n, s, off)
    requires forall j :: 0 <= j < n ==> SlotOf(d1, j) == SlotOf(d, j)
    requires s <= n
    ensures SlotOpened(d, d2, n, s, off)
  {
    hide SlotOf;
  }

  lemma SlotElsewhere(d: seq<byte>, off: nat, s: seq<byte>, j: nat)
    requires off + |s| <= |d| && SLOTS + 2 * j + 2 <= off
    ensures SlotOf(Splice(d, off, s), j) == SlotOf(d, j)
  {
    SliceAway(d, off, s, SLOTS + 2 * j, SLOTS + 2 * j + 2);
  }

  lemma InsertedFacts(rank: Rank, leaf: bool, es: seq<Entry>, s: nat, e: Entry)
    requires Sorted(rank, es) && s <= |es| && Proper(leaf, e) && forall i :: 0 <= i < |es| ==> Proper(leaf, es[i])
    requires s > 0 ==> rank(es[s - 1].key) < rank(e.key)
    requires s < |es| ==> rank(e.key) < rank(es[s].key)
    ensures var es' := Inserted(es, s, e);
            && |es'| == |es| + 1 && Sorted(rank, es') && Payloads(es') == Payloads(es) + Payload(e)
            && forall i :: 0 <= i < |es'| ==> Proper(leaf, es'[i])
  {
    hide Costs, Payloads;
    InsertedEntries(es, s, e);
    SortedInserted(rank, es, s, e);
    CostsInserted(es, s, e);
    PayloadsCosts(es);
    PayloadsCosts(Inserted(es, s, e));
  }

  lemma LaidBounds(d: seq<byte>, cellEnd: nat, es: seq<Entry>)
    requires Laid(d, cellEnd, es)
    ensures |d| == DATA && SLOTS + 2 * |es| <= cellEnd <= DATA
  {
  }

  lemma NothingLaid(d: seq<byte>, es: seq<Entry>)
    requires |d| == DATA && es == []
    ensures Laid(d, DATA, es) && Payloads(es) == 0
  {
  }

  lemma RemovedFacts(rank: Rank, leaf: bool, es: seq<Entry>, s: nat)
    requires Sorted(rank, es) && s < |es| && forall i :: 0 <= i < |es| ==> Proper(leaf, es[i])
    ensures var es' := Removed(es, s);
            && |es'| == |es| - 1 && Sorted(rank, es') && Payloads(es') + Payload(es[s]) == Payloads(es)
            && forall i :: 0 <= i < |es'| ==> Proper(leaf, es'[i])
  {
    hide Costs, Payloads;
    RemovedEntries(es, s);
    RemovedDrops(rank, es, s);
    CostsRemoved(es, s);
    PayloadsCosts(es);
    PayloadsCosts(Removed(es, s));
  }

  lemma PatchedPayloads(es: seq<Entry>, s: nat, e: Entry)
    requires s < |es| && Payload(e) == Payload(es[s])
    ensures Payloads(es[s := e]) == Payloads(es)
  {
    hide Costs, Payloads;
    var es' := es[s := e];
    CostsRemoved(es, s);
    CostsRemoved(es', s);
    assert Removed(es, s) == Removed(es', s);
    PayloadsCosts(es);
    PayloadsCosts(es');
  }

  lemma ReplacedFacts(rank: Rank, es: seq<Entry>, s: nat, v: Value)
    requires Sorted(rank, es) && s < |es| && es[s].KV? && |v| == |es[s].val|
    ensures var es' := es[s := KV(es[s].key, v)]; Sorted(rank, es') && Payloads(es') == Payloads(es)
  {
    hide Costs, Payloads;
    ReplacedOverwrites(rank, es, s, v);
    PatchedPayloads(es, s, KV(es[s].key, v));
  }

  /** Writing back in order: each cell follows the previous and still fits. */
  lemma AppendFits(rank: Rank, cells: seq<Entry>, i: nat, n: Node)
    requires i < |cells| && Sorted(rank, cells) && Costs(cells) <= USABLE
    requires n.entries == cells[..i] && n.dead == 0
    ensures !Full(n, Payload(cells[i]))
    ensures i > 0 ==> rank(cells[i - 1].key) < rank(cells[i].key)
  {
    CostsPrefix(cells, i);
    CostsSplit(cells, i + 1);
  }

  lemma BetweenKeys(rank: Rank, es: seq<Entry>, s: nat, k: Key)
    requires Ordered(rank) && s == LowerBound(rank, es, k) && !HasKey(es, k)
    ensures s > 0 ==> rank(es[s - 1].key) < rank(k)
    ensures s < |es| ==> rank(k) < rank(es[s].key)
  {
    hide Ordered;
    if s < |es| && rank(es[s].key) == rank(k) { SameRank(rank, es[s].key, k); }
  }

  /** After a present key was removed, or if it never was there, its slot separates the rest. */
  lemma NotThere(rank: Rank, es: seq<Entry>, es': seq<Entry>, s: nat, k: Key, present: bool)
    requires Ordered(rank) && Sorted(rank, es) && s == LowerBound(rank, es, k)
    requires present <==> s < |es| && es[s].key == k
    requires es' == if present then Removed(es, s) else es
    ensures s <= |es'|
    ensures s > 0 ==> rank(es'[s - 1].key) < rank(k)
    ensures s < |es'| ==> rank(k) < rank(es'[s].key)
  {
    hide Ordered, Removed;
    PresentIffHas(rank, es, k);
    if present {
      RemovedEntries(es, s);
    } else {
      BetweenKeys(rank, es, s, k);
    }
  }
}
