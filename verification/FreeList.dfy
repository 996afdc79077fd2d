/**
 * Page storage and the page-0 registry of free pages: the disk as a page map with a
 * page counter, and the 4072-byte data area of page 0 as bytes.
 */
module Storage {
  import opened Base

  const DATA_SIZE := 4072
  const INVALID_PAGE_ID := -1

  /** Page header identity and kind, and the bytes behind the header. */
  datatype PageBytes = PageBytes(id: int, kind: int, data: seq<byte>)

  type Page = p: PageBytes | |p.data| == DATA_SIZE witness ZeroPage()

  /** A cleared page; zeroing the header makes its id 0, not INVALID_PAGE_ID. */
  function ZeroPage(): (p: PageBytes)
    ensures |p.data| == DATA_SIZE
  {
    PageBytes(0, 0, seq(DATA_SIZE, _ => 0))
  }

  datatype DiskError = OutOfRange | NegativeId | CorruptCount

  class DiskManager {
    var pages: map<int, Page>
    var numPages: nat

    ghost predicate Valid() reads this {
      numPages < 0x8000_0000 && forall i :: 0 <= i < numPages ==> i in pages
    }

    constructor (file: seq<Page>)
      requires |file| < 0x8000_0000
      ensures Valid() && numPages == |file| && pages == map i | 0 <= i < |file| :: file[i]
    {
      pages, numPages := map i | 0 <= i < |file| :: file[i], |file|;
    }

    method ReadPage(id: int) returns (r: Result<Page, DiskError>)
      requires Valid()
      ensures r == if 0 <= id < numPages then Success(pages[id]) else Failure(OutOfRange)
    {
      if id < 0 || id >= numPages { return Failure(OutOfRange); }
      return Success(pages[id]);
    }

    /** Writes at the page's offset; the page counter is not consulted. */
    method WritePage(id: int, page: Page) returns (r: Result<(), DiskError>)
      requires Valid()
      modifies this
      ensures Valid() && numPages == old(numPages)
      ensures r == if id < 0 then Failure(NegativeId) else Success(())
      ensures pages == if id < 0 then old(pages) else old(pages)[id := page]
    {
      if id < 0 { return Failure(NegativeId); }
      pages := pages[id := page];
      return Success(());
    }

    method AllocatePage() returns (id: int)
      requires Valid() && numPages < 0x7FFF_FFFF
      modifies this
      ensures Valid() && id == old(numPages) && numPages == old(numPages) + 1
      ensures pages == old(pages)[id := ZeroPage()]
    {
      id := numPages;
      pages, numPages := pages[id := ZeroPage()], numPages + 1;
    }
  }
}

module FreeLists {
  import opened Base
  import opened Bytes
  import opened Storage

  const MAX_FREE_PAGES := (DATA_SIZE - 4 - 4) / 4
  const ROOT_ID_OFFSET := DATA_SIZE - 4
  const DB_HEADER := 1

  type Data = d: seq<byte> | |d| == DATA_SIZE witness ZeroPage().data

  function Packed(ids: seq<int>): (b: seq<byte>)
    requires forall i :: 0 <= i < |ids| ==> Int32(ids[i])
    ensures |b| == 4 * |ids|
  {
    if ids == [] then [] else PutInt32(ids[0]) + Packed(ids[1..])
  }

  function Unpacked(b: seq<byte>, count: nat): (ids: seq<int>)
    requires 4 * count <= |b|
    ensures |ids| == count
    decreases count
  {
    if count == 0 then [] else [GetInt32(b[..4])] + Unpacked(b[4..], count - 1)
  }

  lemma {:induction false} UnpackPacked(ids: seq<int>, rest: seq<byte>)
    requires forall i :: 0 <= i < |ids| ==> Int32(ids[i])
    ensures Unpacked(Packed(ids) + rest, |ids|) == ids
  {
    hide PutInt, GetInt, PutInt32, GetInt32;
    if ids != [] {
      var b := Packed(ids) + rest;
      assert b[..4] == PutInt32(ids[0]);
      assert b[4..] == Packed(ids[1..]) + rest;
      Int32RoundTrip(ids[0]);
      UnpackPacked(ids[1..], rest);
    }
  }

  /** The entries read back depend only on the bytes they occupy. */
  lemma {:induction false} UnpackLocal(a: seq<byte>, b: seq<byte>, count: nat)
    requires 4 * count <= |a| && 4 * count <= |b| && a[..4 * count] == b[..4 * count]
    ensures Unpacked(a, count) == Unpacked(b, count)
    decreases count
  {
    if count > 0 {
      assert a[..4] == a[..4 * count][..4] && b[..4] == b[..4 * count][..4];
      assert a[4..][..4 * (count - 1)] == a[..4 * count][4..];
      assert b[4..][..4 * (count - 1)] == b[..4 * count][4..];
      UnpackLocal(a[4..], b[4..], count - 1);
    }
  }

  /** The count, then the entries, over whatever the data area held. */
  function SavedOver(d: Data, ids: seq<int>): (r: Data)
    requires forall i :: 0 <= i < |ids| ==> Int32(ids[i])
    requires 4 + 4 * |ids| <= DATA_SIZE
  {
    Splice(d, 0, PutInt(|ids|, 4) + Packed(ids))
  }

  function WithRoot(d: Data, root: int): (r: Data)
    requires Int32(root)
  {
    Splice(d, ROOT_ID_OFFSET, PutInt32(root))
  }

  function RootOf(d: Data): int { GetInt32(d[ROOT_ID_OFFSET..]) }

  /** What loading decodes; a count above the cap is reported as corruption. */
  function Loaded(d: Data): Result<seq<int>, DiskError> {
    var count := GetInt(d[..4]);
    if count > MAX_FREE_PAGES then Failure(CorruptCount) else Success(Unpacked(d[4..], count))
  }

  /** Loading inverts saving, and saving keeps the root slot. */
  lemma LoadInvertsSave(d: Data, ids: seq<int>)
    requires |ids| <= MAX_FREE_PAGES && forall i :: 0 <= i < |ids| ==> Int32(ids[i])
    ensures Loaded(SavedOver(d, ids)) == Success(ids)
    ensures RootOf(SavedOver(d, ids)) == RootOf(d)
  {
    hide Packed, Unpacked, PutInt, GetInt, Pow256, GetInt32;
    var r, head := SavedOver(d, ids), PutInt(|ids|, 4);
    Powers();
    GetPut(|ids|, 4);
    assert r == head + Packed(ids) + d[4 + 4 * |ids|..];
    assert r[..4] == head;
    assert r[4..] == Packed(ids) + d[4 + 4 * |ids|..];
    UnpackPacked(ids, d[4 + 4 * |ids|..]);
    assert r[ROOT_ID_OFFSET..] == d[ROOT_ID_OFFSET..];
  }

  /** The root slot reads back what was stored, and storing it keeps the list. */
  lemma RootSlotIsApart(d: Data, root: int)
    requires Int32(root)
    ensures RootOf(WithRoot(d, root)) == root
    ensures Loaded(WithRoot(d, root)) == Loaded(d)
  {
    var r := WithRoot(d, root);
    Int32RoundTrip(root);
    assert r[ROOT_ID_OFFSET..] == PutInt32(root);
    assert r[..ROOT_ID_OFFSET] == d[..ROOT_ID_OFFSET];
    assert r[..4] == d[..4];
    var count := GetInt(d[..4]);
    if count <= MAX_FREE_PAGES {
      assert r[4..][..4 * count] == d[4..][..4 * count];
      UnpackLocal(r[4..], d[4..], count);
    }
  }

  /** One entry above the cap would be the root id: 1016 is the largest safe length. */
  lemma OneMoreIsTheRoot(d: Data, ids: seq<int>)
    requires |ids| == MAX_FREE_PAGES + 1 && forall i :: 0 <= i < |ids| ==> Int32(ids[i])
    ensures RootOf(SavedOver(d, ids)) == ids[MAX_FREE_PAGES]
  {
    hide Packed, PutInt, GetInt, PutInt32, GetInt32;
    var init, last := ids[..MAX_FREE_PAGES], ids[MAX_FREE_PAGES..];
    assert ids == init + last;
    PackedConcat(init, last);
    assert SavedOver(d, ids)[ROOT_ID_OFFSET..] == Packed(last);
    assert Packed(last) == PutInt32(last[0]) by { PackedOne(last); }
    Int32RoundTrip(last[0]);
  }

  lemma PackedOne(ids: seq<int>)
    requires |ids| == 1 && Int32(ids[0])
    ensures Packed(ids) == PutInt32(ids[0])
  {
    assert Packed(ids[1..]) == [];
  }

  lemma {:induction false} PackedConcat(a: seq<int>, b: seq<int>)
    requires forall i :: 0 <= i < |a| ==> Int32(a[i])
    requires forall i :: 0 <= i < |b| ==> Int32(b[i])
    ensures forall i :: 0 <= i < |a + b| ==> Int32((a + b)[i])
    ensures Packed(a + b) == Packed(a) + Packed(b)
  {
    hide PutInt32;
    if a == [] {
      assert a + b == b;
    } else {
      assert (a + b)[1..] == a[1..] + b;
      PackedConcat(a[1..], b);
    }
  }

  /** The format of page 0's data area, byte by byte: the count at 0, the entries from 4 on, and the
      root id in the last four bytes; all 32-bit, least significant byte first, ids signed. A count
      above 1016 is refused. */
  lemma PageZeroFormat(d: Data)
    ensures Loaded(d).Success? <==> Word(d, 0) <= 1016
    ensures Loaded(d).Success? ==>
              && |Loaded(d).value| == Word(d, 0)
              && forall i :: 0 <= i < Word(d, 0) ==> Loaded(d).value[i] == Signed32(Word(d, 4 + 4 * i))
    ensures RootOf(d) == Signed32(Word(d, 4068))
  {
    hide Word, GetInt, Unpacked;
    WordIs(d, 0);
    assert d[0..0 + 4] == d[..4];
    WordIs(d, 4068);
    assert d[4068..4068 + 4] == d[ROOT_ID_OFFSET..];
    if Loaded(d).Success? {
      forall i | 0 <= i < Word(d, 0) ensures Loaded(d).value[i] == Signed32(Word(d, 4 + 4 * i)) {
        UnpackedAt(d[4..], Word(d, 0), i);
        assert d[4..][4 * i..4 * i + 4] == d[4 + 4 * i..4 + 4 * i + 4];
        WordIs(d, 4 + 4 * i);
      }
    }
  }

  lemma {:induction false} UnpackedAt(b: seq<byte>, count: nat, i: nat)
    requires 4 * count <= |b| && i < count
    ensures Unpacked(b, count)[i] == GetInt32(b[4 * i..4 * i + 4])
    decreases i
  {
    hide GetInt32;
    if i > 0 {
      UnpackedAt(b[4..], count - 1, i - 1);
      assert b[4..][4 * (i - 1)..4 * (i - 1) + 4] == b[4 * i..4 * i + 4];
    } else {
      assert b[4 * i..4 * i + 4] == b[..4];
    }
  }

  /** Saving writes that format and leaves the bytes behind the last entry alone. */
  lemma SavedFormat(d: Data, ids: seq<int>)
    requires |ids| <= MAX_FREE_PAGES && forall i :: 0 <= i < |ids| ==> Int32(ids[i])
    ensures var r := SavedOver(d, ids);
            && Word(r, 0) == |ids|
            && (forall i :: 0 <= i < |ids| ==> Signed32(Word(r, 4 + 4 * i)) == ids[i])
            && r[4 + 4 * |ids|..] == d[4 + 4 * |ids|..]
  {
    hide Word, Loaded, RootOf;
    LoadInvertsSave(d, ids);
    PageZeroFormat(SavedOver(d, ids));
  }

  /** The registry: an in-memory list that every change writes through to page 0. */
  class FreeList {
    const dm: DiskManager
    var list: seq<int>

    constructor (disk: DiskManager)
      ensures dm == disk && list == []
    {
      dm, list := disk, [];
    }

    ghost predicate Fits() reads this {
      |list| <= MAX_FREE_PAGES && forall i :: 0 <= i < |list| ==> Int32(list[i])
    }

    /** Memory and page 0 agree. */
    ghost predicate Valid() reads this, dm {
      dm.Valid() && dm.numPages > 0 && Fits() && Loaded(dm.pages[0].data) == Success(list)
    }

    method Load() returns (r: Result<(), DiskError>)
      requires dm.Valid()
      requires dm.numPages == 0 ==> list == []
      modifies this, dm
      ensures old(dm.numPages) == 0 ==>
        r.Success? && Valid() && list == [] && dm.numPages == 1 && RootOf(dm.pages[0].data) == INVALID_PAGE_ID
        && dm.pages[0].id == 0
      ensures old(dm.numPages) > 0 ==>
        dm.pages == old(dm.pages) && dm.numPages == old(dm.numPages)
        && (r.Success? <==> Loaded(dm.pages[0].data).Success?)
        && (if r.Success? then Valid() else list == old(list) && r == Failure(CorruptCount))
    {
      if dm.numPages == 0 {
        var p0 := dm.AllocatePage();
        var d := WithRoot(SavedOver(ZeroPage().data, []), INVALID_PAGE_ID);
        FreshHeader(d);
        var _ := dm.WritePage(0, PageBytes(0, DB_HEADER, d));
        return Success(());
      }
      var page := dm.ReadPage(0);
      var count := GetInt(page.value.data[..4]);
      if count > MAX_FREE_PAGES { return Failure(CorruptCount); }
      list := Unpacked(page.value.data[4..], count);
      UnpackedFits(page.value.data[4..], count);
      return Success(());
    }

    method Save()
      requires dm.Valid() && dm.numPages > 0 && Fits()
      modifies dm
      ensures Valid() && dm.numPages == old(dm.numPages)
      ensures dm.pages == old(dm.pages)[0 := old(dm.pages[0]).(data := SavedOver(old(dm.pages[0].data), list))]
      ensures RootOf(dm.pages[0].data) == old(RootOf(dm.pages[0].data))
    {
      var page := dm.ReadPage(0);
      var d := page.value.data;
      LoadInvertsSave(d, list);
      var _ := dm.WritePage(0, page.value.(data := SavedOver(d, list)));
    }

    /** Hands out the most recently freed page, or INVALID_PAGE_ID. */
    method Allocate() returns (id: int)
      requires Valid()
      modifies this, dm
      ensures Valid() && dm.numPages == old(dm.numPages)
      ensures old(list) == [] ==> id == INVALID_PAGE_ID && list == [] && dm.pages == old(dm.pages)
      ensures old(list) != [] ==> old(list) == list + [id]
      ensures dm.pages == old(dm.pages)[0 := dm.pages[0]] && dm.pages[0].id == old(dm.pages[0].id)
      ensures RootOf(dm.pages[0].data) == old(RootOf(dm.pages[0].data))
    {
      hide Loaded, RootOf, SavedOver;
      if list == [] { return INVALID_PAGE_ID; }
      id := list[|list| - 1];
      list := list[..|list| - 1];
      Save();
    }

    method Free(id: int)
      requires Valid() && |list| < MAX_FREE_PAGES && Int32(id)
      modifies this, dm
      ensures Valid() && dm.numPages == old(dm.numPages) && list == old(list) + [id]
      ensures dm.pages == old(dm.pages)[0 := dm.pages[0]] && dm.pages[0].id == old(dm.pages[0].id)
      ensures RootOf(dm.pages[0].data) == old(RootOf(dm.pages[0].data))
    {
      hide Loaded, RootOf, SavedOver;
      list := list + [id];
      Save();
    }

    method RootPageId() returns (id: int)
      requires Valid()
      ensures id == RootOf(dm.pages[0].data)
    {
      var page := dm.ReadPage(0);
      id := GetInt32(page.value.data[ROOT_ID_OFFSET..]);
    }

    method SetRootPageId(id: int)
      requires Valid() && Int32(id)
      modifies dm
      ensures Valid() && dm.numPages == old(dm.numPages)
      ensures RootOf(dm.pages[0].data) == id
      ensures dm.pages == old(dm.pages)[0 := dm.pages[0]] && dm.pages[0].id == old(dm.pages[0].id)
    {
      var page := dm.ReadPage(0);
      RootSlotIsApart(page.value.data, id);
      var _ := dm.WritePage(0, page.value.(data := WithRoot(page.value.data, id)));
    }
  }

  lemma {:induction false} UnpackedFits(b: seq<byte>, count: nat)
    requires 4 * count <= |b|
    ensures forall i :: 0 <= i < count ==> Int32(Unpacked(b, count)[i])
    decreases count
  {
    if count > 0 {
      FourBytes(b[..4]);
      UnpackedFits(b[4..], count - 1);
    }
  }

  lemma FourBytes(b: seq<byte>)
    requires |b| == 4
    ensures Int32(GetInt32(b))
  {
    assert GetInt(b[4..]) == 0;
    assert GetInt(b[3..]) == b[3] + 256 * GetInt(b[3..][1..]) && b[3..][1..] == b[4..];
    assert GetInt(b[2..]) == b[2] + 256 * GetInt(b[2..][1..]) && b[2..][1..] == b[3..];
    assert GetInt(b[1..]) == b[1] + 256 * GetInt(b[1..][1..]) && b[1..][1..] == b[2..];
  }

  /** A freshly initialised page 0: no free pages, no root. */
  lemma FreshHeader(d: Data)
    requires d == WithRoot(SavedOver(ZeroPage().data, []), INVALID_PAGE_ID)
    ensures Loaded(d) == Success([]) && RootOf(d) == INVALID_PAGE_ID
  {
    LoadInvertsSave(ZeroPage().data, []);
    RootSlotIsApart(SavedOver(ZeroPage().data, []), INVALID_PAGE_ID);
  }
}
