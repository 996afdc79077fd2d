/** What clients of the pool see: direct page storage, until deletions have used the frames up;
    and why the tree's page traffic never finds the pool exhausted. */
module PoolClients {
  import opened Base
  import opened Storage
  import opened FreeLists
  import opened Caches
  import opened BufferPools
  import Traffic

  /** Page storage without a cache: contents, recyclable ids, file length; who is pinned how
      often, which pages were edited and not yet reported dirty, and how many frames deletions
      may have used up. */
  datatype Store = Store(pages: map<int, Page>, free: seq<int>, numPages: nat, pins: map<int, nat>, edited: set<int>, spent: nat)

  datatype Command =
    | Fetch(p: int)
    | Edit(p: int, page: Page)
    | Unpin(p: int, dirty: bool)
    | Flush(p: int)
    | FlushAll
    | New
    | Delete(p: int)

  datatype Answer = Content(page: Page) | Created(id: int) | Done

  /** A frame is left for one more page. */
  predicate HasFrame(s: Store) { |s.pins| + s.spent < POOL_SIZE }

  /** What a caller must respect; the rule for Unpin is that the last unpin of an edited page
      reports it dirty. */
  predicate Legal(s: Store, c: Command) {
    match c
    case Fetch(p) => p in s.pages && HasFrame(s)
    case Edit(p, page) => p in s.pins && page.id == p
    case Unpin(p, dirty) => p in s.edited && PinCount(s.pins, p) == 1 ==> dirty
    case Flush(_) => true
    case FlushAll => true
    case New => s.numPages < 0x7FFF_FFFF && HasFrame(s)
    case Delete(p) => p in s.pages && p !in s.pins && |s.free| < MAX_FREE_PAGES
  }

  function Direct(s: Store, c: Command): (Store, Answer)
    requires Legal(s, c)
  {
    match c
    case Fetch(p) => (s.(pins := s.pins[p := PinCount(s.pins, p) + 1]), Content(s.pages[p]))
    case Edit(p, page) => (s.(pages := s.pages[p := page], edited := s.edited + {p}), Done)
    case Unpin(p, dirty) => (s.(pins := Unpinned(s.pins, p), edited := if dirty then s.edited - {p} else s.edited), Done)
    case Flush(_) => (s, Done)
    case FlushAll => (s, Done)
    case New =>
      var id := Traffic.NextPage(s.free, s.numPages);
      (s.(pages := s.pages[id := FreshPage(id)], pins := s.pins[id := 1],
          free := if s.free == [] then [] else s.free[..|s.free| - 1],
          numPages := if s.free == [] then s.numPages + 1 else s.numPages), Created(id))
    case Delete(p) => (s.(pages := s.pages - {p}, free := s.free + [p], spent := s.spent + 1), Done)
  }

  predicate LegalRun(s: Store, cs: seq<Command>)
    decreases |cs|
  {
    cs == [] || (Legal(s, cs[0]) && LegalRun(Direct(s, cs[0]).0, cs[1..]))
  }

  function DirectRun(s: Store, cs: seq<Command>): (Store, seq<Answer>)
    requires LegalRun(s, cs)
    decreases |cs|
  {
    if cs == [] then (s, [])
    else
      var (s', a) := Direct(s, cs[0]);
      var (last, rest) := DirectRun(s', cs[1..]);
      (last, [a] + rest)
  }

  /** The pool presents exactly this storage. */
  ghost predicate Represents(pool: BufferPool, s: Store)
    reads pool, pool.frames, pool.fl, pool.dm
  {
    && pool.Valid() && pool.Pages() == s.pages && pool.Pins() == s.pins
    && pool.fl.list == s.free && pool.dm.numPages == s.numPages
    && pool.unsaved <= s.edited && |pool.lost| <= s.spent
  }

  /** One primitive command through the pool is that command on direct storage. */
  method Perform(pool: BufferPool, ghost s: Store, c: Command) returns (a: Answer)
    requires Represents(pool, s) && Legal(s, c)
    modifies pool, pool.frames, pool.fl, pool.dm
    ensures Represents(pool, Direct(s, c).0) && a == Direct(s, c).1
  {
    hide BufferPool.Ready, FreshPage, ZeroPage, Logical, Pinned;
    match c
    case Fetch(p) =>
      var r := pool.FetchPage(p);
      a := Content(pool.frames[r.value.value].page);
    case Edit(p, page) =>
      pool.Edit(p, page);
      a := Done;
    case Unpin(p, dirty) =>
      pool.UnpinPage(p, dirty);
      a := Done;
    case Flush(p) =>
      var _ := pool.FlushPage(p);
      a := Done;
    case FlushAll =>
      pool.FlushAll();
      a := Done;
    case New =>
      a := Create(pool, s);
    case Delete(p) =>
      pool.DeletePage(p);
      a := Done;
  }

  method Create(pool: BufferPool, ghost s: Store) returns (a: Answer)
    requires Represents(pool, s) && Legal(s, New)
    modifies pool, pool.frames, pool.fl, pool.dm
    ensures Represents(pool, Direct(s, New).0) && a == Direct(s, New).1
  {
    hide BufferPool.Ready, FreshPage, ZeroPage, Logical, Pinned;
    var id, _ := pool.NewPage();
    assert s.free != [] ==> id == s.free[|s.free| - 1] && pool.fl.list == s.free[..|s.free| - 1];
    a := Created(id);
  }

  /** Every legal sequence of fetches, edits, unpins, flushes, allocations and deletions, with any
      pages pinned meanwhile, gets the answers direct storage would give, whatever is evicted; and
      destroying the pool leaves every page that is not being edited on disk. */
  method Play(pool: BufferPool, ghost s: Store, cs: seq<Command>) returns (answers: seq<Answer>)
    requires Represents(pool, s) && LegalRun(s, cs)
    modifies pool, pool.frames, pool.fl, pool.dm
    ensures var (s', expected) := DirectRun(s, cs);
      && Represents(pool, s') && answers == expected
      && (forall p :: p in s'.pages && p !in s'.edited ==> p in pool.dm.pages && pool.dm.pages[p] == s'.pages[p])
  {
    hide BufferPool.Ready, FreshPage, ZeroPage, Logical, Pinned, Direct, Legal;
    answers := [];
    assert cs[0..] == cs && cs[|cs|..] == [];
    assert DirectRun(s, cs).1 == [] + DirectRun(s, cs).1;
    ghost var now := s;
    for k := 0 to |cs|
      invariant Represents(pool, now) && LegalRun(now, cs[k..])
      invariant var (last, rest) := DirectRun(now, cs[k..]); DirectRun(s, cs) == (last, answers + rest)
    {
      assert cs[k..][0] == cs[k] && cs[k..][1..] == cs[k + 1..];
      var a := Perform(pool, now, cs[k]);
      now := Direct(now, cs[k]).0;
      ghost var rest := DirectRun(now, cs[k + 1..]).1;
      assert answers + ([a] + rest) == answers + [a] + rest;
      answers := answers + [a];
    }
    assert answers + [] == answers;
    Finish(pool, now);
  }

  /** The destructor's flush. */
  method Finish(pool: BufferPool, ghost s: Store)
    requires Represents(pool, s)
    modifies pool, pool.frames, pool.dm
    ensures Represents(pool, s)
    ensures forall p :: p in s.pages && p !in s.edited ==> p in pool.dm.pages && pool.dm.pages[p] == s.pages[p]
  {
    hide BufferPool.Ready, Logical, Pinned;
    pool.FlushAll();
  }

  // -------------------------------------------------------------- the tree's traffic

  function Ops(tr: Traffic.Trace): seq<Traffic.PoolOp> {
    if tr.Start? then [] else Ops(tr.before) + [tr.op]
  }

  function Origin(tr: Traffic.Trace): Traffic.Ledger {
    if tr.Start? then tr.ledger else Origin(tr.before)
  }

  /** The command a traffic entry stands for, whatever is written. */
  predicate Matches(op: Traffic.PoolOp, c: Command) {
    match op
    case Fetch(p) => c == Fetch(p)
    case New(p) => c == New
    case Edit(p) => c.Edit? && c.p == p && c.page.id == p
    case Unpin(p, dirty) => c == Unpin(p, dirty)
    case Drop(p) => c == Delete(p)
  }

  ghost predicate AllMatch(ops: seq<Traffic.PoolOp>, cs: seq<Command>) {
    |cs| == |ops| && forall i :: 0 <= i < |ops| ==> Matches(ops[i], cs[i])
  }

  /** The storage is where the ledger says it is. */
  ghost predicate Tracks(l: Traffic.Ledger, s: Store, spent: nat) {
    && s.pages.Keys == l.live && s.free == l.free && s.numPages == l.numPages && s.edited <= l.edited
    && (forall p :: PinCount(s.pins, p) == l.pins[p]) && (forall p :: p in s.pins ==> s.pins[p] > 0)
    && (forall p :: p in l.pins ==> p in l.live) && s.spent == spent + l.drops
  }

  lemma {:induction false} PinsCounted(m: multiset<int>, pins: map<int, nat>)
    requires forall p :: PinCount(pins, p) == m[p]
    requires forall p :: p in pins ==> pins[p] > 0
    ensures |pins| <= |m|
    decreases |pins|
  {
    if exists p :: p in pins.Keys {
      var p :| p in pins.Keys;
      var m', pins' := m[p := 0], pins - {p};
      PinsCounted(m', pins');
      assert |m'| == |m| - m[p];
      assert |pins| == |pins'| + 1 by { assert pins.Keys == pins'.Keys + {p}; }
    } else {
      assert pins.Keys == {};
    }
  }

  lemma {:induction false} RunSnoc(s: Store, cs: seq<Command>, c: Command)
    requires LegalRun(s, cs) && Legal(DirectRun(s, cs).0, c)
    ensures LegalRun(s, cs + [c]) && DirectRun(s, cs + [c]).0 == Direct(DirectRun(s, cs).0, c).0
    decreases |cs|
  {
    hide Legal, Direct;
    var all := cs + [c];
    if cs == [] {
      assert all == [c] && all[1..] == [];
      assert LegalRun(Direct(s, c).0, []);
    } else {
      assert all[0] == cs[0] && all[1..] == cs[1..] + [c];
      RunSnoc(Direct(s, cs[0]).0, cs[1..], c);
    }
  }

  /** One entry of legal traffic is a legal command, given a frame for it. */
  lemma StepIsLegal(l: Traffic.Ledger, op: Traffic.PoolOp, s: Store, c: Command, spent: nat)
    requires Tracks(l, s, spent) && Traffic.Allowed(l, op) && Matches(op, c)
    requires s.numPages < 0x7FFF_FFFF && spent + Traffic.Step(l, op).peak + l.drops <= POOL_SIZE
    ensures Legal(s, c) && Tracks(Traffic.Step(l, op), Direct(s, c).0, spent)
  {
    hide Tracks, Traffic.Allowed, Traffic.Step, Legal, Direct, Matches;
    match op
    case Fetch(_) => FetchIsLegal(l, op, s, c, spent);
    case New(_) => NewIsLegal(l, op, s, c, spent);
    case Edit(_) => EditIsLegal(l, op, s, c, spent);
    case Unpin(_, _) => UnpinIsLegal(l, op, s, c, spent);
    case Drop(_) => DropIsLegal(l, op, s, c, spent);
  }

  lemma FetchIsLegal(l: Traffic.Ledger, op: Traffic.PoolOp, s: Store, c: Command, spent: nat)
    requires Tracks(l, s, spent) && Traffic.Allowed(l, op) && Matches(op, c)
    requires s.numPages < 0x7FFF_FFFF && spent + Traffic.Step(l, op).peak + l.drops <= POOL_SIZE
    requires op.Fetch?
    ensures Legal(s, c) && Tracks(Traffic.Step(l, op), Direct(s, c).0, spent)
  {
    hide FreshPage, Unpinned;
    PinsCounted(l.pins, s.pins);
    PinTracks(l.pins, s.pins, op.p);
  }

  lemma NewIsLegal(l: Traffic.Ledger, op: Traffic.PoolOp, s: Store, c: Command, spent: nat)
    requires Tracks(l, s, spent) && Traffic.Allowed(l, op) && Matches(op, c)
    requires s.numPages < 0x7FFF_FFFF && spent + Traffic.Step(l, op).peak + l.drops <= POOL_SIZE
    requires op.New?
    ensures Legal(s, c) && Tracks(Traffic.Step(l, op), Direct(s, c).0, spent)
  {
    hide FreshPage, Unpinned;
    PinsCounted(l.pins, s.pins);
    PinTracks(l.pins, s.pins, op.p);
  }

  lemma EditIsLegal(l: Traffic.Ledger, op: Traffic.PoolOp, s: Store, c: Command, spent: nat)
    requires Tracks(l, s, spent) && Traffic.Allowed(l, op) && Matches(op, c)
    requires s.numPages < 0x7FFF_FFFF && spent + Traffic.Step(l, op).peak + l.drops <= POOL_SIZE
    requires op.Edit?
    ensures Legal(s, c) && Tracks(Traffic.Step(l, op), Direct(s, c).0, spent)
  {
    hide FreshPage, Unpinned;
    assert PinCount(s.pins, op.p) == l.pins[op.p];
  }

  lemma UnpinIsLegal(l: Traffic.Ledger, op: Traffic.PoolOp, s: Store, c: Command, spent: nat)
    requires Tracks(l, s, spent) && Traffic.Allowed(l, op) && Matches(op, c)
    requires s.numPages < 0x7FFF_FFFF && spent + Traffic.Step(l, op).peak + l.drops <= POOL_SIZE
    requires op.Unpin?
    ensures Legal(s, c) && Tracks(Traffic.Step(l, op), Direct(s, c).0, spent)
  {
    hide FreshPage, Unpinned;
    UnpinTracks(l.pins, s.pins, op.p);
  }

  lemma DropIsLegal(l: Traffic.Ledger, op: Traffic.PoolOp, s: Store, c: Command, spent: nat)
    requires Tracks(l, s, spent) && Traffic.Allowed(l, op) && Matches(op, c)
    requires s.numPages < 0x7FFF_FFFF && spent + Traffic.Step(l, op).peak + l.drops <= POOL_SIZE
    requires op.Drop?
    ensures Legal(s, c) && Tracks(Traffic.Step(l, op), Direct(s, c).0, spent)
  {
    hide FreshPage, Unpinned;
    assert PinCount(s.pins, op.p) == 0;
  }

  lemma PinTracks(m: multiset<int>, pins: map<int, nat>, p: int)
    requires forall q :: PinCount(pins, q) == m[q]
    ensures forall q :: PinCount(pins[p := PinCount(pins, p) + 1], q) == (m + multiset{p})[q]
    ensures p !in m ==> PinCount(pins, p) == 0
  {
  }

  lemma UnpinTracks(m: multiset<int>, pins: map<int, nat>, p: int)
    requires p in m && (forall q :: PinCount(pins, q) == m[q]) && (forall q :: q in pins ==> pins[q] > 0)
    ensures forall q :: PinCount(Unpinned(pins, p), q) == (m - multiset{p})[q]
    ensures forall q :: q in Unpinned(pins, p) ==> Unpinned(pins, p)[q] > 0
  {
    forall q ensures PinCount(Unpinned(pins, p), q) == (m - multiset{p})[q] {
      assert PinCount(pins, q) == m[q] && PinCount(pins, p) == m[p];
    }
  }

  lemma Monotone(l: Traffic.Ledger, op: Traffic.PoolOp)
    ensures Traffic.Step(l, op).peak >= l.peak && Traffic.Step(l, op).drops >= l.drops
    ensures Traffic.Step(l, op).numPages <= l.numPages + 1
  {
  }

  /** The page traffic of the tree is a legal command sequence, and no fetch in it finds the pool
      exhausted, as long as the frames lost before, the pins it holds at once and the pages it
      deletes fit the pool together. */
  lemma {:induction false} TrafficNeverExhausts(tr: Traffic.Trace, s: Store, cs: seq<Command>)
    requires Traffic.Legal(tr) && AllMatch(Ops(tr), cs)
    requires Origin(tr).pins == multiset{} && Origin(tr).drops == 0 && Tracks(Origin(tr), s, s.spent) && s.edited == {}
    requires s.numPages + |cs| < 0x7FFF_FFFF
    requires s.spent + Traffic.Now(tr).peak + Traffic.Now(tr).drops <= POOL_SIZE
    ensures LegalRun(s, cs) && Tracks(Traffic.Now(tr), DirectRun(s, cs).0, s.spent)
    ensures Traffic.Now(tr).numPages <= s.numPages + |cs|
  {
    hide Legal, Direct, Tracks, Matches, Traffic.Allowed, Traffic.Step;
    if tr.Then? {
      var init, c := cs[..|cs| - 1], cs[|cs| - 1];
      assert cs == init + [c];
      assert Ops(tr)[|cs| - 1] == tr.op && forall i :: 0 <= i < |init| ==> Ops(tr)[i] == Ops(tr.before)[i];
      Monotone(Traffic.Now(tr.before), tr.op);
      TrafficNeverExhausts(tr.before, s, init);
      TracksPages(Traffic.Now(tr.before), DirectRun(s, init).0, s.spent);
      StepIsLegal(Traffic.Now(tr.before), tr.op, DirectRun(s, init).0, c, s.spent);
      RunSnoc(s, init, c);
    } else {
      TracksPages(Traffic.Now(tr), s, s.spent);
    }
  }

  lemma TracksPages(l: Traffic.Ledger, s: Store, spent: nat)
    requires Tracks(l, s, spent)
    ensures s.numPages == l.numPages
  {
  }

  // ------------------------------------------------------------------ the frame leak

  lemma AllLost(pool: BufferPool)
    requires pool.Valid() && |pool.lost| == POOL_SIZE
    ensures pool.table == map[]
  {
    FramesAreConserved(pool.Cached(), pool.lost);
  }

  /** A page is created, unpinned and deleted: one frame is gone. */
  method CreateAndDelete(pool: BufferPool)
    requires pool.Valid() && pool.Pins() == map[] && pool.unsaved == {} && pool.orphans == {} && |pool.lost| < POOL_SIZE
    requires pool.dm.numPages < 0x7FFF_FFFF && |pool.fl.list| < MAX_FREE_PAGES
    modifies pool, pool.frames, pool.fl, pool.dm
    ensures pool.Valid() && pool.Pins() == map[] && pool.unsaved == {} && pool.orphans == {}
    ensures |pool.lost| == |old(pool.lost)| + 1 && pool.live == old(pool.live)
    ensures pool.dm.numPages <= old(pool.dm.numPages) + 1 && |pool.fl.list| < MAX_FREE_PAGES
  {
    hide BufferPool.Ready, FreshPage, ZeroPage, Logical, Pinned;
    var id := CreateClean(pool);
    pool.DeletePage(id);
  }

  method CreateClean(pool: BufferPool) returns (id: int)
    requires pool.Valid() && pool.Pins() == map[] && pool.unsaved == {} && |pool.lost| < POOL_SIZE
    requires pool.dm.numPages < 0x7FFF_FFFF
    modifies pool, pool.frames, pool.fl, pool.dm
    ensures pool.Valid() && pool.Pins() == map[] && pool.unsaved == {} && pool.lost == old(pool.lost)
    ensures id !in old(pool.live) && pool.live == old(pool.live) + {id} && id in pool.table && pool.orphans == old(pool.orphans)
    ensures pool.dm.numPages <= old(pool.dm.numPages) + 1 && |pool.fl.list| <= |old(pool.fl.list)|
    ensures old(pool.fl.list) != [] ==> |pool.fl.list| == |old(pool.fl.list)| - 1
  {
    hide BufferPool.Ready, FreshPage, ZeroPage, Logical, Pinned;
    var frame;
    id, frame := pool.NewPage();
    assert pool.Pins() == map[id := 1];
    pool.UnpinPage(id, true);
    assert pool.Pins() == map[];
  }

  /** Sixty-four rounds of create and delete leave no frame to fetch into. */
  method ChurnExhausts(pool: BufferPool, other: int) returns (r: Result<Option<int>, DiskError>)
    requires pool.Valid() && pool.Pins() == map[] && pool.unsaved == {} && pool.orphans == {} && pool.lost == {}
    requires pool.dm.numPages + POOL_SIZE < 0x7FFF_FFFF && |pool.fl.list| < MAX_FREE_PAGES && other in pool.live
    modifies pool, pool.frames, pool.fl, pool.dm
    ensures r == Success(None)
  {
    hide BufferPool.Ready, Logical, Pinned;
    for n := 0 to POOL_SIZE
      invariant pool.Valid() && pool.Pins() == map[] && pool.unsaved == {} && pool.orphans == {}
      invariant |pool.lost| == n && other in pool.live
      invariant pool.dm.numPages <= old(pool.dm.numPages) + n && |pool.fl.list| < MAX_FREE_PAGES
    {
      CreateAndDelete(pool);
    }
    AllLost(pool);
    r := pool.FetchPage(other);
  }
}
