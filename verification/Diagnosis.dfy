/** Which repair the code picks for an underflowing page, and what comes of it: decided by the
    pages and key ranges before anything is done. */
module Diagnoses {
  import opened Base
  import opened Nodes
  import opened Trees
  import opened TreeEdits
  import opened TreeRepairs
  import opened TreeBooks
  import opened Rebalancing
  import FreeLists

  datatype Fault =
    | NoSibling            // the parent has no separator at all
    | NoLender             // the lender has no cell to lend, or none left to name it after
    | NoRoom               // the moved cell, the new separator or the joined page does not fit
    | RegistryFull         // the free list cannot take another page
    | EmptiedLender        // the lender's only cell is its lower bound: no key is left to it
    | MisplacedSeparator   // a middle child turns right but edits the separator on its left
    | StolenSeparator      // an internal loan puts the moved key where the old separator belongs

  /** The first four are failed assertions; after the others the code carries on. */
  predicate Asserts(f: Fault) { f.NoSibling? || f.NoLender? || f.NoRoom? || f.RegistryFull? }

  predicate Stops(f: Option<Fault>) { f.Some? && Asserts(f.value) }

  /** The separator the code edits when child `i` turns right: wrong unless `i` is the first. */
  function TurnSlot(i: nat): nat { if i == 0 then 0 else i - 1 }

  /** Child `s` lends to child `s + 1`; `lo` is where the lender's range starts. */
  function LeftLoan(rank: Rank, lo: real, parent: Node, s: nat, lender: Node, x: Node): Option<Fault>
    requires s < |parent.entries|
  {
    if lender.entries == [] then Some(NoLender)
    else
      var e := lender.entries[|lender.entries| - 1];
      if Costs(x.entries) + Cost(e) > USABLE || !SeparatorFits(parent, s, e.key) then Some(NoRoom)
      else if !x.leaf then Some(StolenSeparator)
      else if rank(e.key) <= lo then Some(EmptiedLender)
      else None
  }

  /** The key a loan from the right leaves as the separator. */
  function RightBoundary(lender: Node): Key
    requires |lender.entries| >= if lender.leaf then 2 else 1
  {
    lender.entries[if lender.leaf then 1 else 0].key
  }

  /** Child `i + 1` lends to child `i`. */
  function RightLoan(parent: Node, i: nat, lender: Node, x: Node): Option<Fault>
    requires i < |parent.entries|
  {
    if |lender.entries| < (if lender.leaf then 2 else 1) then Some(NoLender)
    else if Costs(x.entries) + Cost(lender.entries[0]) > USABLE
            || !SeparatorFits(parent, TurnSlot(i), RightBoundary(lender)) then Some(NoRoom)
    else if i > 0 then Some(MisplacedSeparator)
    else if !x.leaf then Some(StolenSeparator)
    else None
  }

  /** Page `r` is merged into `l`, and separator `slot` goes; it is the one between them if `apt`. */
  function Join(parent: Node, slot: nat, apt: bool, l: Node, r: Node, freed: nat): Option<Fault>
    requires slot < |parent.entries|
  {
    if !l.leaf && Costs(l.entries) + Cost(KP(parent.entries[slot].key, r.first)) + Costs(r.entries) > USABLE then Some(NoRoom)
    else if freed >= FreeLists.MAX_FREE_PAGES then Some(RegistryFull)
    else if !apt then Some(MisplacedSeparator)
    else None
  }

  ghost predicate KidsThere(pages: map<PageId, Node>, p: PageId) {
    p in pages && forall j :: 0 <= j <= |pages[p].entries| ==> Kid(pages[p], j) in pages
  }

  ghost predicate PathThere(pages: map<PageId, Node>, crumbs: seq<PageId>) {
    forall i :: 0 <= i < |crumbs| ==> KidsThere(pages, crumbs[i])
  }

  function Low(info: map<PageId, Info>, p: PageId): real { if p in info then info[p].lo else 0.0 }

  /** Whether repairing page `x`, whose content is `nx`, meets a fault on its level or further up. */
  ghost function Diagnosis(rank: Rank, info: map<PageId, Info>, pages: map<PageId, Node>, root: PageId, freed: nat,
                           crumbs: seq<PageId>, x: PageId, nx: Node): Option<Fault>
    requires PathThere(pages, crumbs)
    decreases |crumbs|, 1
  {
    if crumbs == [] then None
    else
      var q := crumbs[|crumbs| - 1];
      assert KidsThere(pages, q);
      var parent := pages[q];
      var i := ChildIndex(parent, x);
      if parent.entries == [] || i > |parent.entries| then Some(NoSibling)
      else if i > 0 && !Underflow(pages[Kid(parent, i - 1)]) then
        LeftLoan(rank, Low(info, Kid(parent, i - 1)), parent, i - 1, pages[Kid(parent, i - 1)], nx)
      else if i < |parent.entries| && !Underflow(pages[Kid(parent, i + 1)]) then
        RightLoan(parent, i, pages[Kid(parent, i + 1)], nx)
      else MergeDiagnosis(rank, info, pages, root, freed, crumbs, i, nx)
  }

  /** The same when no sibling can lend and child `i` has to merge. */
  ghost function MergeDiagnosis(rank: Rank, info: map<PageId, Info>, pages: map<PageId, Node>, root: PageId, freed: nat,
                                crumbs: seq<PageId>, i: nat, nx: Node): Option<Fault>
    requires PathThere(pages, crumbs) && crumbs != []
    requires var parent := pages[crumbs[|crumbs| - 1]]; parent.entries != [] && i <= |parent.entries|
    decreases |crumbs|, 0
  {
    var q := crumbs[|crumbs| - 1];
    assert KidsThere(pages, q);
    var parent := pages[q];
    var fault := if i < |parent.entries| then Join(parent, TurnSlot(i), i == 0, nx, pages[Kid(parent, i + 1)], freed)
                 else Join(parent, i - 1, true, pages[Kid(parent, i - 1)], nx, freed);
    if fault.Some? then fault
    else Aftermath(rank, info, pages, root, freed + 1, crumbs[..|crumbs| - 1], q, RemoveAt(parent, TurnSlot(i)))
  }

  /** After a merge: the parent `q`, now `nq`, underflows in turn, or is a root to be dropped. */
  ghost function Aftermath(rank: Rank, info: map<PageId, Info>, pages: map<PageId, Node>, root: PageId, freed: nat,
                           crumbs: seq<PageId>, q: PageId, nq: Node): Option<Fault>
    requires PathThere(pages, crumbs)
    decreases |crumbs|, 2
  {
    if Underflow(nq) && q != root then Diagnosis(rank, info, pages, root, freed, crumbs, q, nq)
    else if nq.entries == [] && q == root && freed >= FreeLists.MAX_FREE_PAGES then Some(RegistryFull)
    else None
  }

  /** A misdirected merge never passes for sound, and a well-directed one only fails an assertion. */
  lemma JoinVerdicts(parent: Node, slot: nat, l: Node, r: Node, freed: nat)
    requires slot < |parent.entries|
    ensures Join(parent, slot, false, l, r, freed).Some?
    ensures Join(parent, slot, true, l, r, freed) == None || Stops(Join(parent, slot, true, l, r, freed))
  {
  }

  /** The diagnosis looks only at `x`'s own level and above. */
  lemma {:induction false} DiagnosisFrame(rank: Rank, t: Tree, pages: map<PageId, Node>, info: map<PageId, Info>, freed: nat,
                                          crumbs: seq<PageId>, x: PageId, nx: Node)
    requires Shape(rank, t) && t.pend == Whole && PathTo(t, crumbs, x) && x in t.pages
    requires forall c :: c in t.pages && c != x && t.info[c].level >= t.info[x].level ==>
               c in pages && pages[c] == t.pages[c] && c in info && info[c] == t.info[c]
    requires PathThere(t.pages, crumbs) && PathThere(pages, crumbs)
    ensures Diagnosis(rank, info, pages, t.root, freed, crumbs, x, nx) == Diagnosis(rank, t.info, t.pages, t.root, freed, crumbs, x, nx)
    decreases |crumbs|
  {
    hide PageOk, LeftLoan, RightLoan, Join, Underflow;
    if crumbs != [] {
      var q := crumbs[|crumbs| - 1];
      assert KidsThere(t.pages, q) && KidsThere(pages, q);
      SiblingLevels(rank, t, q, x);
      assert pages[q] == t.pages[q];
      var init := crumbs[..|crumbs| - 1];
      assert forall i :: 0 <= i < |init| ==> init[i] == crumbs[i];
      var i := ChildIndex(t.pages[q], x);
      if i <= |t.pages[q].entries| && t.pages[q].entries != [] {
        var nq := RemoveAt(t.pages[q], TurnSlot(i));
        DiagnosisFrame(rank, t, pages, info, freed + 1, init, q, nq);
        assert Aftermath(rank, info, pages, t.root, freed + 1, init, q, nq)
            == Aftermath(rank, t.info, t.pages, t.root, freed + 1, init, q, nq);
        assert MergeDiagnosis(rank, info, pages, t.root, freed, crumbs, i, nx)
            == MergeDiagnosis(rank, t.info, t.pages, t.root, freed, crumbs, i, nx);
      }
    }
  }

  lemma SiblingLevels(rank: Rank, t: Tree, q: PageId, x: PageId)
    requires Shape(rank, t) && t.pend == Whole && q in t.pages && x in t.pages && x != t.root && t.pages[x].parent == q
    ensures !t.pages[q].leaf && ChildIndex(t.pages[q], x) <= |t.pages[q].entries|
    ensures forall j :: 0 <= j <= |t.pages[q].entries| ==>
              var c := Kid(t.pages[q], j);
              && c in t.pages && t.info[c].level == t.info[x].level
              && (c == x ==> j == ChildIndex(t.pages[q], x))
  {
    hide NodeOk, ChainOk;
    assert PageOk(rank, t, x);
    assert PageOk(rank, t, q);
    var i :| 0 <= i <= |t.pages[q].entries| && Kid(t.pages[q], i) == x;
    assert KidOk(rank, t, q, i);
    forall j | 0 <= j <= |t.pages[q].entries|
      ensures var c := Kid(t.pages[q], j); c in t.pages && t.info[c].level == t.info[x].level && (c == x ==> j == i)
    {
      assert KidOk(rank, t, q, j);
      if j != i { KidOnce(rank, t, q, i, j); }
    }
  }

  lemma {:induction false} PathIsThere(rank: Rank, t: Tree, crumbs: seq<PageId>, x: PageId)
    requires Shape(rank, t) && t.pend == Whole && PathTo(t, crumbs, x) && x in t.pages
    ensures PathThere(t.pages, crumbs)
    decreases |crumbs|
  {
    if crumbs != [] {
      var q := crumbs[|crumbs| - 1];
      SiblingLevels(rank, t, q, x);
      PathIsThere(rank, t, crumbs[..|crumbs| - 1], q);
      forall i | 0 <= i < |crumbs| ensures KidsThere(t.pages, crumbs[i]) {
        if i < |crumbs| - 1 { assert crumbs[i] == crumbs[..|crumbs| - 1][i]; }
      }
    }
  }
}
