// Every paging operation keeps the reference counts exact and the processes
// apart.
module CopyOnWrite {
  import opened PageTables
  import opened ReferenceCounts
  import opened Wrappers

  // What process p sees at (d, t).
  function PageOf(ram: Ram, p: nat, d: nat, t: nat): seq<byte>
    requires PgAt(ram, p, d, t)
  {
    var f := Pte(ram, p, d, t).index;
    if f < |ram.frames| && ram.frames[f].Data? then ram.frames[f].bytes else []
  }

  // Whether user stores to the page are let through, at once or after a page fault.
  predicate MayStore(ram: Ram, p: nat, d: nat, t: nat)
    requires PgAt(ram, p, d, t)
  {
    !Pte(ram, p, d, t).readonly
  }

  // Process q in b sees what process p sees in a, and may store where it may.
  ghost predicate SameView(a: Ram, p: nat, b: Ram, q: nat) {
    && (forall d, t :: PgAt(a, p, d, t) <==> PgAt(b, q, d, t))
    && (forall d, t :: PgAt(a, p, d, t) && PgAt(b, q, d, t) ==>
          PageOf(a, p, d, t) == PageOf(b, q, d, t) && MayStore(a, p, d, t) == MayStore(b, q, d, t))
  }

  ghost predicate SameViews(a: Ram, b: Ram) {
    forall p :: SameView(a, p, b, p)
  }

  // ------------------------------------------- copying a shared page table

  lemma FreeFrameUnseen(ram: Ram, g: nat)
    requires WellFormed(ram) && Exact(ram) && g < |ram.counts| && ram.counts[g] == 0
    ensures g >= KERNEL_FRAMES && Refs(ram, g) == 0
    ensures forall p, d :: TabAt(ram, p, d) ==> Pde(ram, p, d).index != g
    ensures forall p, d, t :: PgAt(ram, p, d, t) ==> Pte(ram, p, d, t).index != g
  {
    forall p, d | TabAt(ram, p, d) ensures Pde(ram, p, d).index != g {
      Reached(ram, p, d, Pde(ram, p, d).index);
    }
    forall p, d, t | PgAt(ram, p, d, t) ensures Pte(ram, p, d, t).index != g {
      PageReached(ram, p, d, t);
    }
  }

  // Storing into a frame nobody sees changes no count.
  lemma RefsUnseenFrame(ram: Ram, g: nat, content: Frame, f: nat)
    requires WellFormed(ram) && g < |ram.frames|
    requires forall p, d :: TabAt(ram, p, d) ==> Pde(ram, p, d).index != g
    ensures AllRefs(ram.frames[g := content], ram.dirs, |ram.dirs|, f) == Refs(ram, f)
  {
    forall p | 0 <= p < |ram.dirs|
      ensures ProcRefs(ram.frames[g := content], ram.dirs[p], f) == ProcRefs(ram.frames, ram.dirs[p], f)
    {
      if ram.dirs[p].Some? {
        var dir := ram.dirs[p].value;
        forall d | USER_LO <= d < USER_HI
          ensures SlotRefs(ram.frames[g := content], dir[d], f) == SlotRefs(ram.frames, dir[d], f)
        {
          if dir[d].present {
            assert TabAt(ram, p, d);
          }
        }
        DirRefsSame(ram.frames[g := content], ram.frames, dir, dir, USER_HI, f);
      }
    }
    AllRefsSame(ram.frames[g := content], ram.frames, ram.dirs, |ram.dirs|, f);
  }

  lemma RefsSetPde(ram: Ram, p: nat, d: nat, e: Entry, f: nat)
    requires WellFormed(ram) && p < TASK_NR && ram.dirs[p].Some? && USER_LO <= d < USER_HI
    ensures Refs(SetPde(ram, p, d, e), f)
         == Refs(ram, f) + SlotRefs(ram.frames, e, f) - SlotRefs(ram.frames, ram.dirs[p].value[d], f)
  {
    var dir := ram.dirs[p].value;
    DirRefsSet(ram.frames, dir, d, e, USER_HI, f);
    AllRefsSet(ram.frames, ram.dirs, p, Some(dir[d := e]), |ram.dirs|, f);
  }

  // Whether copy_on_write needs a frame for the table, and for the page; the page's count is
  // the same after its table was copied.
  predicate CopiesTable(ram: Ram, p: nat, d: nat) {
    TabAt(ram, p, d) && !Pde(ram, p, d).write &&
    Pde(ram, p, d).index < |ram.counts| && ram.counts[Pde(ram, p, d).index] > 1
  }

  predicate CopiesPage(ram: Ram, p: nat, d: nat, t: nat) {
    PgAt(ram, p, d, t) && !Pte(ram, p, d, t).write &&
    Pte(ram, p, d, t).index < |ram.counts| && ram.counts[Pte(ram, p, d, t).index] > 1
  }

  function TableCost(ram: Ram, p: nat, d: nat): nat {
    if CopiesTable(ram, p, d) then 1 else 0
  }

  function PageCost(ram: Ram, p: nat, d: nat, t: nat): nat {
    if CopiesPage(ram, p, d, t) then 1 else 0
  }

  // The frames that a store to page (d, t) takes.
  function StoreCost(ram: Ram, p: nat, d: nat, t: nat): nat {
    TableCost(ram, p, d) + PageCost(ram, p, d, t)
  }

  predicate CanUnshareTable(ram: Ram, p: nat, d: nat, g: nat) {
    TabAt(ram, p, d) && Pde(ram, p, d).index < |ram.counts| == |ram.frames| &&
    ram.counts[Pde(ram, p, d).index] >= 1 && (CopiesTable(ram, p, d) ==> g < |ram.counts| && ram.counts[g] == 0)
  }

  lemma UnshareTableExact(ram: Ram, p: nat, d: nat, g: nat)
    requires Inv(ram) && CanUnshareTable(ram, p, d, g)
    ensures Exact(UnshareTable(ram, p, d, g)) && FreeExact(UnshareTable(ram, p, d, g))
  {
    var s := UnshareTable(ram, p, d, g);
    var e := Pde(ram, p, d);
    if CopiesTable(ram, p, d) {
      FreeFrameUnseen(ram, g);
    }
    if !e.write && ram.counts[e.index] == 1 {
      forall f | 0 <= f < |s.counts| ensures s.counts[f] == Base(f) + Refs(s, f) {
        RefsSetPde(ram, p, d, e.(write := true), f);
      }
    } else if !e.write {
      var m := Take(ram, g, ram.frames[e.index]);
      forall f | 0 <= f < |s.counts| ensures s.counts[f] == Base(f) + Refs(s, f) {
        RefsUnseenFrame(ram, g, ram.frames[e.index], f);
        var dir := ram.dirs[p].value;
        var e' := e.(write := true, index := g);
        DirRefsSet(m.frames, dir, d, e', USER_HI, f);
        AllRefsSet(m.frames, ram.dirs, p, Some(dir[d := e']), |ram.dirs|, f);
        assert Slots(m.frames, g) == Slots(m.frames, e.index);
        assert ram.counts[f] == Base(f) + Refs(ram, f);
      }
      ZerosSet(ram.counts, g, 1, |ram.counts|);
      ZerosSet(m.counts, e.index, m.counts[e.index] - 1, |ram.counts|);
    }
  }

  lemma UnshareTableLookups(ram: Ram, p: nat, d: nat, g: nat)
    requires Inv(ram) && CanUnshareTable(ram, p, d, g)
    ensures var s := UnshareTable(ram, p, d, g);
      && (forall q, e :: TabAt(s, q, e) <==> TabAt(ram, q, e))
      && (forall q, e :: TabAt(s, q, e) && (q != p || e != d) ==> Pde(s, q, e) == Pde(ram, q, e))
      && (forall q, e, u :: PgAt(s, q, e, u) <==> PgAt(ram, q, e, u))
      && (forall q, e, u :: PgAt(s, q, e, u) && PgAt(ram, q, e, u) ==> Pte(s, q, e, u) == Pte(ram, q, e, u))
      && Pde(s, p, d).write && s.counts[Pde(s, p, d).index] == 1
  {
    var s := UnshareTable(ram, p, d, g);
    if CopiesTable(ram, p, d) {
      FreeFrameUnseen(ram, g);
    }
    forall q, e ensures TabAt(s, q, e) <==> TabAt(ram, q, e) {}
    forall q, e, u
      ensures PgAt(s, q, e, u) <==> PgAt(ram, q, e, u)
      ensures PgAt(s, q, e, u) ==> Pte(s, q, e, u) == Pte(ram, q, e, u)
    {
      if TabAt(ram, q, e) {
        assert Slots(s.frames, Pde(s, q, e).index) == Slots(ram.frames, Pde(ram, q, e).index);
      }
    }
  }

  lemma UnshareTableShape(ram: Ram, p: nat, d: nat, g: nat)
    requires Inv(ram) && CanUnshareTable(ram, p, d, g)
    ensures WellFormed(UnshareTable(ram, p, d, g)) && OneSlot(UnshareTable(ram, p, d, g))
  {
    hide Refs, Exact, FreeExact, Exclusive;
    var s := UnshareTable(ram, p, d, g);
    if CopiesTable(ram, p, d) {
      FreeFrameUnseen(ram, g);
    }
    UnshareTableLookups(ram, p, d, g);
    assert WellFormed(s);
    forall q, e, u, q', e', u' | PgAt(s, q, e, u) && PgAt(s, q', e', u') &&
      Pte(s, q, e, u).index == Pte(s, q', e', u').index
      ensures e == e' && u == u'
    {
      assert PgAt(ram, q, e, u) && PgAt(ram, q', e', u');
    }
  }

  lemma UnshareTableExclusive(ram: Ram, p: nat, d: nat, g: nat)
    requires Inv(ram) && CanUnshareTable(ram, p, d, g) && WellFormed(UnshareTable(ram, p, d, g))
    ensures Exclusive(UnshareTable(ram, p, d, g))
  {
    hide Refs, OneSlot, FreeExact;
    var s := UnshareTable(ram, p, d, g);
    if CopiesTable(ram, p, d) {
      FreeFrameUnseen(ram, g);
    }
    UnshareTableLookups(ram, p, d, g);
    forall q, e | TabAt(s, q, e) && Pde(s, q, e).write ensures s.counts[Pde(s, q, e).index] == 1 {
      assert TabAt(ram, q, e);
    }
    forall q, e, u | PgAt(s, q, e, u) && Pte(s, q, e, u).write
      ensures s.counts[Pde(s, q, e).index] == 1 && s.counts[Pte(s, q, e, u).index] == 1
    {
      assert PgAt(ram, q, e, u);
    }
  }

  lemma UnshareTableKeeps(ram: Ram, p: nat, d: nat, g: nat)
    requires Inv(ram) && CanUnshareTable(ram, p, d, g)
    ensures Inv(UnshareTable(ram, p, d, g))
    ensures SameViews(ram, UnshareTable(ram, p, d, g))
  {
    hide Refs, Exact, FreeExact, OneSlot, Exclusive;
    UnshareTableExact(ram, p, d, g);
    UnshareTableShape(ram, p, d, g);
    UnshareTableExclusive(ram, p, d, g);
    if CopiesTable(ram, p, d) {
      FreeFrameUnseen(ram, g);
    }
    UnshareTableLookups(ram, p, d, g);
  }

  // -------------------------------------------------- copying a shared page

  predicate CanUnsharePage(ram: Ram, p: nat, d: nat, t: nat, g: nat) {
    PgAt(ram, p, d, t) && MayStore(ram, p, d, t) && Pde(ram, p, d).write &&
    Pde(ram, p, d).index < |ram.counts| == |ram.frames| && ram.counts[Pde(ram, p, d).index] >= 1 &&
    Pte(ram, p, d, t).index < |ram.counts| && ram.counts[Pte(ram, p, d, t).index] >= 1 &&
    (CopiesPage(ram, p, d, t) ==> g < |ram.counts| && ram.counts[g] == 0)
  }

  // Changing one entry of a table moves that reference once for each directory slot naming the table.
  lemma RefsSetPte(ram: Ram, p: nat, d: nat, t: nat, e: Entry, f: nat)
    requires WellFormed(ram) && Exact(ram) && TabAt(ram, p, d) && t < SLOTS
    ensures var tab := Pde(ram, p, d).index;
      Refs(SetPte(ram, tab, t, e), f)
      == Refs(ram, f) + ram.counts[tab] * (One(e, f) - One(Slots(ram.frames, tab)[t], f))
  {
    var tab := Pde(ram, p, d).index;
    TableCountIsTabs(ram, p, d);
    AllRefsPte(ram.frames, tab, t, e, ram.dirs, |ram.dirs|, f);
  }

  lemma UnsharePageExact(ram: Ram, p: nat, d: nat, t: nat, g: nat)
    requires Inv(ram) && CanUnsharePage(ram, p, d, t, g)
    ensures Exact(UnsharePage(ram, p, d, t, g)) && FreeExact(UnsharePage(ram, p, d, t, g))
  {
    var s := UnsharePage(ram, p, d, t, g);
    var e := Pte(ram, p, d, t);
    var tab := Pde(ram, p, d).index;
    if CopiesPage(ram, p, d, t) {
      FreeFrameUnseen(ram, g);
    }
    if !e.write && ram.counts[e.index] == 1 {
      forall f | 0 <= f < |s.counts| ensures s.counts[f] == Base(f) + Refs(s, f) {
        RefsSetPte(ram, p, d, t, e.(write := true), f);
      }
    } else if !e.write {
      var e' := e.(write := true, index := g);
      var m := Take(ram, g, ram.frames[e.index]);
      forall f | 0 <= f < |s.counts| ensures s.counts[f] == Base(f) + Refs(s, f) {
        RefsUnseenFrame(ram, g, ram.frames[e.index], f);
        TableCountIsTabs(ram, p, d);
        AllRefsPte(m.frames, tab, t, e', ram.dirs, |ram.dirs|, f);
        assert ram.counts[f] == Base(f) + Refs(ram, f);
      }
      ZerosSet(ram.counts, g, 1, |ram.counts|);
      ZerosSet(m.counts, e.index, m.counts[e.index] - 1, |ram.counts|);
    }
  }

  lemma UnsharePageLookups(ram: Ram, p: nat, d: nat, t: nat, g: nat)
    requires Inv(ram) && CanUnsharePage(ram, p, d, t, g)
    ensures var s := UnsharePage(ram, p, d, t, g);
      && (forall q, e :: TabAt(s, q, e) <==> TabAt(ram, q, e))
      && (forall q, e :: TabAt(s, q, e) && TabAt(ram, q, e) ==> Pde(s, q, e) == Pde(ram, q, e))
      && (forall q, e, u :: PgAt(s, q, e, u) <==> PgAt(ram, q, e, u))
      && (forall q, e, u :: PgAt(s, q, e, u) && (q != p || e != d || u != t) ==> Pte(s, q, e, u) == Pte(ram, q, e, u))
      && Pte(s, p, d, t).write && s.counts[Pte(s, p, d, t).index] == 1
      && s.counts[Pde(s, p, d).index] == 1
  {
    var s := UnsharePage(ram, p, d, t, g);
    var tab := Pde(ram, p, d).index;
    if CopiesPage(ram, p, d, t) {
      FreeFrameUnseen(ram, g);
    }
    forall q, e ensures TabAt(s, q, e) <==> TabAt(ram, q, e) {}
    forall q, e, u
      ensures PgAt(s, q, e, u) <==> PgAt(ram, q, e, u)
      ensures PgAt(s, q, e, u) && (q != p || e != d || u != t) ==> Pte(s, q, e, u) == Pte(ram, q, e, u)
    {
      if TabAt(ram, q, e) && Pde(ram, q, e).index == tab {
        TableAlone(ram, p, q, d);
      }
    }
  }

  lemma UnsharePageShape(ram: Ram, p: nat, d: nat, t: nat, g: nat)
    requires Inv(ram) && CanUnsharePage(ram, p, d, t, g)
    ensures WellFormed(UnsharePage(ram, p, d, t, g))
    ensures OneSlot(UnsharePage(ram, p, d, t, g))
  {
    hide Refs, FreeExact, Exclusive;
    var s := UnsharePage(ram, p, d, t, g);
    if CopiesPage(ram, p, d, t) {
      FreeFrameUnseen(ram, g);
    }
    UnsharePageLookups(ram, p, d, t, g);
    assert WellFormed(s);
    forall q, e, u, q', e', u' | PgAt(s, q, e, u) && PgAt(s, q', e', u') &&
      Pte(s, q, e, u).index == Pte(s, q', e', u').index
      ensures e == e' && u == u'
    {
      assert PgAt(ram, q, e, u) && PgAt(ram, q', e', u');
    }
  }

  lemma UnsharePageExclusive(ram: Ram, p: nat, d: nat, t: nat, g: nat)
    requires Inv(ram) && CanUnsharePage(ram, p, d, t, g) && WellFormed(UnsharePage(ram, p, d, t, g))
    ensures Exclusive(UnsharePage(ram, p, d, t, g))
  {
    var s := UnsharePage(ram, p, d, t, g);
    if CopiesPage(ram, p, d, t) {
      FreeFrameUnseen(ram, g);
    }
    UnsharePageLookups(ram, p, d, t, g);
    forall q, e | TabAt(s, q, e) && Pde(s, q, e).write ensures s.counts[Pde(s, q, e).index] == 1 {
      assert TabAt(ram, q, e);
    }
    forall q, e, u | PgAt(s, q, e, u) && Pte(s, q, e, u).write
      ensures s.counts[Pde(s, q, e).index] == 1 && s.counts[Pte(s, q, e, u).index] == 1
    {
      assert PgAt(ram, q, e, u) && TabAt(ram, q, e);
    }
  }

  lemma UnsharePageKeeps(ram: Ram, p: nat, d: nat, t: nat, g: nat)
    requires Inv(ram) && CanUnsharePage(ram, p, d, t, g)
    ensures Inv(UnsharePage(ram, p, d, t, g))
    ensures SameViews(ram, UnsharePage(ram, p, d, t, g))
  {
    hide Refs, Exact, FreeExact, OneSlot, Exclusive;
    var s := UnsharePage(ram, p, d, t, g);
    UnsharePageExact(ram, p, d, t, g);
    UnsharePageShape(ram, p, d, t, g);
    UnsharePageExclusive(ram, p, d, t, g);
    if CopiesPage(ram, p, d, t) {
      FreeFrameUnseen(ram, g);
    }
    UnsharePageLookups(ram, p, d, t, g);
    forall q, e, u | PgAt(s, q, e, u) ensures PageOf(s, q, e, u) == PageOf(ram, q, e, u) {
      assert PgAt(ram, q, e, u);
    }
  }

  // ------------------------------------------------- a store by one process

  lemma {:induction false} ZerosHaveFirst(counts: seq<nat>, from: nat, n: nat)
    requires from <= n <= |counts| && Zeros(counts, n) > 0
    requires forall f :: 0 <= f < from ==> counts[f] != 0
    ensures FirstFree(counts, from) < n
  {
    var g := FirstFree(counts, from);
    if g >= n {
      NoZeros(counts, n);
    }
  }

  lemma {:induction false} NoZeros(counts: seq<nat>, n: nat)
    requires n <= |counts| && forall f :: 0 <= f < n ==> counts[f] != 0
    ensures Zeros(counts, n) == 0
  {
    if n > 0 {
      NoZeros(counts, n - 1);
    }
  }

  function FreeFrames(ram: Ram): nat {
    Zeros(ram.counts, |ram.counts|)
  }

  function NextFree(ram: Ram): nat
    requires ram.start <= |ram.counts|
  {
    FirstFree(ram.counts, ram.start)
  }

  lemma NextFreeFound(ram: Ram)
    requires WellFormed(ram) && Exact(ram) && FreeFrames(ram) >= 1
    ensures NextFree(ram) < |ram.counts| && ram.counts[NextFree(ram)] == 0
  {
    ZerosHaveFirst(ram.counts, ram.start, |ram.counts|);
  }

  // The same processes have an address space.
  predicate SameSpaces(a: Ram, b: Ram) {
    |b.dirs| == |a.dirs| && forall q :: 0 <= q < |a.dirs| ==> b.dirs[q].Some? == a.dirs[q].Some?
  }

  // copy_on_write at level 2, with the frame that get_page finds.
  ghost function CowTable(ram: Ram, p: nat, d: nat): Ram
    requires Inv(ram) && TabAt(ram, p, d) && FreeFrames(ram) >= TableCost(ram, p, d)
  {
    CanCowTable(ram, p, d);
    UnshareTable(ram, p, d, NextFree(ram))
  }

  lemma CanCowTable(ram: Ram, p: nat, d: nat)
    requires Inv(ram) && TabAt(ram, p, d) && FreeFrames(ram) >= TableCost(ram, p, d)
    ensures CanUnshareTable(ram, p, d, NextFree(ram))
  {
    Reached(ram, p, d, Pde(ram, p, d).index);
    if CopiesTable(ram, p, d) {
      NextFreeFound(ram);
    }
  }

  lemma CowTableCost(ram: Ram, p: nat, d: nat, t: nat)
    requires Inv(ram) && PgAt(ram, p, d, t) && FreeFrames(ram) >= TableCost(ram, p, d)
    requires var s := CowTable(ram, p, d); Inv(s) && PgAt(s, p, d, t) && Pte(s, p, d, t) == Pte(ram, p, d, t)
    ensures FreeFrames(CowTable(ram, p, d)) == FreeFrames(ram) - TableCost(ram, p, d)
    ensures PageCost(CowTable(ram, p, d), p, d, t) == PageCost(ram, p, d, t)
  {
    CanCowTable(ram, p, d);
    PageReached(ram, p, d, t);
  }

  lemma CowTableKeeps(ram: Ram, p: nat, d: nat, t: nat)
    requires Inv(ram) && PgAt(ram, p, d, t) && FreeFrames(ram) >= TableCost(ram, p, d)
    ensures var s := CowTable(ram, p, d);
      Inv(s) && SameViews(ram, s) && PgAt(s, p, d, t) && Pde(s, p, d).write
      && Pte(s, p, d, t) == Pte(ram, p, d, t) && SameSpaces(ram, s)
      && FreeFrames(s) == FreeFrames(ram) - TableCost(ram, p, d) && PageCost(s, p, d, t) == PageCost(ram, p, d, t)
  {
    CanCowTable(ram, p, d);
    UnshareTableKeeps(ram, p, d, NextFree(ram));
    UnshareTableLookups(ram, p, d, NextFree(ram));
    CowTableCost(ram, p, d, t);
  }

  ghost function CowPage(ram: Ram, p: nat, d: nat, t: nat): Ram
    requires Inv(ram) && PgAt(ram, p, d, t) && MayStore(ram, p, d, t)
    requires Pde(ram, p, d).write && FreeFrames(ram) >= PageCost(ram, p, d, t)
  {
    CanCowPage(ram, p, d, t);
    UnsharePage(ram, p, d, t, NextFree(ram))
  }

  lemma CanCowPage(ram: Ram, p: nat, d: nat, t: nat)
    requires Inv(ram) && PgAt(ram, p, d, t) && MayStore(ram, p, d, t)
    requires Pde(ram, p, d).write && FreeFrames(ram) >= PageCost(ram, p, d, t)
    ensures CanUnsharePage(ram, p, d, t, NextFree(ram))
  {
    Reached(ram, p, d, Pde(ram, p, d).index);
    PageReached(ram, p, d, t);
    if CopiesPage(ram, p, d, t) {
      NextFreeFound(ram);
    }
  }

  lemma CowPageKeeps(ram: Ram, p: nat, d: nat, t: nat)
    requires Inv(ram) && PgAt(ram, p, d, t) && MayStore(ram, p, d, t)
    requires Pde(ram, p, d).write && FreeFrames(ram) >= PageCost(ram, p, d, t)
    ensures var s := CowPage(ram, p, d, t);
      Inv(s) && SameViews(ram, s) && PgAt(s, p, d, t) && Pde(s, p, d).write
      && Pte(s, p, d, t).write && Pte(s, p, d, t).readonly == Pte(ram, p, d, t).readonly && SameSpaces(ram, s)
      && FreeFrames(s) == FreeFrames(ram) - PageCost(ram, p, d, t)
  {
    CanCowPage(ram, p, d, t);
    UnsharePageKeeps(ram, p, d, t, NextFree(ram));
    UnsharePageLookups(ram, p, d, t, NextFree(ram));
  }

  // copy_on_write(vaddr, 3): the level of the self map is always writable, so two levels remain.
  ghost function Cow(ram: Ram, p: nat, d: nat, t: nat): Ram
    requires Inv(ram) && PgAt(ram, p, d, t) && MayStore(ram, p, d, t) && FreeFrames(ram) >= StoreCost(ram, p, d, t)
  {
    CowTableKeeps(ram, p, d, t);
    CowPage(CowTable(ram, p, d), p, d, t)
  }

  lemma CowKeeps(ram: Ram, p: nat, d: nat, t: nat)
    requires Inv(ram) && PgAt(ram, p, d, t) && MayStore(ram, p, d, t) && FreeFrames(ram) >= StoreCost(ram, p, d, t)
    ensures var s := Cow(ram, p, d, t);
      Inv(s) && SameViews(ram, s) && PgAt(s, p, d, t) && Pde(s, p, d).write && Pte(s, p, d, t).write
      && Pte(s, p, d, t).readonly == Pte(ram, p, d, t).readonly && SameSpaces(ram, s)
      && FreeFrames(s) == FreeFrames(ram) - StoreCost(ram, p, d, t)
  {
    CowTableKeeps(ram, p, d, t);
    CowPageKeeps(CowTable(ram, p, d), p, d, t);
    SameViewsTrans(ram, CowTable(ram, p, d), Cow(ram, p, d, t));
  }

  lemma SameViewsTrans(a: Ram, b: Ram, c: Ram)
    requires SameViews(a, b) && SameViews(b, c)
    ensures SameViews(a, c)
  {
    forall p ensures SameView(a, p, c, p) {
      assert SameView(a, p, b, p) && SameView(b, p, c, p);
    }
  }

  // Process p in s sees what it saw in ram, but for byte offset of its page (d, t).
  ghost predicate PokedView(ram: Ram, s: Ram, p: nat, d: nat, t: nat, offset: nat, b: byte) {
    && (forall e, u :: PgAt(ram, p, e, u) <==> PgAt(s, p, e, u))
    && (forall e, u :: PgAt(ram, p, e, u) && PgAt(s, p, e, u) ==>
          ((e == d && u == t) || PageOf(s, p, e, u) == PageOf(ram, p, e, u))
          && MayStore(s, p, e, u) == MayStore(ram, p, e, u))
    && PgAt(ram, p, d, t) && PgAt(s, p, d, t)
    && offset < |PageOf(ram, p, d, t)| && PageOf(s, p, d, t) == PageOf(ram, p, d, t)[offset := b]
  }

  lemma PokeLookups(ram: Ram, p: nat, d: nat, t: nat, offset: nat, b: byte)
    requires Inv(ram) && PgAt(ram, p, d, t) && offset < PAGE_SIZE
    ensures var s := Poke(ram, p, d, t, offset, b);
      && (forall q, e :: TabAt(s, q, e) <==> TabAt(ram, q, e))
      && (forall q, e :: TabAt(s, q, e) && TabAt(ram, q, e) ==>
            Pde(s, q, e) == Pde(ram, q, e) &&
            Slots(s.frames, Pde(s, q, e).index) == Slots(ram.frames, Pde(ram, q, e).index))
      && (forall q, e, u :: PgAt(s, q, e, u) <==> PgAt(ram, q, e, u))
      && (forall q, e, u :: PgAt(s, q, e, u) && PgAt(ram, q, e, u) ==> Pte(s, q, e, u) == Pte(ram, q, e, u))
  {}

  lemma PokeKeeps(ram: Ram, p: nat, d: nat, t: nat, offset: nat, b: byte)
    requires Inv(ram) && PgAt(ram, p, d, t) && offset < PAGE_SIZE
    ensures Inv(Poke(ram, p, d, t, offset, b))
  {
    var s := Poke(ram, p, d, t, offset, b);
    PokeLookups(ram, p, d, t, offset, b);
    var g := Pte(ram, p, d, t).index;
    forall f | 0 <= f < |s.counts| ensures s.counts[f] == Base(f) + Refs(s, f) {
      assert forall q, e :: TabAt(ram, q, e) ==> Pde(ram, q, e).index != g;
      RefsUnseenFrame(ram, g, s.frames[g], f);
    }
    assert OneSlot(s) by {
      forall q, e, u, q', e', u' | PgAt(s, q, e, u) && PgAt(s, q', e', u') &&
        Pte(s, q, e, u).index == Pte(s, q', e', u').index
        ensures e == e' && u == u'
      {
        assert PgAt(ram, q, e, u) && PgAt(ram, q', e', u');
      }
    }
  }

  // A store to a page writable at both levels is seen by its own process only.
  lemma PokeIsPrivate(ram: Ram, p: nat, d: nat, t: nat, offset: nat, b: byte)
    requires Inv(ram) && PgAt(ram, p, d, t) && offset < PAGE_SIZE
    requires Pte(ram, p, d, t).write
    ensures var s := Poke(ram, p, d, t, offset, b);
      PokedView(ram, s, p, d, t, offset, b) && forall q :: q != p ==> SameView(ram, q, s, q)
  {
    var s := Poke(ram, p, d, t, offset, b);
    PokeLookups(ram, p, d, t, offset, b);
    forall q, e, u | PgAt(s, q, e, u) && (q != p || e != d || u != t)
      ensures PageOf(s, q, e, u) == PageOf(ram, q, e, u)
    {
      assert PgAt(ram, q, e, u);
      if Pte(ram, q, e, u).index == Pte(ram, p, d, t).index {
        PageAlone(ram, p, q, d, t);
      }
    }
  }

  // What a user store does: the page fault, when either level is read-only, then the store.
  ghost function Faulted(ram: Ram, p: nat, d: nat, t: nat): Ram
    requires Inv(ram) && PgAt(ram, p, d, t) && MayStore(ram, p, d, t) && FreeFrames(ram) >= StoreCost(ram, p, d, t)
  {
    if Pde(ram, p, d).write && Pte(ram, p, d, t).write then ram else Cow(ram, p, d, t)
  }

  lemma FaultedKeeps(ram: Ram, p: nat, d: nat, t: nat)
    requires Inv(ram) && PgAt(ram, p, d, t) && MayStore(ram, p, d, t) && FreeFrames(ram) >= StoreCost(ram, p, d, t)
    ensures var s := Faulted(ram, p, d, t);
      Inv(s) && SameViews(ram, s) && PgAt(s, p, d, t) && Pde(s, p, d).write && Pte(s, p, d, t).write &&
      SameSpaces(ram, s)
  {
    hide Inv, Cow;
    CowKeeps(ram, p, d, t);
  }

  ghost function Store(ram: Ram, p: nat, d: nat, t: nat, offset: nat, b: byte): Ram
    requires Inv(ram) && PgAt(ram, p, d, t) && MayStore(ram, p, d, t)
    requires FreeFrames(ram) >= StoreCost(ram, p, d, t) && offset < PAGE_SIZE
  {
    FaultedKeeps(ram, p, d, t);
    Poke(Faulted(ram, p, d, t), p, d, t, offset, b)
  }

  lemma PokedThrough(a: Ram, m: Ram, s: Ram, p: nat, d: nat, t: nat, offset: nat, b: byte)
    requires SameView(a, p, m, p) && PokedView(m, s, p, d, t, offset, b)
    ensures PokedView(a, s, p, d, t, offset, b)
  {}

  lemma SameThrough(a: Ram, m: Ram, s: Ram, q: nat)
    requires SameView(a, q, m, q) && SameView(m, q, s, q)
    ensures SameView(a, q, s, q)
  {}

  // A store by one process is seen by that process alone.
  lemma StoreIsPrivate(ram: Ram, p: nat, d: nat, t: nat, offset: nat, b: byte)
    requires Inv(ram) && PgAt(ram, p, d, t) && MayStore(ram, p, d, t)
    requires FreeFrames(ram) >= StoreCost(ram, p, d, t) && offset < PAGE_SIZE
    ensures var s := Store(ram, p, d, t, offset, b);
      Inv(s) && SameSpaces(ram, s) && PokedView(ram, s, p, d, t, offset, b) &&
      forall q :: q != p ==> SameView(ram, q, s, q)
  {
    var m := Faulted(ram, p, d, t);
    FaultedKeeps(ram, p, d, t);
    var s := Store(ram, p, d, t, offset, b);
    PokeKeeps(m, p, d, t, offset, b);
    PokeIsPrivate(m, p, d, t, offset, b);
    PokedThrough(ram, m, s, p, d, t, offset, b);
    forall q: nat | q != p ensures SameView(ram, q, s, q) {
      SameThrough(ram, m, s, q);
    }
  }
}
