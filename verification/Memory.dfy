// src/kernel/memory.c in its own form: memory_map and the frames are arrays
// that the operations edit in place.
module Memory {
  import opened PageTables
  import opened ReferenceCounts
  import opened CopyOnWrite
  import opened AddressSpaces
  import opened Wrappers

  class Memory {
    const startPage: nat
    const memoryMap: array<nat>
    const frames: array<Frame>
    var freePages: int
    var dirs: seq<Option<seq<Entry>>>

    ghost function State(): Ram
      reads this, memoryMap, frames
    {
      Ram(startPage, memoryMap[..], freePages, frames[..], dirs)
    }

    // The bounds get_page and put_page rely on.
    ghost predicate Counting()
      reads this, memoryMap, frames
    {
      && startPage <= KERNEL_FRAMES <= memoryMap.Length == frames.Length
      && FreeExact(State())
      && forall f :: 0 <= f < KERNEL_FRAMES ==> memoryMap[f] >= 1
    }

    method GetPage() returns (g: nat)
      requires Counting() && FreeFrames(State()) >= 1
      modifies this`freePages, memoryMap
      ensures g == NextFree(old(State())) < memoryMap.Length
      ensures memoryMap[..] == old(memoryMap[..])[g := 1] && old(memoryMap[g]) == 0
      ensures freePages == old(freePages) - 1
      ensures Counting()
    {
      g := startPage;
      while g < memoryMap.Length && memoryMap[g] != 0
        invariant startPage <= g <= memoryMap.Length
        invariant forall f :: startPage <= f < g ==> memoryMap[f] != 0
      {
        g := g + 1;
      }
      if g == memoryMap.Length {
        NoZeros(memoryMap[..], memoryMap.Length);
        assert false;
      }
      FirstFreeUnique(memoryMap[..], startPage, g);
      ZerosSet(memoryMap[..], g, 1, memoryMap.Length);
      memoryMap[g] := 1;
      assert freePages > 0;
      freePages := freePages - 1;
    }

    method PutPage(f: nat)
      requires Counting() && KERNEL_FRAMES <= f < memoryMap.Length && memoryMap[f] >= 1
      modifies this`freePages, memoryMap
      ensures State() == PageTables.PutPage(old(State()), f)
      ensures Counting()
    {
      ghost var counts := memoryMap[..];
      ZerosSet(counts, f, counts[f] - 1, |counts|);
      memoryMap[f] := memoryMap[f] - 1;
      if memoryMap[f] == 0 {
        freePages := freePages + 1;
      }
      ZerosBound(memoryMap[..], memoryMap.Length);
      assert 0 < freePages < memoryMap.Length;
    }

    // copy_on_write; the entry at level 1 is the self map, always writable.
    method CopyOnWrite(p: nat, d: nat, t: nat, level: nat)
      requires Inv(State()) && PgAt(State(), p, d, t) && level <= 3
      requires level >= 2 ==> FreeFrames(State()) >= TableCost(State(), p, d)
      requires level == 3 ==> MayStore(State(), p, d, t) && FreeFrames(State()) >= StoreCost(State(), p, d, t)
      modifies this, memoryMap, frames
      ensures level <= 1 ==> State() == old(State())
      ensures level == 2 ==> State() == CowTable(old(State()), p, d)
      ensures level == 3 ==> State() == Cow(old(State()), p, d, t)
    {
      if level == 0 {
        return;
      }
      CopyOnWrite(p, d, t, level - 1);
      if level == 2 {
        CopyTable(p, d, t);
      } else if level == 3 {
        CowTableKeeps(old(State()), p, d, t);
        CopyPage(p, d, t);
      }
    }

    method CopyTable(p: nat, d: nat, ghost t: nat)
      requires Inv(State()) && PgAt(State(), p, d, t) && FreeFrames(State()) >= TableCost(State(), p, d)
      modifies this, memoryMap, frames
      ensures State() == CowTable(old(State()), p, d)
    {
      hide Exact, FreeExact, OneSlot, Exclusive;
      var e := dirs[p].value[d];
      CanCowTable(State(), p, d);
      CountingHolds();
      if e.write {
        return;
      }
      assert memoryMap[e.index] > 0;
      if memoryMap[e.index] == 1 {
        dirs := dirs[p := Some(dirs[p].value[d := e.(write := true)])];
      } else {
        var g := GetPage();
        frames[g] := frames[e.index];
        memoryMap[e.index] := memoryMap[e.index] - 1;
        dirs := dirs[p := Some(dirs[p].value[d := e.(write := true, index := g)])];
        assert memoryMap[g] > 0;
      }
    }

    method CopyPage(p: nat, d: nat, t: nat)
      requires Inv(State()) && PgAt(State(), p, d, t) && MayStore(State(), p, d, t) && Pde(State(), p, d).write
      requires FreeFrames(State()) >= PageCost(State(), p, d, t)
      modifies this, memoryMap, frames
      ensures State() == CowPage(old(State()), p, d, t)
    {
      hide Exact, FreeExact, OneSlot, Exclusive;
      var tab := dirs[p].value[d].index;
      var e := frames[tab].slots[t];
      CanCowPage(State(), p, d, t);
      CountingHolds();
      if e.write {
        return;
      }
      assert memoryMap[e.index] > 0;
      if memoryMap[e.index] == 1 {
        frames[tab] := Table(frames[tab].slots[t := e.(write := true)]);
      } else {
        var g := GetPage();
        frames[g] := frames[e.index];
        memoryMap[e.index] := memoryMap[e.index] - 1;
        frames[tab] := Table(frames[tab].slots[t := e.(write := true, index := g)]);
        assert memoryMap[g] > 0;
      }
    }

    // A user store: the processor refuses it unless both levels are writable,
    // the write fault unshares, and the store is tried again.
    method UserStore(p: nat, d: nat, t: nat, offset: nat, b: byte)
      requires Inv(State()) && PgAt(State(), p, d, t) && offset < PAGE_SIZE
      requires FreeFrames(State()) >= StoreCost(State(), p, d, t)
      requires MayStore(State(), p, d, t)
      modifies this, memoryMap, frames
      ensures State() == Store(old(State()), p, d, t, offset, b)
    {
      hide Exact, FreeExact, OneSlot, Exclusive, Cow;
      var pde := dirs[p].value[d];
      var pte := frames[pde.index].slots[t];
      ghost var ram := State();
      FaultedKeeps(ram, p, d, t);
      if !(pde.write && pte.write) {
        assert pte.present && !pte.shared && !pte.readonly;
        CopyOnWrite(p, d, t, 3);
        pde := dirs[p].value[d];
        pte := frames[pde.index].slots[t];
      }
      assert State() == Faulted(ram, p, d, t);
      frames[pte.index] := Data(frames[pte.index].bytes[offset := b]);
    }

    // copy_pde, called by p for its child c: count everything once more, write-protect it, copy the directory.
    method CopyPde(p: nat, c: nat)
      requires Inv(State()) && CanFork(State(), p, c)
      modifies this`dirs, memoryMap, frames
      ensures State() == Fork(old(State()), p, c)
    {
      ghost var ram := State();
      ghost var dir := dirs[p].value;
      assert ProtectedDir(dir, USER_LO) == dir;
      for d := USER_LO to USER_HI
        invariant dirs == ram.dirs[p := Some(ProtectedDir(dir, d))]
        invariant frames[..] == ProtectedFrames(ram.frames, dir, d)
        invariant forall f :: 0 <= f < memoryMap.Length ==>
          memoryMap[f] == ram.counts[f] + DirRefs(ram.frames, dir, d, f)
      {
        if dirs[p].value[d].present {
          assert TabAt(ram, p, d);
          CopyPdeSlot(p, d, ram);
        }
        assert ProtectedDir(dir, d)[d := dir[d]] == ProtectedDir(dir, d);
        assert ProtectedDir(dir, d + 1)
            == ProtectedDir(dir, d)[d := if dir[d].present then dir[d].(write := false) else dir[d]];
        ProtectedNext(ram.frames, dir, d);
      }
      assert ProtectedDir(dir, USER_HI) == ProtectDir(dir);
      dirs := dirs[c := dirs[p]];
      assert frames[..] == ProtectFrames(ram.frames, dir);
      assert memoryMap[..] == Fork(ram, p, c).counts;
    }

    // One present directory slot of copy_pde.
    method CopyPdeSlot(p: nat, d: nat, ghost ram: Ram)
      requires Inv(ram) && TabAt(ram, p, d) && p < |dirs| && |memoryMap[..]| == |ram.counts| &&
        frames.Length == |ram.frames|
      requires dirs == ram.dirs[p := Some(ProtectedDir(ram.dirs[p].value, d))]
      requires frames[..] == ProtectedFrames(ram.frames, ram.dirs[p].value, d)
      requires forall f :: 0 <= f < memoryMap.Length ==>
        memoryMap[f] == ram.counts[f] + DirRefs(ram.frames, ram.dirs[p].value, d, f)
      modifies this`dirs, memoryMap, frames
      ensures var dir := ram.dirs[p].value;
        dirs == ram.dirs[p := Some(ProtectedDir(dir, d)[d := dir[d].(write := false)])]
      ensures var tab := Pde(ram, p, d).index;
        frames[..]
        == ProtectedFrames(ram.frames, ram.dirs[p].value, d)[tab := Table(ProtectSlots(ram.frames[tab].slots))]
      ensures forall f :: 0 <= f < memoryMap.Length ==>
        memoryMap[f] == ram.counts[f] + DirRefs(ram.frames, ram.dirs[p].value, d + 1, f)
    {
      hide Exact, FreeExact, OneSlot, Exclusive;
      ghost var dir := ram.dirs[p].value;
      var dentry := dirs[p].value[d];
      assert dentry == dir[d];
      var tab := dentry.index;
      ghost var was := frames[..];
      TableUntouched(ram, p, d);
      assert was[tab] == ram.frames[tab];
      ghost var slots := ram.frames[tab].slots;

      assert memoryMap[tab] > 0 by { Reached(ram, p, d, tab); }
      dirs := dirs[p := Some(dirs[p].value[d := dentry.(write := false)])];
      memoryMap[tab] := memoryMap[tab] + 1;
      assert memoryMap[tab] < COUNT_LIMIT by { PartialCountSmall(ram, p, d, 0, tab); }

      assert ProtectedSlots(slots, 0) == slots;
      for t := 0 to SLOTS
        invariant dirs == ram.dirs[p := Some(ProtectedDir(dir, d)[d := dir[d].(write := false)])]
        invariant frames[..] == was[tab := Table(ProtectedSlots(slots, t))]
        invariant forall f :: 0 <= f < memoryMap.Length ==>
          memoryMap[f] == ram.counts[f] + DirRefs(ram.frames, dir, d, f) + One(dir[d], f) + TableRefs(slots, t, f)
      {
        var entry := frames[tab].slots[t];
        assert entry == slots[t];
        if entry.present {
          assert PgAt(ram, p, d, t);
          assert memoryMap[entry.index] > 0 by { PageReached(ram, p, d, t); }
          if !entry.shared {
            frames[tab] := Table(frames[tab].slots[t := entry.(write := false)]);
          }
          memoryMap[entry.index] := memoryMap[entry.index] + 1;
          assert memoryMap[entry.index] < COUNT_LIMIT by { PartialCountSmall(ram, p, d, t + 1, entry.index); }
        }
        assert ProtectedSlots(slots, t)[t := slots[t]] == ProtectedSlots(slots, t);
        assert ProtectedSlots(slots, t + 1) == ProtectedSlots(slots, t)[t := Protect(slots[t])];
      }
      assert ProtectedSlots(slots, SLOTS) == ProtectSlots(slots);
    }

    // free_pde: give back every page and every table of p.
    method FreePde(p: nat)
      requires Inv(State()) && p < |dirs| && dirs[p].Some?
      modifies this, memoryMap
      ensures State() == Exit(old(State()), p)
    {
      ghost var ram := State();
      FreeTables(p, ram);
      dirs := dirs[p := None];
      ExitIs(ram, p, memoryMap[..], freePages);
    }

    // The two loops.
    method FreeTables(p: nat, ghost ram: Ram)
      requires Inv(State()) && p < |dirs| && dirs[p].Some? && ram == State()
      modifies this`freePages, memoryMap
      ensures FreeExact(State())
      ensures forall f :: 0 <= f < memoryMap.Length ==>
        memoryMap[f] == ram.counts[f] - ProcRefs(ram.frames, ram.dirs[p], f)
    {
      hide Exact, OneSlot, Exclusive;
      ghost var dir := dirs[p].value;
      CountingHolds();
      for d := USER_LO to USER_HI
        invariant Counting()
        invariant forall f :: 0 <= f < memoryMap.Length ==>
          memoryMap[f] == ram.counts[f] - DirRefs(ram.frames, dir, d, f)
      {
        if dirs[p].value[d].present {
          FreePdeSlot(p, d, ram);
        }
      }
    }

    method FreePdeSlot(p: nat, d: nat, ghost ram: Ram)
      requires Inv(ram) && TabAt(ram, p, d) && dirs == ram.dirs && frames[..] == ram.frames
      requires Counting() && memoryMap.Length == |ram.counts|
      requires forall f :: 0 <= f < memoryMap.Length ==>
        memoryMap[f] == ram.counts[f] - DirRefs(ram.frames, ram.dirs[p].value, d, f)
      modifies this`freePages, memoryMap
      ensures Counting()
      ensures forall f :: 0 <= f < memoryMap.Length ==>
        memoryMap[f] == ram.counts[f] - DirRefs(ram.frames, ram.dirs[p].value, d + 1, f)
    {
      hide Exact, FreeExact, OneSlot, Exclusive;
      ghost var dir := ram.dirs[p].value;
      var tab := dirs[p].value[d].index;
      ghost var slots := ram.frames[tab].slots;
      for t := 0 to SLOTS
        invariant Counting()
        invariant forall f :: 0 <= f < memoryMap.Length ==>
          memoryMap[f] == ram.counts[f] - DirRefs(ram.frames, dir, d, f) - TableRefs(slots, t, f)
      {
        var entry := frames[tab].slots[t];
        if entry.present {
          assert PgAt(ram, p, d, t);
          PartialCountEnough(ram, p, d, t + 1, entry.index);
          assert memoryMap[entry.index] > 0;
          PutPage(entry.index);
        }
      }
      PartialCountEnough(ram, p, d, SLOTS, tab);
      PutPage(tab);
    }

    // link_page, for a slot that the page fault or sys_mmap found missing.
    method LinkPage(p: nat, d: nat, t: nat, raw: seq<byte>)
      requires Inv(State()) && CanLink(State(), p, d, t, raw)
      modifies this, memoryMap, frames
      ensures State() == Link(old(State()), p, d, t, raw)
    {
      hide Exact, FreeExact, OneSlot, Exclusive;
      ghost var ram := State();
      CountingHolds();
      LinkReady(ram, p, d, t, raw);
      if !dirs[p].value[d].present {
        var g := GetPage();
        frames[g] := Table(seq(SLOTS, i => Absent));
        dirs := dirs[p := Some(dirs[p].value[d := EntryInit(g)])];
      }
      ghost var m := State();
      assert m == LinkTable(ram, p, d, NextFree(ram));
      var tab := dirs[p].value[d].index;
      if frames[tab].slots[t].present {
        return;
      }
      CountingHolds();
      var g := GetPage();
      frames[g] := Data(raw);
      frames[tab] := Table(frames[tab].slots[t := EntryInit(g)]);
    }

    // A round of the loop of sys_mmap, for a private mapping.
    method MapPage(p: nat, d: nat, t: nat, raw: seq<byte>, write: bool)
      requires Inv(State()) && CanLink(State(), p, d, t, raw)
      modifies this, memoryMap, frames
      ensures PgAt(Link(old(State()), p, d, t, raw), p, d, t)
      ensures State() == Guard(Link(old(State()), p, d, t, raw), p, d, t, write)
    {
      hide Inv, Link, CanLink;
      LinkedPage(State(), p, d, t, raw);
      LinkPage(p, d, t, raw);
      var tab := dirs[p].value[d].index;
      var entry := frames[tab].slots[t].(write := false, readonly := true);
      if write {
        entry := entry.(readonly := false, write := true);
      }
      frames[tab] := Table(frames[tab].slots[t := entry]);
    }

    method UnlinkPage(p: nat, d: nat, t: nat)
      requires Inv(State()) && p < |dirs| && dirs[p].Some? && USER_LO <= d < USER_HI && t < SLOTS
      modifies this, memoryMap, frames
      ensures old(PgAt(State(), p, d, t)) ==>
        old(State().counts[Pte(State(), p, d, t).index] >= 1) && State() == Unlink(old(State()), p, d, t)
      ensures !old(PgAt(State(), p, d, t)) ==> State() == old(State())
    {
      if !dirs[p].value[d].present {
        return;
      }
      assert TabAt(State(), p, d);
      var tab := dirs[p].value[d].index;
      var entry := frames[tab].slots[t];
      if !entry.present {
        return;
      }
      assert PgAt(State(), p, d, t);
      PageReached(State(), p, d, t);
      CountingHolds();
      frames[tab] := Table(frames[tab].slots[t := entry.(present := false)]);
      PutPage(entry.index);
    }

    lemma CountingHolds()
      requires Inv(State())
      ensures Counting()
    {
      forall f | 0 <= f < KERNEL_FRAMES ensures memoryMap[f] >= 1 {
        assert State().counts[f] == Base(f) + Refs(State(), f);
      }
    }
  }

  // What free_pde's loops leave is the value step.
  lemma ExitIs(ram: Ram, p: nat, counts: seq<nat>, free: int)
    requires Inv(ram) && p < TASK_NR && |counts| == |ram.counts| && free == Zeros(counts, |counts|) + FREE_SLACK
    requires forall f :: 0 <= f < |counts| ==> counts[f] == ram.counts[f] - ProcRefs(ram.frames, ram.dirs[p], f)
    ensures ram.(counts := counts, free := free, dirs := ram.dirs[p := None]) == Exit(ram, p)
  {
    ExitExact(ram, p);
    hide WellFormed, Exact, OneSlot, Exclusive;
    assert counts == Exit(ram, p).counts;
  }

  lemma {:induction false} FirstFreeUnique(counts: seq<nat>, from: nat, g: nat)
    requires from <= g < |counts| && counts[g] == 0 && forall f :: from <= f < g ==> counts[f] != 0
    ensures FirstFree(counts, from) == g
  {
    assert FirstFree(counts, from) <= g;
  }

  lemma {:induction false} ZerosBound(counts: seq<nat>, n: nat)
    requires n <= |counts| && forall f :: 0 <= f < KERNEL_FRAMES && f < n ==> counts[f] >= 1
    ensures Zeros(counts, n) <= if n <= KERNEL_FRAMES then 0 else n - KERNEL_FRAMES
  {
    if n > 0 {
      ZerosBound(counts, n - 1);
    }
  }

  // ------------------------------------- copy_pde and free_pde, half way

  // The directory when slots below n have been protected.
  function ProtectedDir(dir: seq<Entry>, n: nat): (r: seq<Entry>)
    ensures |r| == |dir|
  {
    seq(|dir|, i requires 0 <= i < |dir| =>
      if USER_LO <= i < n && i < USER_HI && dir[i].present then dir[i].(write := false) else dir[i])
  }

  function ProtectedSlots(slots: seq<Entry>, n: nat): (r: seq<Entry>)
    ensures |r| == |slots|
  {
    seq(|slots|, i requires 0 <= i < |slots| => if i < n then Protect(slots[i]) else slots[i])
  }

  ghost predicate UsedBelow(dir: seq<Entry>, n: nat, f: nat) {
    exists d :: USER_LO <= d < n && d < USER_HI <= |dir| && dir[d].present && dir[d].index == f
  }

  ghost function ProtectedFrames(frames: seq<Frame>, dir: seq<Entry>, n: nat): (r: seq<Frame>)
    ensures |r| == |frames|
  {
    seq(|frames|, f requires 0 <= f < |frames| =>
      if frames[f].Table? && UsedBelow(dir, n, f) then Table(ProtectSlots(frames[f].slots)) else frames[f])
  }

  lemma ProtectedNext(frames: seq<Frame>, dir: seq<Entry>, d: nat)
    requires USER_LO <= d < USER_HI <= |dir|
    requires dir[d].present ==> dir[d].index < |frames| && frames[dir[d].index].Table?
    ensures ProtectedFrames(frames, dir, d + 1) ==
      if !dir[d].present then ProtectedFrames(frames, dir, d)
      else ProtectedFrames(frames, dir, d)[dir[d].index := Table(ProtectSlots(frames[dir[d].index].slots))]
  {
    forall f: nat | f < |frames|
      ensures UsedBelow(dir, d + 1, f) == (UsedBelow(dir, d, f) || (dir[d].present && dir[d].index == f))
    {
    }
  }

  lemma TableUntouched(ram: Ram, p: nat, d: nat)
    requires Inv(ram) && TabAt(ram, p, d)
    ensures !UsedBelow(ram.dirs[p].value, d, Pde(ram, p, d).index)
  {
    var dir := ram.dirs[p].value;
    forall e | USER_LO <= e < d && dir[e].present ensures dir[e].index != dir[d].index {
      assert TabAt(ram, p, e);
    }
  }

  lemma {:induction false} TableRefsGrow(slots: seq<Entry>, t: nat, n: nat, f: nat)
    requires t <= n <= |slots|
    ensures TableRefs(slots, t, f) <= TableRefs(slots, n, f)
  {
    if t < n {
      TableRefsGrow(slots, t, n - 1, f);
    }
  }

  lemma {:induction false} DirRefsGrow(frames: seq<Frame>, dir: seq<Entry>, d: nat, n: nat, f: nat)
    requires d <= n <= |dir|
    ensures DirRefs(frames, dir, d, f) <= DirRefs(frames, dir, n, f)
  {
    if d < n {
      DirRefsGrow(frames, dir, d, n - 1, f);
    }
  }

  lemma PartialRefs(ram: Ram, p: nat, d: nat, t: nat, f: nat)
    requires WellFormed(ram) && TabAt(ram, p, d) && t <= SLOTS
    ensures DirRefs(ram.frames, ram.dirs[p].value, d, f) + One(Pde(ram, p, d), f)
          + TableRefs(Slots(ram.frames, Pde(ram, p, d).index), t, f)
         <= ProcRefs(ram.frames, ram.dirs[p], f)
  {
    TableRefsGrow(Slots(ram.frames, Pde(ram, p, d).index), t, SLOTS, f);
    DirRefsGrow(ram.frames, ram.dirs[p].value, d + 1, USER_HI, f);
  }

  lemma PartialCountSmall(ram: Ram, p: nat, d: nat, t: nat, f: nat)
    requires Inv(ram) && TabAt(ram, p, d) && t <= SLOTS && f < |ram.counts|
    ensures ram.counts[f] + DirRefs(ram.frames, ram.dirs[p].value, d, f) + One(Pde(ram, p, d), f)
          + TableRefs(Slots(ram.frames, Pde(ram, p, d).index), t, f) < COUNT_LIMIT
  {
    PartialRefs(ram, p, d, t, f);
    ProcRefsAtMostOne(ram, p, f);
    CountsStaySmall(ram, f);
  }

  lemma PartialCountEnough(ram: Ram, p: nat, d: nat, t: nat, f: nat)
    requires Inv(ram) && TabAt(ram, p, d) && t <= SLOTS && f < |ram.counts|
    ensures ram.counts[f] >= Base(f) + DirRefs(ram.frames, ram.dirs[p].value, d, f) + One(Pde(ram, p, d), f)
          + TableRefs(Slots(ram.frames, Pde(ram, p, d).index), t, f)
  {
    PartialRefs(ram, p, d, t, f);
    AllRefsAtLeast(ram.frames, ram.dirs, p, p, |ram.dirs|, f);
    assert ram.counts[f] == Base(f) + Refs(ram, f);
  }
}
