// fork, exit, link_page and unlink_page: what each keeps, and what it does to what the
// processes read.
module AddressSpaces {
  import opened PageTables
  import opened ReferenceCounts
  import opened CopyOnWrite
  import opened Wrappers

  // ------------------------------------------------------------------ fork

  lemma ProtectKeepsOne(frames: seq<Frame>, dir: seq<Entry>, e: Entry, w: bool, f: nat)
    ensures SlotRefs(ProtectFrames(frames, dir), e.(write := w), f) == SlotRefs(frames, e, f)
  {
    var a := Slots(ProtectFrames(frames, dir), e.index);
    var b := Slots(frames, e.index);
    assert |a| == |b|;
    TableRefsSame(a, b, |a|, f);
  }

  lemma ProcRefsProtect(frames: seq<Frame>, dir: seq<Entry>, a: seq<Entry>, f: nat)
    requires |a| >= USER_HI
    ensures ProcRefs(ProtectFrames(frames, dir), Some(a), f) == ProcRefs(frames, Some(a), f)
    ensures ProcRefs(ProtectFrames(frames, dir), Some(ProtectDir(a)), f) == ProcRefs(frames, Some(a), f)
  {
    var gr := ProtectFrames(frames, dir);
    forall d | USER_LO <= d < USER_HI
      ensures SlotRefs(gr, a[d], f) == SlotRefs(frames, a[d], f)
      ensures SlotRefs(gr, ProtectDir(a)[d], f) == SlotRefs(frames, a[d], f)
    {
      ProtectKeepsOne(frames, dir, a[d], a[d].write, f);
      ProtectKeepsOne(frames, dir, a[d], false, f);
      assert a[d].(write := a[d].write) == a[d];
    }
    DirRefsSame(gr, frames, a, a, USER_HI, f);
    DirRefsSame(gr, frames, ProtectDir(a), a, USER_HI, f);
  }

  predicate CanFork(ram: Ram, p: nat, c: nat) {
    p < |ram.dirs| && c < |ram.dirs| && ram.dirs[p].Some? && ram.dirs[c].None?
  }

  lemma ForkExact(ram: Ram, p: nat, c: nat)
    requires Inv(ram) && CanFork(ram, p, c)
    ensures Exact(Fork(ram, p, c))
  {
    var s := Fork(ram, p, c);
    var dir := ram.dirs[p].value;
    forall f | 0 <= f < |s.counts| ensures s.counts[f] == Base(f) + Refs(s, f) {
      forall q | 0 <= q < |ram.dirs|
        ensures ProcRefs(s.frames, ram.dirs[q], f) == ProcRefs(ram.frames, ram.dirs[q], f)
      {
        if ram.dirs[q].Some? {
          ProcRefsProtect(ram.frames, dir, ram.dirs[q].value, f);
        }
      }
      ProcRefsProtect(ram.frames, dir, dir, f);
      AllRefsSame(s.frames, ram.frames, ram.dirs, |ram.dirs|, f);
      var o := Some(ProtectDir(dir));
      AllRefsSet(s.frames, ram.dirs, p, o, |ram.dirs|, f);
      AllRefsSet(s.frames, ram.dirs[p := o], c, o, |ram.dirs|, f);
      assert ram.counts[f] == Base(f) + Refs(ram, f);
    }
  }

  lemma {:induction false} ForkFree(ram: Ram, p: nat, c: nat, n: nat)
    requires Inv(ram) && CanFork(ram, p, c) && n <= |ram.counts|
    ensures Zeros(Fork(ram, p, c).counts, n) == Zeros(ram.counts, n)
  {
    if n > 0 {
      ForkFree(ram, p, c, n - 1);
      AllRefsAtLeast(ram.frames, ram.dirs, p, p, |ram.dirs|, n - 1);
      assert ram.counts[n - 1] == Base(n - 1) + Refs(ram, n - 1);
    }
  }

  // Whose memory process q sees after the fork of c from p.
  function Origin(p: nat, c: nat, q: nat): nat {
    if q == c then p else q
  }

  lemma ForkTabs(ram: Ram, p: nat, c: nat)
    requires Inv(ram) && CanFork(ram, p, c)
    ensures var s := Fork(ram, p, c);
      && (forall q, d :: TabAt(s, q, d) <==> TabAt(ram, Origin(p, c, q), d))
      && (forall q, d :: TabAt(s, q, d) && TabAt(ram, Origin(p, c, q), d) ==>
            Pde(s, q, d).index == Pde(ram, Origin(p, c, q), d).index
            && (Pde(s, q, d).write ==> q != p && q != c && Pde(ram, q, d).write))
  {}

  lemma ForkPages(ram: Ram, p: nat, c: nat)
    requires Inv(ram) && CanFork(ram, p, c)
    ensures var s := Fork(ram, p, c);
      && (forall q, d, t :: PgAt(s, q, d, t) <==> PgAt(ram, Origin(p, c, q), d, t))
      && (forall q, d, t :: PgAt(s, q, d, t) && PgAt(ram, Origin(p, c, q), d, t) ==>
            Pte(s, q, d, t).(write := false) == Pte(ram, Origin(p, c, q), d, t).(write := false)
            && (Pte(s, q, d, t).write ==> q != p && q != c && PgAt(ram, q, d, t) && Pte(ram, q, d, t).write))
  {
    var s := Fork(ram, p, c);
    var dir := ram.dirs[p].value;
    ForkTabs(ram, p, c);
    forall q: nat, d: nat, t: nat
      ensures PgAt(s, q, d, t) <==> PgAt(ram, Origin(p, c, q), d, t)
      ensures PgAt(s, q, d, t) && PgAt(ram, Origin(p, c, q), d, t) ==>
            Pte(s, q, d, t).(write := false) == Pte(ram, Origin(p, c, q), d, t).(write := false)
            && (Pte(s, q, d, t).write ==> q != p && q != c && PgAt(ram, q, d, t) && Pte(ram, q, d, t).write)
    {
      var o := Origin(p, c, q);
      if TabAt(ram, o, d) {
        var k := Pde(ram, o, d).index;
        assert Pde(s, q, d).index == k;
        assert |Slots(s.frames, k)| == |Slots(ram.frames, k)|;
        if t < |Slots(ram.frames, k)| && Slots(ram.frames, k)[t].present {
          assert PgAt(ram, o, d, t);
          if o == p {
            assert UsesTable(dir, k) by { assert dir[d].present && dir[d].index == k; }
          }
        }
      }
    }
  }

  lemma ForkShape(ram: Ram, p: nat, c: nat)
    requires Inv(ram) && CanFork(ram, p, c)
    ensures WellFormed(Fork(ram, p, c)) && OneSlot(Fork(ram, p, c))
  {
    var s := Fork(ram, p, c);
    ForkTabs(ram, p, c);
    ForkPages(ram, p, c);
    assert WellFormed(s) by {
      forall q, d, t | PgAt(s, q, d, t)
        ensures KERNEL_FRAMES <= Pte(s, q, d, t).index < |s.frames|
          && s.frames[Pte(s, q, d, t).index].Data?
          && |s.frames[Pte(s, q, d, t).index].bytes| == PAGE_SIZE
          && !Pte(s, q, d, t).shared
      {
        assert PgAt(ram, Origin(p, c, q), d, t);
      }
    }
    forall q, d, t, q', d', t' | PgAt(s, q, d, t) && PgAt(s, q', d', t') &&
      Pte(s, q, d, t).index == Pte(s, q', d', t').index
      ensures d == d' && t == t'
    {
      assert PgAt(ram, Origin(p, c, q), d, t) && PgAt(ram, Origin(p, c, q'), d', t');
    }
    forall q, d, q', d' | TabAt(s, q, d) && TabAt(s, q', d') && Pde(s, q, d).index == Pde(s, q', d').index
      ensures d == d'
    {
      assert TabAt(ram, Origin(p, c, q), d) && TabAt(ram, Origin(p, c, q'), d');
    }
  }

  // A frame with count 1 that another process reaches is not one of p's.
  lemma NotShared(ram: Ram, p: nat, q: nat, d: nat, f: nat)
    requires WellFormed(ram) && Exact(ram) && TabAt(ram, q, d) && p < TASK_NR && p != q
    requires f == Pde(ram, q, d).index || exists t :: PgAt(ram, q, d, t) && Pte(ram, q, d, t).index == f
    requires f < |ram.counts| && ram.counts[f] == 1
    ensures ProcRefs(ram.frames, ram.dirs[p], f) == 0
  {
    if f != Pde(ram, q, d).index {
      var t :| PgAt(ram, q, d, t) && Pte(ram, q, d, t).index == f;
      SlotRefsOfPage(ram, q, d, t);
    }
    ProcRefsAtLeast(ram, q, d, f);
    AllRefsAtLeast(ram.frames, ram.dirs, p, q, |ram.dirs|, f);
  }

  lemma ForkExclusive(ram: Ram, p: nat, c: nat)
    requires Inv(ram) && CanFork(ram, p, c) && WellFormed(Fork(ram, p, c))
    ensures Exclusive(Fork(ram, p, c))
  {
    var s := Fork(ram, p, c);
    ForkTabs(ram, p, c);
    ForkPages(ram, p, c);
    forall q, d | TabAt(s, q, d) && Pde(s, q, d).write ensures s.counts[Pde(s, q, d).index] == 1 {
      assert TabAt(ram, q, d);
      NotShared(ram, p, q, d, Pde(ram, q, d).index);
    }
    forall q, d, t | PgAt(s, q, d, t) && Pte(s, q, d, t).write
      ensures s.counts[Pde(s, q, d).index] == 1 && s.counts[Pte(s, q, d, t).index] == 1
    {
      assert PgAt(ram, q, d, t) && TabAt(ram, q, d);
      NotShared(ram, p, q, d, Pde(ram, q, d).index);
      NotShared(ram, p, q, d, Pte(ram, q, d, t).index);
    }
  }

  // The child sees what its parent sees, and nobody's view changes.
  lemma ForkKeeps(ram: Ram, p: nat, c: nat)
    requires Inv(ram) && CanFork(ram, p, c)
    ensures Inv(Fork(ram, p, c))
    ensures SameView(ram, p, Fork(ram, p, c), c)
    ensures forall q :: q != c ==> SameView(ram, q, Fork(ram, p, c), q)
  {
    var s := Fork(ram, p, c);
    ForkExact(ram, p, c);
    ForkFree(ram, p, c, |ram.counts|);
    ForkShape(ram, p, c);
    ForkExclusive(ram, p, c);
    ForkPages(ram, p, c);
    forall q, d, t | PgAt(s, q, d, t) ensures PageOf(s, q, d, t) == PageOf(ram, Origin(p, c, q), d, t) {
      assert PgAt(ram, Origin(p, c, q), d, t);
    }
  }

  // ------------------------------------------------------------------ exit

  lemma ExitExact(ram: Ram, p: nat)
    requires Inv(ram) && p < TASK_NR
    ensures Exact(Exit(ram, p)) && FreeExact(Exit(ram, p))
    ensures forall f :: 0 <= f < |ram.counts| ==> ram.counts[f] >= ProcRefs(ram.frames, ram.dirs[p], f)
  {
    var s := Exit(ram, p);
    forall f | 0 <= f < |s.counts|
      ensures s.counts[f] == Base(f) + Refs(s, f) && ram.counts[f] >= ProcRefs(ram.frames, ram.dirs[p], f)
    {
      AllRefsAtLeast(ram.frames, ram.dirs, p, p, |ram.dirs|, f);
      AllRefsSet(ram.frames, ram.dirs, p, None, |ram.dirs|, f);
      assert ram.counts[f] == Base(f) + Refs(ram, f);
    }
  }

  lemma ExitLookups(ram: Ram, p: nat)
    requires Inv(ram) && p < TASK_NR
    ensures var s := Exit(ram, p);
      && (forall q, d :: TabAt(s, q, d) <==> q != p && TabAt(ram, q, d))
      && (forall q, d :: TabAt(s, q, d) && TabAt(ram, q, d) ==> Pde(s, q, d) == Pde(ram, q, d))
      && (forall q, d, t :: PgAt(s, q, d, t) <==> q != p && PgAt(ram, q, d, t))
      && (forall q, d, t :: PgAt(s, q, d, t) && PgAt(ram, q, d, t) ==> Pte(s, q, d, t) == Pte(ram, q, d, t))
  {}

  lemma ExitExclusive(ram: Ram, p: nat)
    requires Inv(ram) && p < TASK_NR && WellFormed(Exit(ram, p))
    ensures Exclusive(Exit(ram, p))
  {
    var s := Exit(ram, p);
    ExitLookups(ram, p);
    forall q, d | TabAt(s, q, d) && Pde(s, q, d).write ensures s.counts[Pde(s, q, d).index] == 1 {
      assert TabAt(ram, q, d);
      NotShared(ram, p, q, d, Pde(ram, q, d).index);
    }
    forall q, d, t | PgAt(s, q, d, t) && Pte(s, q, d, t).write
      ensures s.counts[Pde(s, q, d).index] == 1 && s.counts[Pte(s, q, d, t).index] == 1
    {
      assert PgAt(ram, q, d, t) && TabAt(ram, q, d);
      NotShared(ram, p, q, d, Pde(ram, q, d).index);
      NotShared(ram, p, q, d, Pte(ram, q, d, t).index);
    }
  }

  lemma ExitKeeps(ram: Ram, p: nat)
    requires Inv(ram) && p < TASK_NR
    ensures Inv(Exit(ram, p))
    ensures forall q :: q != p ==> SameView(ram, q, Exit(ram, p), q)
    ensures forall d, t :: !PgAt(Exit(ram, p), p, d, t)
  {
    var s := Exit(ram, p);
    ExitExact(ram, p);
    ExitLookups(ram, p);
    assert WellFormed(s);
    ExitExclusive(ram, p);
    forall q, d, t, q', d', t' | PgAt(s, q, d, t) && PgAt(s, q', d', t') &&
      Pte(s, q, d, t).index == Pte(s, q', d', t').index
      ensures d == d' && t == t'
    {
      assert PgAt(ram, q, d, t) && PgAt(ram, q', d', t');
    }
    forall q, d, t | PgAt(s, q, d, t) ensures PageOf(s, q, d, t) == PageOf(ram, q, d, t) {}
  }

  // ------------------------------------------------- link_page, unlink_page

  lemma {:induction false} AbsentRefs(slots: seq<Entry>, n: nat, f: nat)
    requires n <= |slots| && forall i :: 0 <= i < n ==> !slots[i].present
    ensures TableRefs(slots, n, f) == 0
  {
    if n > 0 {
      AbsentRefs(slots, n - 1, f);
    }
  }

  predicate CanLinkTable(ram: Ram, p: nat, d: nat, g: nat) {
    p < |ram.dirs| && ram.dirs[p].Some? && USER_LO <= d < USER_HI <= |ram.dirs[p].value| &&
    |ram.counts| == |ram.frames| && (!ram.dirs[p].value[d].present ==> g < |ram.counts| && ram.counts[g] == 0)
  }

  lemma LinkTableExact(ram: Ram, p: nat, d: nat, g: nat)
    requires Inv(ram) && CanLinkTable(ram, p, d, g)
    ensures Exact(LinkTable(ram, p, d, g)) && FreeExact(LinkTable(ram, p, d, g))
    ensures FreeFrames(LinkTable(ram, p, d, g)) == FreeFrames(ram) - if TabAt(ram, p, d) then 0 else 1
  {
    var s := LinkTable(ram, p, d, g);
    if !ram.dirs[p].value[d].present {
      FreeFrameUnseen(ram, g);
      var cleared := Table(seq(SLOTS, i => Absent));
      var frames := ram.frames[g := cleared];
      var dir := ram.dirs[p].value;
      forall f | 0 <= f < |s.counts| ensures s.counts[f] == Base(f) + Refs(s, f) {
        RefsUnseenFrame(ram, g, cleared, f);
        DirRefsSet(frames, dir, d, EntryInit(g), USER_HI, f);
        AllRefsSet(frames, ram.dirs, p, Some(dir[d := EntryInit(g)]), |ram.dirs|, f);
        AbsentRefs(Slots(frames, g), SLOTS, f);
        assert ram.counts[f] == Base(f) + Refs(ram, f);
      }
      ZerosSet(ram.counts, g, 1, |ram.counts|);
    }
  }

  lemma LinkTableLookups(ram: Ram, p: nat, d: nat, g: nat)
    requires Inv(ram) && CanLinkTable(ram, p, d, g) && !ram.dirs[p].value[d].present
    ensures var s := LinkTable(ram, p, d, g);
      && (forall q, e :: TabAt(s, q, e) <==> TabAt(ram, q, e) || (q == p && e == d))
      && (forall q, e :: TabAt(s, q, e) && TabAt(ram, q, e) ==> Pde(s, q, e) == Pde(ram, q, e))
      && TabAt(s, p, d) && Pde(s, p, d) == EntryInit(g)
      && (forall q, e, u :: PgAt(s, q, e, u) <==> PgAt(ram, q, e, u))
      && (forall q, e, u :: PgAt(s, q, e, u) && PgAt(ram, q, e, u) ==> Pte(s, q, e, u) == Pte(ram, q, e, u))
  {
    var s := LinkTable(ram, p, d, g);
    FreeFrameUnseen(ram, g);
    forall q: nat, e: nat ensures TabAt(s, q, e) <==> TabAt(ram, q, e) || (q == p && e == d) {}
    forall q: nat, e: nat, u: nat
      ensures PgAt(s, q, e, u) <==> PgAt(ram, q, e, u)
      ensures PgAt(s, q, e, u) ==> Pte(s, q, e, u) == Pte(ram, q, e, u)
    {
      if TabAt(ram, q, e) {
        assert Slots(s.frames, Pde(s, q, e).index) == Slots(ram.frames, Pde(ram, q, e).index);
      }
    }
  }

  lemma LinkTableShape(ram: Ram, p: nat, d: nat, g: nat)
    requires Inv(ram) && CanLinkTable(ram, p, d, g) && !ram.dirs[p].value[d].present
    ensures WellFormed(LinkTable(ram, p, d, g)) && OneSlot(LinkTable(ram, p, d, g))
  {
    var s := LinkTable(ram, p, d, g);
    FreeFrameUnseen(ram, g);
    LinkTableLookups(ram, p, d, g);
    assert WellFormed(s);
    forall q, e, u, q', e', u' | PgAt(s, q, e, u) && PgAt(s, q', e', u') &&
      Pte(s, q, e, u).index == Pte(s, q', e', u').index
      ensures e == e' && u == u'
    {
      assert PgAt(ram, q, e, u) && PgAt(ram, q', e', u');
    }
  }

  lemma LinkTableKeeps(ram: Ram, p: nat, d: nat, g: nat)
    requires Inv(ram) && CanLinkTable(ram, p, d, g)
    ensures var s := LinkTable(ram, p, d, g); Inv(s) && SameViews(ram, s) && TabAt(s, p, d)
    ensures var s := LinkTable(ram, p, d, g);
      s.counts[Pde(s, p, d).index] == if TabAt(ram, p, d) then ram.counts[Pde(ram, p, d).index] else 1
  {
    var s := LinkTable(ram, p, d, g);
    LinkTableExact(ram, p, d, g);
    if !ram.dirs[p].value[d].present {
      FreeFrameUnseen(ram, g);
      LinkTableShape(ram, p, d, g);
      LinkTableLookups(ram, p, d, g);
    }
  }

  // The frames link_page takes: one for a missing table and one for a missing page.
  function LinkCost(ram: Ram, p: nat, d: nat, t: nat): nat {
    (if TabAt(ram, p, d) then 0 else 1) + if PgAt(ram, p, d, t) then 0 else 1
  }

  predicate CanLinkSlot(ram: Ram, p: nat, d: nat, t: nat, g: nat, raw: seq<byte>) {
    TabAt(ram, p, d) && t < SLOTS && !PgAt(ram, p, d, t) && |raw| == PAGE_SIZE &&
    Pde(ram, p, d).index < |ram.counts| && ram.counts[Pde(ram, p, d).index] >= 1 &&
    g < |ram.counts| && ram.counts[g] == 0
  }

  lemma LinkRefs(ram: Ram, p: nat, d: nat, t: nat, g: nat, raw: seq<byte>, f: nat)
    requires Inv(ram) && CanLinkSlot(ram, p, d, t, g, raw)
    ensures Refs(LinkSlot(ram, p, d, t, g, raw), f)
         == Refs(ram, f) + if f == g then ram.counts[Pde(ram, p, d).index] else 0
  {
    var m := Take(ram, g, Data(raw));
    var tab := Pde(ram, p, d).index;
    FreeFrameUnseen(ram, g);
    RefsUnseenFrame(ram, g, Data(raw), f);
    TableCountIsTabs(ram, p, d);
    AllRefsPte(m.frames, tab, t, EntryInit(g), ram.dirs, |ram.dirs|, f);
  }

  // What link_page asks for: frames enough for what is missing.
  predicate CanLink(ram: Ram, p: nat, d: nat, t: nat, raw: seq<byte>) {
    p < |ram.dirs| && ram.dirs[p].Some? && USER_LO <= d < USER_HI <= |ram.dirs[p].value| && t < SLOTS &&
    |raw| == PAGE_SIZE && FreeFrames(ram) >= LinkCost(ram, p, d, t)
  }

  // get_page finds the frame for the table, if that is missing, and then the one for the page.
  lemma LinkReady(ram: Ram, p: nat, d: nat, t: nat, raw: seq<byte>)
    requires Inv(ram) && CanLink(ram, p, d, t, raw)
    ensures CanLinkTable(ram, p, d, NextFree(ram))
    ensures var m := LinkTable(ram, p, d, NextFree(ram));
      && Inv(m) && SameViews(ram, m) && TabAt(m, p, d) && m.counts[Pde(m, p, d).index] >= 1
      && (TabAt(ram, p, d) ==> m == ram) && (!TabAt(ram, p, d) ==> m.counts[Pde(m, p, d).index] == 1)
      && (!PgAt(m, p, d, t) ==> FreeFrames(m) >= 1 && CanLinkSlot(m, p, d, t, NextFree(m), raw))
  {
    hide Exact, FreeExact, OneSlot, Exclusive;
    if !TabAt(ram, p, d) {
      NextFreeFound(ram);
    }
    LinkTableKeeps(ram, p, d, NextFree(ram));
    LinkTableExact(ram, p, d, NextFree(ram));
    var m := LinkTable(ram, p, d, NextFree(ram));
    assert SameView(ram, p, m, p);
    if !PgAt(m, p, d, t) {
      NextFreeFound(m);
    }
    Reached(m, p, d, Pde(m, p, d).index);
  }

  // link_page: the table is taken if it is missing, then the page if that is missing.
  ghost function Link(ram: Ram, p: nat, d: nat, t: nat, raw: seq<byte>): Ram
    requires Inv(ram) && CanLink(ram, p, d, t, raw)
  {
    LinkReady(ram, p, d, t, raw);
    var m := LinkTable(ram, p, d, NextFree(ram));
    LinkSlot(m, p, d, t, NextFree(m), raw)
  }

  // link_page edits the covering table in place: the counts stay exact just
  // when no other directory reaches that table.
  lemma LinkExactIff(ram: Ram, p: nat, d: nat, t: nat, g: nat, raw: seq<byte>)
    requires Inv(ram) && CanLinkSlot(ram, p, d, t, g, raw)
    ensures Exact(LinkSlot(ram, p, d, t, g, raw)) <==> ram.counts[Pde(ram, p, d).index] == 1
  {
    var s := LinkSlot(ram, p, d, t, g, raw);
    FreeFrameUnseen(ram, g);
    LinkRefs(ram, p, d, t, g, raw, g);
    if ram.counts[Pde(ram, p, d).index] == 1 {
      forall f | 0 <= f < |s.counts| ensures s.counts[f] == Base(f) + Refs(s, f) {
        LinkRefs(ram, p, d, t, g, raw, f);
      }
    } else {
      assert s.counts[g] != Base(g) + Refs(s, g);
    }
  }

  // Process p in s sees what it saw in ram, and raw at (d, t), where it may store.
  ghost predicate GrownView(ram: Ram, s: Ram, p: nat, d: nat, t: nat, raw: seq<byte>) {
    && (forall e, u :: PgAt(s, p, e, u) <==> PgAt(ram, p, e, u) || (e == d && u == t))
    && (forall e, u :: PgAt(ram, p, e, u) && PgAt(s, p, e, u) ==>
          PageOf(s, p, e, u) == PageOf(ram, p, e, u) && MayStore(s, p, e, u) == MayStore(ram, p, e, u))
    && !PgAt(ram, p, d, t) && PgAt(s, p, d, t) && PageOf(s, p, d, t) == raw && MayStore(s, p, d, t)
  }

  lemma LinkLookups(ram: Ram, p: nat, d: nat, t: nat, g: nat, raw: seq<byte>)
    requires Inv(ram) && CanLinkSlot(ram, p, d, t, g, raw) && ram.counts[Pde(ram, p, d).index] == 1
    ensures var s := LinkSlot(ram, p, d, t, g, raw);
      && (forall q, e :: TabAt(s, q, e) <==> TabAt(ram, q, e))
      && (forall q, e :: TabAt(s, q, e) && TabAt(ram, q, e) ==> Pde(s, q, e) == Pde(ram, q, e))
      && (forall q, e, u :: PgAt(s, q, e, u) <==> PgAt(ram, q, e, u) || (q == p && e == d && u == t))
      && (forall q, e, u :: PgAt(s, q, e, u) && PgAt(ram, q, e, u) ==> Pte(s, q, e, u) == Pte(ram, q, e, u))
      && PgAt(s, p, d, t) && Pte(s, p, d, t) == EntryInit(g)
  {
    var s := LinkSlot(ram, p, d, t, g, raw);
    var tab := Pde(ram, p, d).index;
    FreeFrameUnseen(ram, g);
    forall q, e ensures TabAt(s, q, e) <==> TabAt(ram, q, e) {}
    forall q: nat, e: nat, u: nat
      ensures PgAt(s, q, e, u) <==> PgAt(ram, q, e, u) || (q == p && e == d && u == t)
      ensures PgAt(s, q, e, u) && PgAt(ram, q, e, u) ==> Pte(s, q, e, u) == Pte(ram, q, e, u)
    {
      if TabAt(ram, q, e) && Pde(ram, q, e).index == tab {
        TableAlone(ram, p, q, d);
      }
    }
  }

  lemma LinkShape(ram: Ram, p: nat, d: nat, t: nat, g: nat, raw: seq<byte>)
    requires Inv(ram) && CanLinkSlot(ram, p, d, t, g, raw) && ram.counts[Pde(ram, p, d).index] == 1
    ensures var s := LinkSlot(ram, p, d, t, g, raw); WellFormed(s) && OneSlot(s) && Exclusive(s)
  {
    var s := LinkSlot(ram, p, d, t, g, raw);
    FreeFrameUnseen(ram, g);
    LinkLookups(ram, p, d, t, g, raw);
    assert WellFormed(s);
    assert Exclusive(s) by {
      forall q, e, u | PgAt(s, q, e, u) && Pte(s, q, e, u).write
        ensures s.counts[Pde(s, q, e).index] == 1 && s.counts[Pte(s, q, e, u).index] == 1
      {
        assert TabAt(ram, q, e);
        if q != p || e != d || u != t {
          assert PgAt(ram, q, e, u);
        }
      }
    }
    forall q, e, u, q', e', u' | PgAt(s, q, e, u) && PgAt(s, q', e', u') &&
      Pte(s, q, e, u).index == Pte(s, q', e', u').index
      ensures e == e' && u == u'
    {
      assert PgAt(ram, q, e, u) || (q == p && e == d && u == t);
      assert PgAt(ram, q', e', u') || (q' == p && e' == d && u' == t);
    }
  }

  lemma LinkKeeps(ram: Ram, p: nat, d: nat, t: nat, g: nat, raw: seq<byte>)
    requires Inv(ram) && CanLinkSlot(ram, p, d, t, g, raw) && ram.counts[Pde(ram, p, d).index] == 1
    ensures var s := LinkSlot(ram, p, d, t, g, raw);
      Inv(s) && GrownView(ram, s, p, d, t, raw) && forall q :: q != p ==> SameView(ram, q, s, q)
  {
    var s := LinkSlot(ram, p, d, t, g, raw);
    LinkExactIff(ram, p, d, t, g, raw);
    LinkShape(ram, p, d, t, g, raw);
    LinkLookups(ram, p, d, t, g, raw);
    FreeFrameUnseen(ram, g);
    ZerosSet(ram.counts, g, 1, |ram.counts|);
    forall q, e, u | PgAt(s, q, e, u) && PgAt(ram, q, e, u) ensures PageOf(s, q, e, u) == PageOf(ram, q, e, u) {
      assert Pte(ram, q, e, u).index != g;
    }
  }

  // Every process whose directory names the table sees the entry changed, and nothing else does.
  lemma GuardLookups(ram: Ram, p: nat, d: nat, t: nat, write: bool)
    requires WellFormed(ram) && PgAt(ram, p, d, t)
    ensures var s := Guard(ram, p, d, t, write);
      && (forall q, e :: TabAt(s, q, e) <==> TabAt(ram, q, e))
      && (forall q, e :: TabAt(s, q, e) && TabAt(ram, q, e) ==> Pde(s, q, e) == Pde(ram, q, e))
      && (forall q, e, u :: PgAt(s, q, e, u) <==> PgAt(ram, q, e, u))
      && (forall q, e, u :: PgAt(s, q, e, u) && PgAt(ram, q, e, u) ==>
            Pte(s, q, e, u) == if Pde(ram, q, e).index == Pde(ram, p, d).index && u == t
                               then Pte(ram, p, d, t).(write := write, readonly := !write) else Pte(ram, q, e, u))
  {
    var s := Guard(ram, p, d, t, write);
    forall q, e ensures TabAt(s, q, e) <==> TabAt(ram, q, e) {}
  }

  // Whether the page may be written changes no count and no place.
  lemma GuardShape(ram: Ram, p: nat, d: nat, t: nat, write: bool)
    requires Inv(ram) && PgAt(ram, p, d, t)
    ensures var s := Guard(ram, p, d, t, write);
      WellFormed(s) && Exact(s) && FreeExact(s) && OneSlot(s)
  {
    var s := Guard(ram, p, d, t, write);
    GuardExact(ram, p, d, t, write);
    hide Refs, Exact, FreeExact, Exclusive, Guard;
    GuardLookups(ram, p, d, t, write);
    GuardFrames(ram, p, d, t, write);
    assert WellFormed(s);
    forall q, e, u, q', e', u' | PgAt(s, q, e, u) && PgAt(s, q', e', u') &&
      Pte(s, q, e, u).index == Pte(s, q', e', u').index
      ensures e == e' && u == u'
    {
      assert PgAt(ram, q, e, u) && PgAt(ram, q', e', u');
    }
  }

  lemma GuardExact(ram: Ram, p: nat, d: nat, t: nat, write: bool)
    requires Inv(ram) && PgAt(ram, p, d, t)
    ensures Exact(Guard(ram, p, d, t, write)) && FreeExact(Guard(ram, p, d, t, write))
  {
    var s := Guard(ram, p, d, t, write);
    forall f | 0 <= f < |s.counts| ensures s.counts[f] == Base(f) + Refs(s, f) {
      RefsSetPte(ram, p, d, t, Pte(ram, p, d, t).(write := write, readonly := !write), f);
    }
  }

  lemma GuardFrames(ram: Ram, p: nat, d: nat, t: nat, write: bool)
    requires WellFormed(ram) && PgAt(ram, p, d, t)
    ensures var s := Guard(ram, p, d, t, write);
      && s.start == ram.start && s.counts == ram.counts && s.dirs == ram.dirs && |s.frames| == |ram.frames|
      && forall f :: 0 <= f < |s.frames| ==>
           if ram.frames[f].Table? then s.frames[f].Table? && |s.frames[f].slots| == |ram.frames[f].slots|
           else s.frames[f] == ram.frames[f]
  {}

  // Nobody's bytes change; whether stores are let through does, for every process with that table.
  lemma GuardShows(ram: Ram, p: nat, d: nat, t: nat, write: bool, q: nat, e: nat, u: nat)
    requires WellFormed(ram) && PgAt(ram, p, d, t)
    ensures var s := Guard(ram, p, d, t, write);
      && (PgAt(s, q, e, u) <==> PgAt(ram, q, e, u))
      && (PgAt(s, q, e, u) && PgAt(ram, q, e, u) ==>
            PageOf(s, q, e, u) == PageOf(ram, q, e, u)
            && MayStore(s, q, e, u) == if Pde(ram, q, e).index == Pde(ram, p, d).index && u == t then write
                                       else MayStore(ram, q, e, u))
  {
    GuardLookups(ram, p, d, t, write);
    GuardFrames(ram, p, d, t, write);
    hide Guard;
  }

  // The others stay as they were just when the table is not shared, or nothing changes.
  lemma GuardApartIff(ram: Ram, p: nat, d: nat, t: nat, write: bool)
    requires Inv(ram) && PgAt(ram, p, d, t)
    ensures var s := Guard(ram, p, d, t, write);
      (forall q :: q != p ==> SameView(ram, q, s, q))
      <==> ram.counts[Pde(ram, p, d).index] == 1 || write == MayStore(ram, p, d, t)
  {
    var s := Guard(ram, p, d, t, write);
    hide Refs, Exact, FreeExact, OneSlot, Exclusive, Guard;
    PageReached(ram, p, d, t);
    Reached(ram, p, d, Pde(ram, p, d).index);
    if ram.counts[Pde(ram, p, d).index] == 1 || write == MayStore(ram, p, d, t) {
      forall q | q != p ensures SameView(ram, q, s, q) {
        forall e, u
          ensures PgAt(s, q, e, u) <==> PgAt(ram, q, e, u)
          ensures PgAt(s, q, e, u) && PgAt(ram, q, e, u) ==>
            PageOf(s, q, e, u) == PageOf(ram, q, e, u) && MayStore(s, q, e, u) == MayStore(ram, q, e, u)
        {
          GuardShows(ram, p, d, t, write, q, e, u);
          if PgAt(ram, q, e, u) && Pde(ram, q, e).index == Pde(ram, p, d).index && u == t {
            GuardOthers(ram, p, d, t, q, e, u);
          }
        }
      }
    } else {
      var q := TableShared(ram, p, d);
      assert PgAt(ram, q, d, t);
      GuardShows(ram, p, d, t, write, q, d, t);
      assert MayStore(s, q, d, t) != MayStore(ram, q, d, t);
      assert !SameView(ram, q, s, q);
    }
  }

  // Another process that has the table has it at the same place, and the same entry.
  lemma GuardOthers(ram: Ram, p: nat, d: nat, t: nat, q: nat, e: nat, u: nat)
    requires Inv(ram) && PgAt(ram, p, d, t) && PgAt(ram, q, e, u) && q != p
    requires Pde(ram, q, e).index == Pde(ram, p, d).index && u == t
    ensures ram.counts[Pde(ram, p, d).index] != 1 && MayStore(ram, q, e, u) == MayStore(ram, p, d, t)
  {
    hide Refs, FreeExact, Exclusive;
    assert TabAt(ram, p, d) && TabAt(ram, q, e);
    if ram.counts[Pde(ram, p, d).index] == 1 {
      TableAlone(ram, p, q, d);
    }
  }

  // link_page returns early when the page is there, and then sys_mmap sets the entry's write bit
  // in place: a page stays private just when it is not to be written, or neither the table nor
  // the page is shared.
  lemma GuardKeepsIff(ram: Ram, p: nat, d: nat, t: nat, write: bool)
    requires Inv(ram) && PgAt(ram, p, d, t)
    ensures Inv(Guard(ram, p, d, t, write))
      <==> !write || (ram.counts[Pde(ram, p, d).index] == 1 && ram.counts[Pte(ram, p, d, t).index] == 1)
  {
    var s := Guard(ram, p, d, t, write);
    GuardShape(ram, p, d, t, write);
    GuardFrames(ram, p, d, t, write);
    hide Refs, Exact, FreeExact, OneSlot, Guard;
    GuardLookups(ram, p, d, t, write);
    assert PgAt(s, p, d, t);
    if !write || (ram.counts[Pde(ram, p, d).index] == 1 && ram.counts[Pte(ram, p, d, t).index] == 1) {
      forall q, e, u | PgAt(s, q, e, u) && Pte(s, q, e, u).write
        ensures s.counts[Pde(s, q, e).index] == 1 && s.counts[Pte(s, q, e, u).index] == 1
      {
        assert PgAt(ram, q, e, u);
      }
    }
  }

  // What link_page leaves: the page that was there, or a new one that may be written.
  lemma LinkedPage(ram: Ram, p: nat, d: nat, t: nat, raw: seq<byte>)
    requires Inv(ram) && CanLink(ram, p, d, t, raw)
    ensures var s := Link(ram, p, d, t, raw);
      && PgAt(s, p, d, t) && if PgAt(ram, p, d, t) then s == ram else Pte(s, p, d, t).write
  {
    hide Exact, FreeExact, OneSlot, Exclusive;
    LinkReady(ram, p, d, t, raw);
    assert SameView(ram, p, LinkTable(ram, p, d, NextFree(ram)), p);
  }

  lemma UnlinkRefs(ram: Ram, p: nat, d: nat, t: nat, f: nat)
    requires Inv(ram) && PgAt(ram, p, d, t) && ram.counts[Pte(ram, p, d, t).index] >= 1
    ensures Refs(Unlink(ram, p, d, t), f)
         == Refs(ram, f) - if f == Pte(ram, p, d, t).index then ram.counts[Pde(ram, p, d).index] else 0
  {
    RefsSetPte(ram, p, d, t, Pte(ram, p, d, t).(present := false), f);
  }

  // The same condition, and no other, for unlink_page.
  lemma UnlinkExactIff(ram: Ram, p: nat, d: nat, t: nat)
    requires Inv(ram) && PgAt(ram, p, d, t) && ram.counts[Pte(ram, p, d, t).index] >= 1
    ensures Exact(Unlink(ram, p, d, t)) <==> ram.counts[Pde(ram, p, d).index] == 1
  {
    var s := Unlink(ram, p, d, t);
    var g := Pte(ram, p, d, t).index;
    UnlinkRefs(ram, p, d, t, g);
    assert ram.counts[g] == Base(g) + Refs(ram, g);
    if ram.counts[Pde(ram, p, d).index] == 1 {
      forall f | 0 <= f < |s.counts| ensures s.counts[f] == Base(f) + Refs(s, f) {
        UnlinkRefs(ram, p, d, t, f);
      }
    } else {
      assert s.counts[g] != Base(g) + Refs(s, g);
    }
  }

  // Process p in s sees what it saw in ram, without (d, t).
  ghost predicate ShrunkView(ram: Ram, s: Ram, p: nat, d: nat, t: nat) {
    && (forall e, u :: PgAt(s, p, e, u) <==> PgAt(ram, p, e, u) && (e != d || u != t))
    && (forall e, u :: PgAt(ram, p, e, u) && PgAt(s, p, e, u) ==>
          PageOf(s, p, e, u) == PageOf(ram, p, e, u) && MayStore(s, p, e, u) == MayStore(ram, p, e, u))
  }

  lemma UnlinkLookups(ram: Ram, p: nat, d: nat, t: nat)
    requires Inv(ram) && PgAt(ram, p, d, t) && ram.counts[Pte(ram, p, d, t).index] >= 1
    requires ram.counts[Pde(ram, p, d).index] == 1
    ensures var s := Unlink(ram, p, d, t);
      && (forall q, e :: TabAt(s, q, e) <==> TabAt(ram, q, e))
      && (forall q, e :: TabAt(s, q, e) && TabAt(ram, q, e) ==> Pde(s, q, e) == Pde(ram, q, e))
      && (forall q, e, u :: PgAt(s, q, e, u) <==> PgAt(ram, q, e, u) && (q != p || e != d || u != t))
      && (forall q, e, u :: PgAt(s, q, e, u) && PgAt(ram, q, e, u) ==> Pte(s, q, e, u) == Pte(ram, q, e, u))
  {
    var s := Unlink(ram, p, d, t);
    var tab := Pde(ram, p, d).index;
    forall q, e ensures TabAt(s, q, e) <==> TabAt(ram, q, e) {}
    forall q: nat, e: nat, u: nat
      ensures PgAt(s, q, e, u) <==> PgAt(ram, q, e, u) && (q != p || e != d || u != t)
      ensures PgAt(s, q, e, u) && PgAt(ram, q, e, u) ==> Pte(s, q, e, u) == Pte(ram, q, e, u)
    {
      if TabAt(ram, q, e) && Pde(ram, q, e).index == tab {
        TableAlone(ram, p, q, d);
      }
    }
  }

  lemma UnlinkShape(ram: Ram, p: nat, d: nat, t: nat)
    requires Inv(ram) && PgAt(ram, p, d, t) && ram.counts[Pte(ram, p, d, t).index] >= 1
    requires ram.counts[Pde(ram, p, d).index] == 1
    ensures WellFormed(Unlink(ram, p, d, t)) && OneSlot(Unlink(ram, p, d, t))
  {
    hide Refs, Exact, FreeExact, Exclusive;
    var s := Unlink(ram, p, d, t);
    UnlinkLookups(ram, p, d, t);
    assert WellFormed(s);
    forall q, e, u, q', e', u' | PgAt(s, q, e, u) && PgAt(s, q', e', u') &&
      Pte(s, q, e, u).index == Pte(s, q', e', u').index
      ensures e == e' && u == u'
    {
      assert PgAt(ram, q, e, u) && PgAt(ram, q', e', u');
    }
  }

  lemma UnlinkExclusive(ram: Ram, p: nat, d: nat, t: nat)
    requires Inv(ram) && PgAt(ram, p, d, t) && ram.counts[Pte(ram, p, d, t).index] >= 1
    requires ram.counts[Pde(ram, p, d).index] == 1 && WellFormed(Unlink(ram, p, d, t))
    ensures Exclusive(Unlink(ram, p, d, t))
  {
    hide Refs, FreeExact;
    var s := Unlink(ram, p, d, t);
    UnlinkLookups(ram, p, d, t);
    forall q, e, u | PgAt(s, q, e, u) && Pte(s, q, e, u).write
      ensures s.counts[Pde(s, q, e).index] == 1 && s.counts[Pte(s, q, e, u).index] == 1
    {
      assert PgAt(ram, q, e, u);
      if Pte(ram, q, e, u).index == Pte(ram, p, d, t).index {
        PageAlone(ram, q, p, e, u);
      }
    }
  }

  lemma UnlinkKeeps(ram: Ram, p: nat, d: nat, t: nat)
    requires Inv(ram) && PgAt(ram, p, d, t) && ram.counts[Pte(ram, p, d, t).index] >= 1
    requires ram.counts[Pde(ram, p, d).index] == 1
    ensures var s := Unlink(ram, p, d, t);
      Inv(s) && ShrunkView(ram, s, p, d, t) && forall q :: q != p ==> SameView(ram, q, s, q)
  {
    hide Refs, Exact, OneSlot, Exclusive;
    UnlinkExactIff(ram, p, d, t);
    UnlinkShape(ram, p, d, t);
    UnlinkExclusive(ram, p, d, t);
    UnlinkLookups(ram, p, d, t);
    ZerosSet(ram.counts, Pte(ram, p, d, t).index, ram.counts[Pte(ram, p, d, t).index] - 1, |ram.counts|);
  }

  // Right after a fork parent and child share every table ...
  lemma ForkShares(ram: Ram, p: nat, c: nat, d: nat)
    requires Inv(ram) && CanFork(ram, p, c) && TabAt(ram, p, d)
    ensures var s := Fork(ram, p, c);
      TabAt(s, p, d) && Pde(s, p, d).index < |s.counts| && s.counts[Pde(s, p, d).index] >= 2
  {
    ForkTabs(ram, p, c);
    var f := Pde(ram, p, d).index;
    Reached(ram, p, d, f);
    ProcRefsAtLeast(ram, p, d, f);
    assert TabAt(Fork(ram, p, c), p, d);
  }

  // ... so that linking or unlinking a page in one of them leaves counts that are not exact.
  lemma LinkAfterFork(ram: Ram, p: nat, c: nat, d: nat, t: nat, g: nat, raw: seq<byte>)
    requires Inv(ram) && CanFork(ram, p, c) && TabAt(ram, p, d) && CanLinkSlot(Fork(ram, p, c), p, d, t, g, raw)
    ensures !Exact(LinkSlot(Fork(ram, p, c), p, d, t, g, raw))
  {
    hide Exact, Fork;
    ForkKeeps(ram, p, c);
    ForkShares(ram, p, c, d);
    LinkExactIff(Fork(ram, p, c), p, d, t, g, raw);
  }

  lemma UnlinkAfterFork(ram: Ram, p: nat, c: nat, d: nat, t: nat)
    requires Inv(ram) && CanFork(ram, p, c) && PgAt(ram, p, d, t)
    ensures var s := Fork(ram, p, c); Inv(s) && PgAt(s, p, d, t) && s.counts[Pte(s, p, d, t).index] >= 1
    ensures !Exact(Unlink(Fork(ram, p, c), p, d, t))
  {
    hide Fork;
    var s := Fork(ram, p, c);
    ForkKeeps(ram, p, c);
    ForkPages(ram, p, c);
    assert PgAt(s, p, d, t);
    PageReached(s, p, d, t);
    ForkShares(ram, p, c, d);
    UnlinkExactIff(s, p, d, t);
  }

  lemma GuardAfterFork(ram: Ram, p: nat, c: nat, d: nat, t: nat)
    requires Inv(ram) && CanFork(ram, p, c) && PgAt(ram, p, d, t)
    ensures PgAt(Fork(ram, p, c), p, d, t) && !Inv(Guard(Fork(ram, p, c), p, d, t, true))
  {
    hide Fork;
    var s := Fork(ram, p, c);
    ForkKeeps(ram, p, c);
    ForkPages(ram, p, c);
    assert PgAt(s, p, d, t);
    ForkShares(ram, p, c, d);
    GuardKeepsIff(s, p, d, t, true);
  }

  // A table that p and c share has an entry that is writable: the page fault copies the table
  // for p and not the page, and what p stores is in c's page.
  lemma SharedLeak(ram: Ram, p: nat, c: nat, d: nat, t: nat, g: nat, offset: nat, b: byte)
    requires WellFormed(ram) && Exact(ram) && p != c && PgAt(ram, p, d, t) && PgAt(ram, c, d, t) && offset < PAGE_SIZE
    requires Pde(ram, p, d).index == Pde(ram, c, d).index && Pte(ram, p, d, t).write
    requires CanUnshareTable(ram, p, d, g) && CopiesTable(ram, p, d)
    ensures var s := UnshareTable(ram, p, d, g);
      && PgAt(s, p, d, t) && Pde(s, p, d).write && Pte(s, p, d, t).write && PgAt(s, c, d, t)
      && |PageOf(s, p, d, t)| == PAGE_SIZE && s.frames[Pte(s, p, d, t).index].Data?
    ensures var r := Poke(UnshareTable(ram, p, d, g), p, d, t, offset, b);
      PgAt(r, c, d, t) && |PageOf(r, c, d, t)| == PAGE_SIZE && PageOf(r, c, d, t)[offset] == b
  {
    hide Refs, Exact;
    FreeFrameUnseen(ram, g);
  }

  // So after a fork a page mapped again for writing is no longer the process's own.
  lemma GuardLeaks(ram: Ram, p: nat, c: nat, d: nat, t: nat, g: nat, offset: nat, b: byte)
    requires Inv(ram) && CanFork(ram, p, c) && PgAt(ram, p, d, t) && offset < PAGE_SIZE
    requires g < |ram.counts| && ram.counts[g] == 0
    ensures PgAt(Fork(ram, p, c), p, d, t)
    ensures var s := Guard(Fork(ram, p, c), p, d, t, true);
      CanUnshareTable(s, p, d, g) && var u := UnshareTable(s, p, d, g);
      && PgAt(u, p, d, t) && Pde(u, p, d).write && Pte(u, p, d, t).write
      && Pte(u, p, d, t).index < |u.frames| && u.frames[Pte(u, p, d, t).index].Data?
      && offset < |u.frames[Pte(u, p, d, t).index].bytes|
      && var r := Poke(u, p, d, t, offset, b);
         PgAt(r, c, d, t) && offset < |PageOf(r, c, d, t)| && PageOf(r, c, d, t)[offset] == b
  {
    var f := Fork(ram, p, c);
    assert f.counts[g] == 0 by {
      AllRefsAtLeast(ram.frames, ram.dirs, p, p, |ram.dirs|, g);
      assert ram.counts[g] == Base(g) + Refs(ram, g);
    }
    ForkTabs(ram, p, c);
    ForkPages(ram, p, c);
    ForkShares(ram, p, c, d);
    ForkKeeps(ram, p, c);
    assert PgAt(f, p, d, t) && PgAt(f, c, d, t) && Pde(f, p, d).index == Pde(f, c, d).index && !Pde(f, p, d).write;
    hide *;
    GuardShared(f, p, c, d, t, g);
    SharedLeak(Guard(f, p, d, t, true), p, c, d, t, g, offset, b);
  }

  lemma GuardShared(ram: Ram, p: nat, c: nat, d: nat, t: nat, g: nat)
    requires Inv(ram) && PgAt(ram, p, d, t) && PgAt(ram, c, d, t) && Pde(ram, p, d).index == Pde(ram, c, d).index
    requires !Pde(ram, p, d).write && Pde(ram, p, d).index < |ram.counts| && ram.counts[Pde(ram, p, d).index] >= 2
    requires g < |ram.counts| && ram.counts[g] == 0
    ensures var s := Guard(ram, p, d, t, true);
      && WellFormed(s) && Exact(s) && PgAt(s, p, d, t) && PgAt(s, c, d, t) && Pte(s, p, d, t).write
      && Pde(s, p, d).index == Pde(s, c, d).index && CanUnshareTable(s, p, d, g) && CopiesTable(s, p, d)
  {
    GuardShape(ram, p, d, t, true);
    GuardLookups(ram, p, d, t, true);
    GuardFrames(ram, p, d, t, true);
    hide Refs, Exact, FreeExact, OneSlot, Exclusive, Guard;
  }
}
