// How the recount of references moves when one entry, one frame or one
// directory changes.
module ReferenceCounts {
  import opened PageTables
  import opened Wrappers

  // ------------------------------------------------------------ one change

  lemma {:induction false} TableRefsSet(slots: seq<Entry>, t: nat, e: Entry, n: nat, f: nat)
    requires t < |slots| && n <= |slots|
    ensures TableRefs(slots[t := e], n, f) ==
            TableRefs(slots, n, f) + if t < n then One(e, f) - One(slots[t], f) else 0
  {
    if n > 0 {
      TableRefsSet(slots, t, e, n - 1, f);
    }
  }

  lemma {:induction false} TableRefsSame(a: seq<Entry>, b: seq<Entry>, n: nat, f: nat)
    requires n <= |a| && n <= |b|
    requires forall i :: 0 <= i < n ==> One(a[i], f) == One(b[i], f)
    ensures TableRefs(a, n, f) == TableRefs(b, n, f)
  {
    if n > 0 {
      TableRefsSame(a, b, n - 1, f);
    }
  }

  lemma {:induction false} DirRefsSet(frames: seq<Frame>, dir: seq<Entry>, d: nat, e: Entry, n: nat, f: nat)
    requires USER_LO <= d < |dir| && n <= |dir|
    ensures DirRefs(frames, dir[d := e], n, f) ==
            DirRefs(frames, dir, n, f) + if d < n then SlotRefs(frames, e, f) - SlotRefs(frames, dir[d], f) else 0
  {
    if n > USER_LO {
      DirRefsSet(frames, dir, d, e, n - 1, f);
    }
  }

  // Directories and frames that agree slot by slot count alike.
  lemma {:induction false} DirRefsSame(fr: seq<Frame>, gr: seq<Frame>, a: seq<Entry>, b: seq<Entry>, n: nat, f: nat)
    requires n <= |a| && n <= |b|
    requires forall d :: USER_LO <= d < n ==> SlotRefs(fr, a[d], f) == SlotRefs(gr, b[d], f)
    ensures DirRefs(fr, a, n, f) == DirRefs(gr, b, n, f)
  {
    if n > USER_LO {
      DirRefsSame(fr, gr, a, b, n - 1, f);
    }
  }

  lemma {:induction false} AllRefsSet(frames: seq<Frame>, dirs: seq<Option<seq<Entry>>>, p: nat,
                                      dir: Option<seq<Entry>>, n: nat, f: nat)
    requires p < |dirs| && n <= |dirs|
    ensures AllRefs(frames, dirs[p := dir], n, f) ==
            AllRefs(frames, dirs, n, f) + if p < n then ProcRefs(frames, dir, f) - ProcRefs(frames, dirs[p], f) else 0
  {
    if n > 0 {
      AllRefsSet(frames, dirs, p, dir, n - 1, f);
    }
  }

  lemma {:induction false} AllRefsSame(fr: seq<Frame>, gr: seq<Frame>, dirs: seq<Option<seq<Entry>>>, n: nat, f: nat)
    requires n <= |dirs|
    requires forall p :: 0 <= p < n ==> ProcRefs(fr, dirs[p], f) == ProcRefs(gr, dirs[p], f)
    ensures AllRefs(fr, dirs, n, f) == AllRefs(gr, dirs, n, f)
  {
    if n > 0 {
      AllRefsSame(fr, gr, dirs, n - 1, f);
    }
  }

  lemma {:induction false} ZerosSet(counts: seq<nat>, i: nat, v: nat, n: nat)
    requires i < |counts| && n <= |counts|
    ensures Zeros(counts[i := v], n) ==
            Zeros(counts, n) + if i < n then (if v == 0 then 1 else 0) - (if counts[i] == 0 then 1 else 0) else 0
  {
    if n > 0 {
      ZerosSet(counts, i, v, n - 1);
    }
  }

  // --------------------------------------------- one table entry, everywhere

  // How many directory slots reach table tab.
  function DirTabs(dir: seq<Entry>, n: nat, tab: nat): nat
    requires n <= |dir|
  {
    if n <= USER_LO then 0 else DirTabs(dir, n - 1, tab) + One(dir[n - 1], tab)
  }

  function ProcTabs(dir: Option<seq<Entry>>, tab: nat): nat {
    if dir.None? || |dir.value| < USER_HI then 0 else DirTabs(dir.value, USER_HI, tab)
  }

  function AllTabs(dirs: seq<Option<seq<Entry>>>, n: nat, tab: nat): nat
    requires n <= |dirs|
  {
    if n == 0 then 0 else AllTabs(dirs, n - 1, tab) + ProcTabs(dirs[n - 1], tab)
  }

  function Delta(frames: seq<Frame>, tab: nat, t: nat, e: Entry, f: nat): int
    requires t < |Slots(frames, tab)|
  {
    One(e, f) - One(Slots(frames, tab)[t], f)
  }

  function WithPte(frames: seq<Frame>, tab: nat, t: nat, e: Entry): seq<Frame>
    requires t < |Slots(frames, tab)|
  {
    frames[tab := Table(frames[tab].slots[t := e])]
  }

  lemma SlotRefsPte(frames: seq<Frame>, tab: nat, t: nat, e: Entry, pde: Entry, f: nat)
    requires t < |Slots(frames, tab)|
    ensures SlotRefs(WithPte(frames, tab, t, e), pde, f) ==
            SlotRefs(frames, pde, f) + if One(pde, tab) == 1 then Delta(frames, tab, t, e, f) else 0
  {
    if One(pde, tab) == 1 {
      TableRefsSet(frames[tab].slots, t, e, |frames[tab].slots|, f);
    }
  }

  lemma {:induction false} DirRefsPte(frames: seq<Frame>, tab: nat, t: nat, e: Entry, dir: seq<Entry>, n: nat, f: nat)
    requires t < |Slots(frames, tab)| && n <= |dir|
    ensures DirRefs(WithPte(frames, tab, t, e), dir, n, f) ==
            DirRefs(frames, dir, n, f) + DirTabs(dir, n, tab) * Delta(frames, tab, t, e, f)
  {
    if n > USER_LO {
      DirRefsPte(frames, tab, t, e, dir, n - 1, f);
      SlotRefsPte(frames, tab, t, e, dir[n - 1], f);
      var k := Delta(frames, tab, t, e, f);
      assert (DirTabs(dir, n - 1, tab) + 1) * k == DirTabs(dir, n - 1, tab) * k + k;
    }
  }

  // A table entry counts once for every directory slot through which it is seen.
  lemma {:induction false} AllRefsPte(frames: seq<Frame>, tab: nat, t: nat, e: Entry,
                                      dirs: seq<Option<seq<Entry>>>, n: nat, f: nat)
    requires t < |Slots(frames, tab)| && n <= |dirs|
    ensures AllRefs(WithPte(frames, tab, t, e), dirs, n, f) ==
            AllRefs(frames, dirs, n, f) + AllTabs(dirs, n, tab) * Delta(frames, tab, t, e, f)
  {
    if n > 0 {
      AllRefsPte(frames, tab, t, e, dirs, n - 1, f);
      var dir := dirs[n - 1];
      if dir.Some? && |dir.value| >= USER_HI {
        DirRefsPte(frames, tab, t, e, dir.value, USER_HI, f);
      }
      var k := Delta(frames, tab, t, e, f);
      assert (AllTabs(dirs, n - 1, tab) + ProcTabs(dir, tab)) * k
          == AllTabs(dirs, n - 1, tab) * k + ProcTabs(dir, tab) * k;
    }
  }

  // ------------------------------------------------------- bounds and zeros

  lemma {:induction false} TableRefsAtLeast(slots: seq<Entry>, t: nat, n: nat, f: nat)
    requires t < n <= |slots|
    ensures TableRefs(slots, n, f) >= One(slots[t], f)
  {
    if t < n - 1 {
      TableRefsAtLeast(slots, t, n - 1, f);
    }
  }

  lemma {:induction false} DirRefsAtLeast(frames: seq<Frame>, dir: seq<Entry>, d: nat, n: nat, f: nat)
    requires USER_LO <= d < n <= |dir|
    ensures DirRefs(frames, dir, n, f) >= SlotRefs(frames, dir[d], f)
  {
    if d < n - 1 {
      DirRefsAtLeast(frames, dir, d, n - 1, f);
    }
  }

  lemma {:induction false} AllRefsAtLeast(frames: seq<Frame>, dirs: seq<Option<seq<Entry>>>, p: nat, q: nat, n: nat,
      f: nat)
    requires p < n <= |dirs| && q < n
    ensures AllRefs(frames, dirs, n, f) >=
            ProcRefs(frames, dirs[p], f) + if p == q then 0 else ProcRefs(frames, dirs[q], f)
  {
    if p < n - 1 && q < n - 1 {
      AllRefsAtLeast(frames, dirs, p, q, n - 1, f);
    } else if p == n - 1 && q < n - 1 {
      AllRefsAtLeast(frames, dirs, q, q, n - 1, f);
    } else if q == n - 1 && p < n - 1 {
      AllRefsAtLeast(frames, dirs, p, p, n - 1, f);
    }
  }

  lemma {:induction false} TableRefsAtMostOne(slots: seq<Entry>, n: nat, f: nat)
    requires n <= |slots|
    requires forall i, j :: 0 <= i < j < n ==> One(slots[i], f) == 0 || One(slots[j], f) == 0
    ensures TableRefs(slots, n, f) <= 1
    ensures (forall i :: 0 <= i < n ==> One(slots[i], f) == 0) ==> TableRefs(slots, n, f) == 0
  {
    if n > 0 {
      TableRefsAtMostOne(slots, n - 1, f);
    }
  }

  lemma {:induction false} DirRefsAtMostOne(frames: seq<Frame>, dir: seq<Entry>, n: nat, f: nat)
    requires n <= |dir|
    requires forall d :: USER_LO <= d < n ==> SlotRefs(frames, dir[d], f) <= 1
    requires forall d, e :: USER_LO <= d < e < n ==>
      SlotRefs(frames, dir[d], f) == 0 || SlotRefs(frames, dir[e], f) == 0
    ensures DirRefs(frames, dir, n, f) <= 1
    ensures (forall d :: USER_LO <= d < n ==> SlotRefs(frames, dir[d], f) == 0) ==> DirRefs(frames, dir, n, f) == 0
  {
    if n > USER_LO {
      DirRefsAtMostOne(frames, dir, n - 1, f);
    }
  }

  lemma {:induction false} AllRefsAtMost(frames: seq<Frame>, dirs: seq<Option<seq<Entry>>>, n: nat, f: nat)
    requires n <= |dirs|
    requires forall p :: 0 <= p < n ==> ProcRefs(frames, dirs[p], f) <= 1
    ensures AllRefs(frames, dirs, n, f) <= n
  {
    if n > 0 {
      AllRefsAtMost(frames, dirs, n - 1, f);
    }
  }

  // A frame seen only as a table is counted by directory slots alone.
  lemma {:induction false} DirTabsAreRefs(frames: seq<Frame>, dir: seq<Entry>, n: nat, f: nat)
    requires n <= |dir|
    requires forall d :: USER_LO <= d < n ==> SlotRefs(frames, dir[d], f) == One(dir[d], f)
    ensures DirTabs(dir, n, f) == DirRefs(frames, dir, n, f)
  {
    if n > USER_LO {
      DirTabsAreRefs(frames, dir, n - 1, f);
    }
  }

  lemma {:induction false} AllTabsAreRefs(frames: seq<Frame>, dirs: seq<Option<seq<Entry>>>, n: nat, f: nat)
    requires n <= |dirs|
    requires forall p :: 0 <= p < n ==> ProcTabs(dirs[p], f) == ProcRefs(frames, dirs[p], f)
    ensures AllTabs(dirs, n, f) == AllRefs(frames, dirs, n, f)
  {
    if n > 0 {
      AllTabsAreRefs(frames, dirs, n - 1, f);
    }
  }

  // ------------------------------------------- what the invariant gives

  lemma SlotRefsOfTab(ram: Ram, p: nat, d: nat, f: nat)
    requires WellFormed(ram) && TabAt(ram, p, d)
    requires forall t :: PgAt(ram, p, d, t) ==> Pte(ram, p, d, t).index != f
    ensures SlotRefs(ram.frames, Pde(ram, p, d), f) == One(Pde(ram, p, d), f)
  {
    var s := Slots(ram.frames, Pde(ram, p, d).index);
    forall i | 0 <= i < |s| ensures One(s[i], f) == 0 {
      if s[i].present {
        assert PgAt(ram, p, d, i);
      }
    }
    TableRefsAtMostOne(s, |s|, f);
  }

  lemma SlotRefsOfPage(ram: Ram, p: nat, d: nat, t: nat)
    requires PgAt(ram, p, d, t)
    ensures SlotRefs(ram.frames, Pde(ram, p, d), Pte(ram, p, d, t).index) >= 1
  {
    var s := Slots(ram.frames, Pde(ram, p, d).index);
    TableRefsAtLeast(s, t, |s|, Pte(ram, p, d, t).index);
  }

  lemma ProcRefsAtLeast(ram: Ram, p: nat, d: nat, f: nat)
    requires WellFormed(ram) && TabAt(ram, p, d)
    ensures ProcRefs(ram.frames, ram.dirs[p], f) >= SlotRefs(ram.frames, Pde(ram, p, d), f)
  {
    DirRefsAtLeast(ram.frames, ram.dirs[p].value, d, USER_HI, f);
  }

  // Whatever is reached is counted, so no reachable frame is free.
  lemma Reached(ram: Ram, p: nat, d: nat, f: nat)
    requires WellFormed(ram) && Exact(ram) && TabAt(ram, p, d)
    requires f == Pde(ram, p, d).index || exists t :: PgAt(ram, p, d, t) && Pte(ram, p, d, t).index == f
    ensures f < |ram.counts| && ram.counts[f] >= 1 && Refs(ram, f) >= 1
  {
    if f != Pde(ram, p, d).index {
      var t :| PgAt(ram, p, d, t) && Pte(ram, p, d, t).index == f;
      SlotRefsOfPage(ram, p, d, t);
    }
    ProcRefsAtLeast(ram, p, d, f);
    AllRefsAtLeast(ram.frames, ram.dirs, p, p, |ram.dirs|, f);
  }

  lemma PageReached(ram: Ram, p: nat, d: nat, t: nat)
    requires WellFormed(ram) && Exact(ram) && PgAt(ram, p, d, t)
    ensures Pte(ram, p, d, t).index < |ram.counts| && ram.counts[Pte(ram, p, d, t).index] >= 1
  {
    Reached(ram, p, d, Pte(ram, p, d, t).index);
  }

  // Count 1 means one process only.
  lemma TableAlone(ram: Ram, p: nat, q: nat, d: nat)
    requires WellFormed(ram) && Exact(ram) && TabAt(ram, p, d) && TabAt(ram, q, d)
    requires Pde(ram, q, d).index == Pde(ram, p, d).index && ram.counts[Pde(ram, p, d).index] == 1
    ensures p == q
  {
    var f := Pde(ram, p, d).index;
    ProcRefsAtLeast(ram, p, d, f);
    ProcRefsAtLeast(ram, q, d, f);
    AllRefsAtLeast(ram.frames, ram.dirs, p, q, |ram.dirs|, f);
  }

  lemma PageAlone(ram: Ram, p: nat, q: nat, d: nat, t: nat)
    requires WellFormed(ram) && Exact(ram) && PgAt(ram, p, d, t) && PgAt(ram, q, d, t)
    requires Pte(ram, q, d, t).index == Pte(ram, p, d, t).index && ram.counts[Pte(ram, p, d, t).index] == 1
    ensures p == q
  {
    var f := Pte(ram, p, d, t).index;
    SlotRefsOfPage(ram, p, d, t);
    SlotRefsOfPage(ram, q, d, t);
    ProcRefsAtLeast(ram, p, d, f);
    ProcRefsAtLeast(ram, q, d, f);
    AllRefsAtLeast(ram.frames, ram.dirs, p, q, |ram.dirs|, f);
  }

  lemma SlotRefsAtMostOne(ram: Ram, p: nat, d: nat, f: nat)
    requires WellFormed(ram) && OneSlot(ram) && TabAt(ram, p, d)
    ensures SlotRefs(ram.frames, Pde(ram, p, d), f) <= 1
    ensures SlotRefs(ram.frames, Pde(ram, p, d), f) == 1 && f != Pde(ram, p, d).index ==>
              exists t :: PgAt(ram, p, d, t) && Pte(ram, p, d, t).index == f
  {
    var s := Slots(ram.frames, Pde(ram, p, d).index);
    if forall t :: PgAt(ram, p, d, t) ==> Pte(ram, p, d, t).index != f {
      SlotRefsOfTab(ram, p, d, f);
    } else {
      var t :| PgAt(ram, p, d, t) && Pte(ram, p, d, t).index == f;
      forall i, j | 0 <= i < j < |s| ensures One(s[i], f) == 0 || One(s[j], f) == 0 {
        if One(s[i], f) != 0 && One(s[j], f) != 0 {
          assert PgAt(ram, p, d, i) && PgAt(ram, p, d, j);
        }
      }
      TableRefsAtMostOne(s, |s|, f);
    }
  }

  lemma ProcRefsAtMostOne(ram: Ram, p: nat, f: nat)
    requires WellFormed(ram) && OneSlot(ram) && p < TASK_NR
    ensures ProcRefs(ram.frames, ram.dirs[p], f) <= 1
  {
    if ram.dirs[p].Some? {
      var dir := ram.dirs[p].value;
      forall d | USER_LO <= d < USER_HI ensures SlotRefs(ram.frames, dir[d], f) <= 1 {
        if dir[d].present {
          assert TabAt(ram, p, d);
          SlotRefsAtMostOne(ram, p, d, f);
        }
      }
      forall d, e | USER_LO <= d < e < USER_HI
        ensures SlotRefs(ram.frames, dir[d], f) == 0 || SlotRefs(ram.frames, dir[e], f) == 0
      {
        if dir[d].present && dir[e].present {
          assert TabAt(ram, p, d) && TabAt(ram, p, e);
          SlotRefsAtMostOne(ram, p, d, f);
          SlotRefsAtMostOne(ram, p, e, f);
        }
      }
      DirRefsAtMostOne(ram.frames, dir, USER_HI, f);
    }
  }

  // The overflow assertions of copy_pde cannot fail: 64 tasks, one place per frame.
  lemma CountsStaySmall(ram: Ram, f: nat)
    requires Inv(ram) && f < |ram.counts|
    ensures ram.counts[f] <= TASK_NR + 1 && ram.counts[f] < COUNT_LIMIT
  {
    forall p | 0 <= p < TASK_NR ensures ProcRefs(ram.frames, ram.dirs[p], f) <= 1 {
      ProcRefsAtMostOne(ram, p, f);
    }
    AllRefsAtMost(ram.frames, ram.dirs, TASK_NR, f);
  }

  // A table's count is the number of directory slots that reach it.
  lemma TableCountIsTabs(ram: Ram, p: nat, d: nat)
    requires WellFormed(ram) && Exact(ram) && TabAt(ram, p, d)
    ensures ram.counts[Pde(ram, p, d).index] == AllTabs(ram.dirs, |ram.dirs|, Pde(ram, p, d).index)
  {
    var f := Pde(ram, p, d).index;
    forall q | 0 <= q < |ram.dirs| ensures ProcTabs(ram.dirs[q], f) == ProcRefs(ram.frames, ram.dirs[q], f) {
      if ram.dirs[q].Some? {
        var dir := ram.dirs[q].value;
        forall e | USER_LO <= e < USER_HI ensures SlotRefs(ram.frames, dir[e], f) == One(dir[e], f) {
          if dir[e].present {
            assert TabAt(ram, q, e);
            SlotRefsOfTab(ram, q, e, f);
          }
        }
        DirTabsAreRefs(ram.frames, dir, USER_HI, f);
      }
    }
    AllTabsAreRefs(ram.frames, ram.dirs, |ram.dirs|, f);
  }

  lemma {:induction false} NoDirRefs(frames: seq<Frame>, dir: seq<Entry>, n: nat, f: nat)
    requires n <= |dir| && forall d :: USER_LO <= d < n ==> SlotRefs(frames, dir[d], f) == 0
    ensures DirRefs(frames, dir, n, f) == 0
  {
    if n > USER_LO {
      NoDirRefs(frames, dir, n - 1, f);
    }
  }

  lemma {:induction false} OneProcRefs(frames: seq<Frame>, dirs: seq<Option<seq<Entry>>>, p: nat, n: nat, f: nat)
    requires n <= |dirs| && forall q :: 0 <= q < n && q != p ==> ProcRefs(frames, dirs[q], f) == 0
    ensures AllRefs(frames, dirs, n, f) == if p < n then ProcRefs(frames, dirs[p], f) else 0
  {
    if n > 0 {
      OneProcRefs(frames, dirs, p, n - 1, f);
    }
  }

  // A table with a higher count than 1 is in another process, at the same place.
  lemma TableShared(ram: Ram, p: nat, d: nat) returns (q: nat)
    requires Inv(ram) && TabAt(ram, p, d) && ram.counts[Pde(ram, p, d).index] > 1
    ensures q != p && TabAt(ram, q, d) && Pde(ram, q, d).index == Pde(ram, p, d).index
  {
    var f := Pde(ram, p, d).index;
    assert ram.counts[f] == Base(f) + Refs(ram, f);
    if q' :| q' != p && TabAt(ram, q', d) && Pde(ram, q', d).index == f {
      q := q';
    } else {
      forall r: nat | r < |ram.dirs| && r != p ensures ProcRefs(ram.frames, ram.dirs[r], f) == 0 {
        NotHeld(ram, p, d, r);
      }
      ProcRefsAtMostOne(ram, p, f);
      OneProcRefs(ram.frames, ram.dirs, p, |ram.dirs|, f);
      assert false;
    }
  }

  lemma NotHeld(ram: Ram, p: nat, d: nat, q: nat)
    requires Inv(ram) && TabAt(ram, p, d) && q < TASK_NR
    requires !(TabAt(ram, q, d) && Pde(ram, q, d).index == Pde(ram, p, d).index)
    ensures ProcRefs(ram.frames, ram.dirs[q], Pde(ram, p, d).index) == 0
  {
    var f := Pde(ram, p, d).index;
    if ram.dirs[q].Some? {
      var dir := ram.dirs[q].value;
      forall e | USER_LO <= e < USER_HI ensures SlotRefs(ram.frames, dir[e], f) == 0 {
        if dir[e].present {
          assert TabAt(ram, q, e);
          SlotRefsOfTab(ram, q, e, f);
        }
      }
      NoDirRefs(ram.frames, dir, USER_HI, f);
    }
  }
}
