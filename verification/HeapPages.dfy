// The pages that the kernel heap holds over a run of kmalloc and kfree: each is some arena's,
// and kfree gives back what it can spare.
module HeapPages {
  import opened Arenas
  import opened KernelHeap
  import opened Lists
  import Bitmap

  predicate Covers(h: Heap, p: nat, i: nat) {
    p in h.arenas && p <= i < p + Extent(h.arenas[p])
  }

  ghost predicate Held(h: Heap, i: nat) {
    exists p :: Covers(h, p, i)
  }

  // The pages in use are the ones in use before there was a heap, and the arenas'.
  ghost predicate Accounted(base: Heap, h: Heap) {
    h.first == base.first && |h.used| == |base.used| && forall i: nat :: AccountedAt(base, h, i)
  }

  ghost predicate AccountedAt(base: Heap, h: Heap, i: nat) {
    (PageUsed(h, i) <==> PageUsed(base, i) || Held(h, i)) && !(PageUsed(base, i) && Held(h, i))
  }

  // All blocks of page p are free, and its class has more than four pages.
  predicate Spare(h: Heap, p: nat)
    requires Classed(h)
  {
    p in h.arenas && h.arenas[p].Small? &&
    h.arenas[p].count == Total(h.arenas[p].cls) && h.pages[h.arenas[p].cls] > BUF_COUNT
  }

  ghost predicate Thrifty(h: Heap)
    requires Classed(h)
  {
    forall p :: !Spare(h, p)
  }

  // ------------------------------------------------------ which pages are held

  // An arena comes, on pages that were free.
  lemma ArenaComes(base: Heap, h: Heap, m: Heap, p: nat, a: Arena)
    requires Accounted(base, h) && p !in h.arenas && m.arenas == h.arenas[p := a] && FreeRun(h, p, Extent(a))
    requires m.first == h.first && m.used == Bitmap.Fill(h.used, p - h.first, Extent(a), true)
    ensures Accounted(base, m)
  {
    hide Held;
    forall i: nat ensures AccountedAt(base, m, i) {
      assert AccountedAt(base, h, i);
      HeldMore(h, m, p, a, i);
    }
  }

  lemma HeldMore(h: Heap, m: Heap, p: nat, a: Arena, i: nat)
    requires p !in h.arenas && m.arenas == h.arenas[p := a]
    ensures Held(m, i) <==> Held(h, i) || p <= i < p + Extent(a)
  {
    if Held(h, i) {
      var q :| Covers(h, q, i);
      assert Covers(m, q, i);
    }
    if p <= i < p + Extent(a) {
      assert Covers(m, p, i);
    }
    if q :| Covers(m, q, i) && q != p {
      assert Covers(h, q, i);
    }
  }

  // An arena goes, and its pages become free.
  lemma ArenaGoes(base: Heap, h: Heap, m: Heap, p: nat)
    requires Accounted(base, h) && Paged(h) && p in h.arenas && m.arenas == h.arenas - {p}
    requires m.first == h.first && m.used == Bitmap.Fill(h.used, p - h.first, Extent(h.arenas[p]), false)
    ensures Accounted(base, m)
  {
    hide Held, Paged;
    forall i: nat ensures AccountedAt(base, m, i) {
      assert AccountedAt(base, h, i);
      HeldLess(h, m, p, i);
    }
  }

  lemma HeldLess(h: Heap, m: Heap, p: nat, i: nat)
    requires Paged(h) && p in h.arenas && m.arenas == h.arenas - {p}
    ensures Held(m, i) <==> Held(h, i) && !(p <= i < p + Extent(h.arenas[p]))
    ensures p <= i < p + Extent(h.arenas[p]) ==> Held(h, i)
  {
    if q :| Covers(m, q, i) {
      assert Covers(h, q, i);
    }
    if p <= i < p + Extent(h.arenas[p]) {
      assert Covers(h, p, i);
    } else if q :| Covers(h, q, i) {
      assert Covers(m, q, i);
    }
  }

  // Counting blocks in and out moves no page.
  lemma ArenasStay(base: Heap, h: Heap, m: Heap)
    requires Accounted(base, h) && m.first == h.first && m.used == h.used && m.arenas.Keys == h.arenas.Keys
    requires forall p :: p in m.arenas ==> Extent(m.arenas[p]) == Extent(h.arenas[p])
    ensures Accounted(base, m)
  {
    forall i: nat ensures AccountedAt(base, m, i) {
      assert AccountedAt(base, h, i);
      if q :| Covers(h, q, i) {
        assert Covers(m, q, i);
      }
      if q :| Covers(m, q, i) {
        assert Covers(h, q, i);
      }
    }
  }

  // ------------------------------------------------------------ which are spare

  lemma CountAtMost(h: Heap, p: nat)
    requires Classed(h) && Counted(h) && p in h.arenas && h.arenas[p].Small?
    ensures h.arenas[p].count <= Total(h.arenas[p].cls)
    ensures h.free[h.arenas[p].cls] == [] ==> h.arenas[p].count == 0
  {
    var c := h.arenas[p].cls;
    CarvedSize(p, c, Total(c));
    Subset(FreeIn(h.free[c], p, c), Blocks(p, c));
    if h.free[c] == [] {
      assert FreeIn(h.free[c], p, c) == {};
    }
  }

  lemma {:induction false} Subset<T>(a: set<T>, b: set<T>)
    requires a <= b
    ensures |a| <= |b|
  {
    if x :| x in a {
      Subset(a - {x}, b - {x});
    }
  }

  lemma TakePagesThrifty(h: Heap, p: nat, count: nat, size: nat)
    requires Classed(h) && Thrifty(h) && h.first <= p && p + count <= h.first + |h.used|
    ensures Classed(TakePages(h, p, count, size)) && Thrifty(TakePages(h, p, count, size))
  {
    hide Total;
    forall q ensures !Spare(TakePages(h, p, count, size), q) {
      assert !Spare(h, q);
    }
  }

  lemma GivePagesThrifty(h: Heap, p: nat)
    requires Classed(h) && Thrifty(h) && p in h.arenas && h.arenas[p].Large?
    requires h.first <= p && p + h.arenas[p].count <= h.first + |h.used|
    ensures Classed(GivePages(h, p)) && Thrifty(GivePages(h, p))
  {
    hide Total;
    forall q ensures !Spare(GivePages(h, p), q) {
      assert !Spare(h, q);
    }
  }

  // A block is handed out; before that only its class may have had a page to spare.
  lemma TakeBlockThrifty(h: Heap, c: nat, size: nat)
    requires Inv(h) && c < DESC_COUNT && h.free[c] != []
    requires forall p :: Spare(h, p) ==> p == PageOf(h.free[c][0])
    ensures var p := PageOf(h.free[c][0]); p in h.arenas && h.arenas[p].Small? && h.arenas[p].count > 0
    ensures Classed(TakeBlock(h, c, size)) && Thrifty(TakeBlock(h, c, size))
  {
    hide Total, PageOf, Inv;
    FirstCounted(h, c);
    forall q ensures !Spare(TakeBlock(h, c, size), q) {
      assert Spare(h, q) ==> q == PageOf(h.free[c][0]);
    }
  }

  lemma FirstCounted(h: Heap, c: nat)
    requires Inv(h) && c < DESC_COUNT && h.free[c] != []
    ensures var p := PageOf(h.free[c][0]);
      p in h.arenas && h.arenas[p].Small? && h.arenas[p].cls < DESC_COUNT
      && 0 < h.arenas[p].count <= Total(h.arenas[p].cls)
    ensures Classed(h)
  {
    FirstFree(h, c);
    CountAtMost(h, PageOf(h.free[c][0]));
  }

  // A page is cut up only when the class has no free block, and its first block goes out at once.
  lemma CarvedTakeThrifty(h: Heap, p: nat, c: nat, size: nat)
    requires Inv(h) && Thrifty(h) && FreeRun(h, p, 1) && c < DESC_COUNT && h.free[c] == []
    ensures var n := Carve(h, p, c); Inv(n) && n.free[c] != [] && PageOf(n.free[c][0]) == p
    ensures forall q :: Spare(Carve(h, p, c), q) ==> q == p
  {
    var n := Carve(h, p, c);
    CarveKeeps(h, p, c);
    PileTop(p, c);
    assert n.free[c] == Pile(p, c, Total(c));
    hide Pile, PageOf, FreeRun;
    forall q | q != p ensures !Spare(n, q) {
      if q in h.arenas && h.arenas[q].Small? {
        CountAtMost(h, q);
      }
      assert !Spare(h, q);
    }
  }

  lemma PileTop(p: nat, c: nat)
    requires c < DESC_COUNT
    ensures Pile(p, c, Total(c)) != [] && PageOf(Pile(p, c, Total(c))[0]) == p
  {
    BlockInPage(p, c, Total(c) - 1);
  }

  // A block comes back, and its page goes when it is all free and the class has pages to spare.
  lemma FreedThrifty(h: Heap, a: nat)
    requires Inv(h) && Thrifty(h) && a in h.live && LiveFits(h, a) && h.arenas[PageOf(a)].Small?
    ensures Classed(Freed(h, a)) && Thrifty(Freed(h, a))
  {
    hide Total, PageOf, WithoutPile, Inv, GiveBlock, Thrifty;
    GivenSpare(h, a);
    var p, g := PageOf(a), GiveBlock(h, a);
    if Spare(g, p) {
      forall q ensures !Spare(Withdraw(g, p), q) {
        assert Spare(g, q) ==> q == p;
      }
      assert Freed(h, a) == Withdraw(g, p);
    } else {
      forall q ensures !Spare(g, q) {
        assert Spare(g, q) ==> q == p;
      }
      assert Freed(h, a) == g;
    }
    NoneIsSpare(Freed(h, a));
  }

  lemma NoneIsSpare(h: Heap)
    requires Classed(h) && forall p :: !Spare(h, p)
    ensures Thrifty(h)
  {}

  // In a class with pages to spare only the block's own page can have become free.
  lemma GivenSpare(h: Heap, a: nat)
    requires Inv(h) && Thrifty(h) && a in h.live && LiveFits(h, a) && h.arenas[PageOf(a)].Small?
    ensures h.arenas[PageOf(a)].cls < DESC_COUNT
    ensures var g, p := GiveBlock(h, a), PageOf(a);
      && Classed(g) && p in g.arenas && g.arenas[p].Small? && g.arenas[p].cls == h.arenas[p].cls
      && g.first == h.first <= p < h.first + |h.used| == h.first + |g.used|
      && forall q :: Spare(g, q) ==> q == p
  {
    hide Total, PageOf;
    InvPaged(h);
    hide Inv;
    forall q | Spare(GiveBlock(h, a), q) ensures q == PageOf(a) {
      assert !Spare(h, q);
    }
  }

  // ------------------------------------------------------------------- the calls

  lemma MallocPages(base: Heap, h: Heap, size: nat, a: nat, m: Heap)
    requires Inv(h) && Thrifty(h) && Accounted(base, h) && Did(h, DoMalloc(size, a), m)
    ensures Inv(m) && Thrifty(m) && Accounted(base, m)
  {
    MallocKeeps(h, size, a, m);
    hide Inv, FreeRun, TakePages, TakeBlock, Carve, Thrifty, Accounted;
    if size > SMALL_LIMIT {
      var p :| TookPages(h, m, p, LargePages(size), size) && a == Start(p);
      LargeComes(base, h, p, size);
    } else {
      var c := ClassFrom(size, 0);
      if Took(h, m, c, size, a) {
        NoneSpare(h);
        TakeBlockThrifty(h, c, size);
        BlockGoes(base, h, c, size);
      } else {
        var p, n :| Carved1(h, n, p, c) && Took(n, m, c, size, a);
        CarvedTakeThrifty(h, p, c, size);
        TakeBlockThrifty(n, c, size);
        PageComes(base, h, p, c);
        BlockGoes(base, n, c, size);
      }
    }
  }

  lemma NoneSpare(h: Heap)
    requires Classed(h) && Thrifty(h)
    ensures forall p :: !Spare(h, p)
  {}

  lemma LargeComes(base: Heap, h: Heap, p: nat, size: nat)
    requires Inv(h) && Thrifty(h) && Accounted(base, h) && SMALL_LIMIT < size
    requires size + HEADER + PAGE_SIZE - 1 < U32_LIMIT && FreeRun(h, p, LargePages(size))
    ensures var m := TakePages(h, p, LargePages(size), size); Classed(m) && Thrifty(m) && Accounted(base, m)
  {
    var count := LargePages(size);
    LargePagesEnough(size);
    hide LargePages, Listed, Allotted, Counted, Accounted;
    TakePagesPaged(h, p, count, size);
    TakePagesThrifty(h, p, count, size);
    hide FreeRun, Paged;
    ArenaComes(base, h, TakePages(h, p, count, size), p, Large(count));
  }

  lemma PageComes(base: Heap, h: Heap, p: nat, c: nat)
    requires Inv(h) && Accounted(base, h) && FreeRun(h, p, 1) && c < DESC_COUNT
    ensures Accounted(base, Carve(h, p, c))
  {
    CarveKeeps(h, p, c);
    hide Inv, Accounted, FreeRun, Pile, Total;
    ArenaComes(base, h, Carve(h, p, c), p, Small(c, Total(c)));
  }

  lemma BlockGoes(base: Heap, h: Heap, c: nat, size: nat)
    requires Accounted(base, h) && c < DESC_COUNT == |h.free| && h.free[c] != []
    requires var p := PageOf(h.free[c][0]); p in h.arenas && h.arenas[p].Small? && h.arenas[p].count > 0
    ensures Accounted(base, TakeBlock(h, c, size))
  {
    hide Accounted, PageOf;
    ArenasStay(base, h, TakeBlock(h, c, size));
  }

  lemma FreePages(base: Heap, h: Heap, a: nat, m: Heap)
    requires Inv(h) && Thrifty(h) && Accounted(base, h) && Did(h, DoFree(a), m)
    ensures Inv(m) && Thrifty(m) && Accounted(base, m)
    ensures forall c :: 0 <= c < DESC_COUNT && h.pages[c] >= BUF_COUNT ==> m.pages[c] >= BUF_COUNT
  {
    hide Inv, PageOf, Accounted, Paged, WithoutPile, Thrifty, Classed;
    FreeKeeps(h, a, m);
    FourStay(h, a, m);
    var p := PageOf(a);
    InvPaged(h);
    if h.arenas[p].Large? {
      GivePagesThrifty(h, p);
      ArenaGoes(base, h, m, p);
    } else {
      FreedThrifty(h, a);
      var g := GiveBlock(h, a);
      ArenasStay(base, h, g);
      GiveBlockKeeps(h, a);
      InvPaged(g);
      if m != g {
        ArenaGoes(base, g, m, p);
      }
    }
  }

  // kfree leaves a class that has four pages at least four.
  lemma FourStay(h: Heap, a: nat, m: Heap)
    requires Classed(h) && Did(h, DoFree(a), m)
    ensures Classed(m) && forall c :: 0 <= c < DESC_COUNT && h.pages[c] >= BUF_COUNT ==> m.pages[c] >= BUF_COUNT
  {
    hide PageOf, Total, WithoutPile;
  }

  lemma InvPaged(h: Heap)
    requires Inv(h)
    ensures Paged(h) && Classed(h)
  {}

  // Before there is a heap.
  ghost predicate NoHeap(h: Heap) {
    Inv(h) && h.arenas == map[] && h.live == map[]
  }

  // Without a live pointer no page is held whole, and every block is free.
  lemma NothingLive(h: Heap)
    requires Inv(h) && Thrifty(h) && h.live == map[]
    ensures forall p :: p in h.arenas ==> h.arenas[p].Small?
    ensures forall c :: 0 <= c < DESC_COUNT ==> h.pages[c] <= BUF_COUNT
  {
    hide Paged;
    forall c | 0 <= c < DESC_COUNT ensures h.pages[c] <= BUF_COUNT {
      if p :| p in PagesOf(h.arenas, c) {
        AllFree(h, p);
        assert !Spare(h, p);
      } else {
        assert PagesOf(h.arenas, c) == {};
      }
    }
  }

  lemma AllFree(h: Heap, p: nat)
    requires Classed(h) && Listed(h) && Counted(h) && h.live == map[] && p in h.arenas && h.arenas[p].Small?
    ensures h.arenas[p].count == Total(h.arenas[p].cls)
  {
    var c := h.arenas[p].cls;
    CarvedSize(p, c, Total(c));
    forall b | b in Blocks(p, c) ensures b in h.free[c] {
      BlocksPage(p, c, b);
      assert IsBlock(h.arenas, c, b);
    }
    assert FreeIn(h.free[c], p, c) == Blocks(p, c);
  }

  // Over any run a class with more than four pages has no page whose blocks are all free, and
  // no page is lost; when all that was handed out has come back each class has at most four
  // pages, and every other page is as it was before there was a heap.
  lemma {:induction false} RunGivesBack(base: Heap, hs: seq<Heap>, calls: seq<Call>)
    requires |hs| == |calls| + 1 && Inv(hs[0]) && Thrifty(hs[0]) && Accounted(base, hs[0])
    requires forall i :: 0 <= i < |calls| ==> Did(hs[i], calls[i], hs[i + 1])
    ensures var h := hs[|hs| - 1];
      && Inv(h) && Thrifty(h) && Accounted(base, h)
      && (h.live == map[] ==> (forall c :: 0 <= c < DESC_COUNT ==> h.pages[c] <= BUF_COUNT)
                              && (forall i: nat :: PageUsed(h, i) <==> PageUsed(base, i) || i in h.arenas))
    decreases |calls|
  {
    hide Inv, Did, Thrifty, Accounted, PageUsed;
    if calls == [] {
      var h := hs[0];
      if h.live == map[] {
        NothingLive(h);
        HeldPagesAre(base, h);
      }
    } else {
      assert Did(hs[0], calls[0], hs[1]);
      match calls[0] {
        case DoMalloc(size, a) => MallocPages(base, hs[0], size, a, hs[1]);
        case DoFree(a) => FreePages(base, hs[0], a, hs[1]);
      }
      RunGivesBack(base, hs[1..], calls[1..]);
    }
  }

  lemma HeldPagesAre(base: Heap, h: Heap)
    requires Accounted(base, h) && forall p :: p in h.arenas ==> h.arenas[p].Small?
    ensures forall i: nat :: PageUsed(h, i) <==> PageUsed(base, i) || i in h.arenas
  {
    forall i: nat ensures PageUsed(h, i) <==> PageUsed(base, i) || i in h.arenas {
      assert AccountedAt(base, h, i);
      if i in h.arenas {
        assert Covers(h, i, i);
      }
    }
  }

  // The heap that arena_init leaves is such a start.
  lemma NoHeapYet(h: Heap)
    requires NoHeap(h)
    ensures Thrifty(h) && Accounted(h, h)
  {
    forall i: nat ensures AccountedAt(h, h, i) {
      assert !Held(h, i);
    }
  }
}
