// src/kernel/arena.c in its own form, on the page bitmap of src/kernel/memory.c.
module KernelHeap {
  import opened Lists
  import opened Arenas
  import Bitmap

  lemma ClearRunIsFree(h: Heap, s: nat, count: nat)
    ensures Bitmap.ClearRun(h.used, s, count) <==> FreeRun(h, h.first + s, count)
  {
    if FreeRun(h, h.first + s, count) {
      forall i | s <= i < s + count ensures !h.used[i] {
        assert !PageUsed(h, h.first + i);
      }
    }
  }

  // kfree of a block, or of a run of pages.
  function Freed(h: Heap, a: nat): Heap
    requires Classed(h) && PageOf(a) in h.arenas && h.first <= PageOf(a)
    requires PageOf(a) + Extent(h.arenas[PageOf(a)]) <= h.first + |h.used|
  {
    var p := PageOf(a);
    if h.arenas[p].Large? then GivePages(h, p)
    else
      var m := GiveBlock(h, a);
      var c := h.arenas[p].cls;
      if m.arenas[p].count == Total(c) && m.pages[c] > BUF_COUNT then Withdraw(m, p) else m
  }

  class KernelHeap {
    const kernelMap: Bitmap.Bitmap
    var arenas: map<nat, Arena>      // the header of each page that has one
    var free: seq<seq<nat>>          // the seven descriptors' free lists
    var pages: seq<nat>              // and their page_count
    ghost var live: map<nat, nat>

    // arena_init
    constructor (kernelMap: Bitmap.Bitmap)
      ensures this.kernelMap == kernelMap && Inv(State()) && live == map[]
    {
      this.kernelMap, arenas, live := kernelMap, map[], map[];
      free, pages := seq(DESC_COUNT, c => []), seq(DESC_COUNT, c => 0);
      new;
      assert forall c :: PagesOf(arenas, c) == {};
    }

    ghost function State(): Heap
      reads this, kernelMap.bits
    {
      Heap(kernelMap.offset, kernelMap.Bits(), arenas, free, pages, live)
    }

    // alloc_kpage; it panics when there is no such run.
    method AllocKpage(count: nat) returns (p: nat)
      requires count > 0 && exists s: nat :: Bitmap.ClearRun(kernelMap.Bits(), s, count)
      modifies kernelMap.bits
      ensures FreeRun(old(State()), p, count)
      ensures kernelMap.Bits() == Bitmap.Fill(old(kernelMap.Bits()), p - kernelMap.offset, count, true)
    {
      ghost var h := State();
      var r := kernelMap.Scan(count);
      p := r.value;
      ClearRunIsFree(h, p - kernelMap.offset, count);
    }

    // free_kpage
    method FreeKpage(p: nat, count: nat)
      requires kernelMap.offset <= p && p + count <= kernelMap.offset + |kernelMap.Bits()| && count > 0
      requires forall i :: p - kernelMap.offset <= i < p - kernelMap.offset + count ==> kernelMap.Bits()[i]
      modifies kernelMap.bits
      ensures kernelMap.Bits() == Bitmap.Fill(old(kernelMap.Bits()), p - kernelMap.offset, count, false)
    {
      ghost var bits := kernelMap.Bits();
      ghost var s := p - kernelMap.offset;
      assert bits == Bitmap.Fill(bits, s, 0, false);
      for i := 0 to count
        invariant kernelMap.Bits() == Bitmap.Fill(bits, s, i, false)
      {
        var used := kernelMap.Test(p + i);
        assert used;
        kernelMap.Set(p + i, false);
        assert Bitmap.Fill(bits, s, i, false)[s + i := false] == Bitmap.Fill(bits, s, i + 1, false);
      }
    }

    // The part of kmalloc that cuts up a new page.
    method CarvePage(c: nat) returns (p: nat)
      requires c < DESC_COUNT == |free| == |pages| && free[c] == []
      requires exists s: nat :: Bitmap.ClearRun(kernelMap.Bits(), s, 1)
      modifies this, kernelMap.bits
      ensures FreeRun(old(State()), p, 1) && State() == Carve(old(State()), p, c)
    {
      ghost var h := State();
      p := AllocKpage(1);
      pages := pages[c := pages[c] + 1];
      arenas := arenas[p := Small(c, Total(c))];
      for i := 0 to Total(c)
        invariant |free| == DESC_COUNT && free == h.free[c := Pile(p, c, i)]
        invariant arenas == h.arenas[p := Small(c, Total(c))] && pages == h.pages[c := h.pages[c] + 1] && live == h.live
        invariant kernelMap.Bits() == Bitmap.Fill(h.used, p - kernelMap.offset, 1, true)
      {
        var block := Block(p, c, i);
        PileMembers(p, c, i);
        CarvedNext(p, c, i);
        hide Block, Carved;
        var there := Search(free[c], block);
        assert !there;
        free := free[c := [block] + free[c]];
      }
      assert Pile(p, c, Total(c)) + h.free[c] == Pile(p, c, Total(c));
    }

    // kmalloc over 1024: whole pages; alloc_kpage asserts that there is one at least. They
    // are enough just when the 32-bit sums do not wrap.
    method KmallocPages(size: nat) returns (a: nat)
      requires Inv(State()) && SMALL_LIMIT < size < U32_LIMIT && LargePages(size) > 0
      requires exists s: nat :: Bitmap.ClearRun(kernelMap.Bits(), s, LargePages(size))
      modifies this, kernelMap.bits
      ensures GotPages(old(State()), State(), size, a)
      ensures Inv(State()) <==> size + HEADER + PAGE_SIZE - 1 < U32_LIMIT
    {
      ghost var h := State();
      LargePagesEnough(size);
      var asize := (size + HEADER) % U32_LIMIT;
      var count := (asize + PAGE_SIZE - 1) % U32_LIMIT / PAGE_SIZE;
      assert count == LargePages(size) && count > 0;
      hide Inv, FreeRun, LargePages;
      var p := AllocKpage(count);
      TakePagesIff(h, p, count, size);
      arenas := arenas[p := Large(count)];
      a := Start(p);
      live := live[a := size];
      assert TookPages(h, State(), p, LargePages(size), size);
    }

    // kmalloc of at most 1024: a block of the smallest class that is big enough.
    method KmallocBlock(size: nat) returns (a: nat)
      requires Inv(State()) && size <= SMALL_LIMIT && exists s: nat :: Bitmap.ClearRun(kernelMap.Bits(), s, 1)
      modifies this, kernelMap.bits
      ensures Inv(State()) && GotBlock(old(State()), State(), size, a)
    {
      ghost var h := State();
      var c := 0;
      while c < DESC_COUNT
        invariant c < DESC_COUNT && ClassFrom(size, c) == ClassFrom(size, 0)
      {
        if Size(c) >= size {
          break;
        }
        c := c + 1;
      }
      HeapClasses(h);
      hide Inv, FreeRun, Took;
      if free[c] == [] {
        var p := CarvePage(c);
        CarveKeeps(h, p, c);
        assert Carved1(h, State(), p, c);
        CarveLive(h, p, c);
        HeapClasses(State());
      }
      ghost var m := State();
      a := PopBlock(c, size);
      TookLive(m, State(), c, size, a);
    }

    // list_pop and the page's count.
    method PopBlock(c: nat, size: nat) returns (a: nat)
      requires Inv(State()) && c < DESC_COUNT == |free| && free[c] != [] && size <= Size(c)
      modifies this
      ensures Inv(State()) && Took(old(State()), State(), c, size, a)
    {
      hide Inv, PageOf, Blocks, IsBlock;
      ghost var h := State();
      TakeBlockKeeps(h, c, size);
      a := free[c][0];
      free := free[c := free[c][1..]];
      var p := PageOf(a);
      assert p in arenas && !arenas[p].Large?;
      arenas := arenas[p := Small(arenas[p].cls, arenas[p].count - 1)];
      live := live[a := size];
      assert State() == TakeBlock(h, c, size);
    }

    method Kmalloc(size: nat) returns (a: nat)
      requires Inv(State()) && size < U32_LIMIT && PagesNeeded(size) > 0
      requires exists s: nat :: Bitmap.ClearRun(kernelMap.Bits(), s, PagesNeeded(size))
      modifies this, kernelMap.bits
      ensures a !in old(live) && live == old(live)[a := size]
      ensures Inv(State()) <==> size + HEADER + PAGE_SIZE - 1 < U32_LIMIT
      ensures if size > SMALL_LIMIT then GotPages(old(State()), State(), size, a)
              else GotBlock(old(State()), State(), size, a)
    {
      hide Inv;
      if size > SMALL_LIMIT {
        a := KmallocPages(size);
      } else {
        a := KmallocBlock(size);
      }
    }

    // kfree of what kmalloc returned.
    method Kfree(a: nat)
      requires Inv(State()) && a in live
      modifies this, kernelMap.bits
      ensures Inv(State()) && DidFree(old(State()), State(), a) && live == old(live) - {a}
    {
      hide Inv, Listed, Paged, Counted, Allotted, Blocks, IsBlock;
      ghost var h := State();
      LiveHasArena(h, a);
      var p := PageOf(a);
      hide PageOf;
      if arenas[p].Large? {
        GivePagesKeeps(h, p);
        HeldPages(h, p);
        FreeKpage(p, arenas[p].count);
        arenas := arenas - {p};
        live := live - {a};
        assert State() == GivePages(h, p);
        return;
      }
      GiveBlockKeeps(h, a);
      var c := arenas[p].cls;
      free := free[c := [a] + free[c]];
      arenas := arenas[p := Small(c, arenas[p].count + 1)];
      live := live - {a};
      assert State() == GiveBlock(h, a);
      if arenas[p].count == Total(c) && pages[c] > BUF_COUNT {
        WithdrawPage(p);
      }
    }

    // The end of kfree: a page none of whose blocks is in use.
    method WithdrawPage(p: nat)
      requires Inv(State()) && p in arenas && arenas[p].Small? && arenas[p].cls < DESC_COUNT == |pages|
      requires arenas[p].count == Total(arenas[p].cls) && pages[arenas[p].cls] > BUF_COUNT
      modifies this, kernelMap.bits
      ensures Inv(State()) && Withdrew(old(State()), State(), p)
    {
      hide Inv, Bitmap.Fill, PageOf, Blocks, IsBlock, WithoutPile;
      ghost var h := State();
      WithdrawKeeps(h, p);
      HeldPages(h, p);
      HeapClasses(h);
      WithdrawBlocks(p);
      FreeKpage(p, 1);
      pages := pages[arenas[p].cls := pages[arenas[p].cls] - 1];
      assert pages[arenas[p].cls] >= BUF_COUNT;
      arenas := arenas - {p};
      assert State() == Withdraw(h, p);
    }

    // Its loop: each block is on the free list, and leaves it.
    method WithdrawBlocks(p: nat)
      requires Inv(State()) && p in arenas && arenas[p].Small? && arenas[p].cls < DESC_COUNT == |free|
      requires arenas[p].count == Total(arenas[p].cls)
      modifies this`free
      ensures var c := arenas[p].cls; free == old(free)[c := WithoutPile(old(free)[c], p, c, Total(c))]
    {
      hide *;
      ghost var before := free;
      FullPage(p);
      var c := arenas[p].cls;
      for i := 0 to Total(c)
        invariant |free| == DESC_COUNT && free == before[c := WithoutPile(before[c], p, c, i)]
      {
        var block := Block(p, c, i);
        StillListed(before[c], p, c, i);
        var there := Search(free[c], block);
        assert there;
        free := free[c := Without(free[c], block)];
      }
    }

    lemma FullPage(p: nat)
      requires Inv(State()) && p in arenas && arenas[p].Small? && arenas[p].cls < DESC_COUNT == |free|
      requires arenas[p].count == Total(arenas[p].cls)
      ensures var c := arenas[p].cls; NoDup(free[c]) && forall b :: b in Blocks(p, c) ==> b in free[c]
      ensures WithoutPile(free[arenas[p].cls], p, arenas[p].cls, 0) == free[arenas[p].cls]
    {
      FullIsFree(State(), p);
      HeapClasses(State());
    }
  }

  // The blocks that come next are still on the list.
  lemma StillListed(s: seq<nat>, p: nat, c: nat, i: nat)
    requires c < DESC_COUNT && i < Total(c) && NoDup(s) && forall b :: b in Blocks(p, c) ==> b in s
    ensures Block(p, c, i) in WithoutPile(s, p, c, i)
    ensures WithoutPile(s, p, c, i + 1) == Without(WithoutPile(s, p, c, i), Block(p, c, i))
  {
    WithoutPileMembers(s, p, c, i);
    CarvedNext(p, c, i);
    assert Block(p, c, i) in Blocks(p, c);
  }

  // The pages kmalloc may need.
  function PagesNeeded(size: nat): nat {
    if size > SMALL_LIMIT then LargePages(size) else 1
  }

  ghost predicate TookPages(h: Heap, m: Heap, p: nat, count: nat, size: nat) {
    FreeRun(h, p, count) && m == TakePages(h, p, count, size)
  }

  // m comes from h by handing out whole pages at a.
  ghost predicate GotPages(h: Heap, m: Heap, size: nat, a: nat) {
    && (exists p :: TookPages(h, m, p, LargePages(size), size) && a == Start(p))
    && a !in h.live && m.live == h.live[a := size]
  }

  // m comes from h by handing out the first free block of class c.
  ghost predicate Took(h: Heap, m: Heap, c: nat, size: nat, a: nat) {
    && c < DESC_COUNT == |h.free| && h.free[c] != [] && a == h.free[c][0] && a !in h.live
    && PageOf(a) in h.arenas && h.arenas[PageOf(a)].Small? && h.arenas[PageOf(a)].count > 0
    && m == TakeBlock(h, c, size)
  }

  ghost predicate Carved1(h: Heap, m: Heap, p: nat, c: nat) {
    FreeRun(h, p, 1) && c < DESC_COUNT == |h.free| == |h.pages| && h.free[c] == [] && m == Carve(h, p, c)
  }

  // m comes from h by handing out a block of the size's class, of a new page if none was free.
  ghost predicate GotBlock(h: Heap, m: Heap, size: nat, a: nat) {
    && size <= SMALL_LIMIT && a !in h.live && m.live == h.live[a := size]
    && (Took(h, m, ClassFrom(size, 0), size, a)
        || exists p, n :: Carved1(h, n, p, ClassFrom(size, 0)) && Took(n, m, ClassFrom(size, 0), size, a))
  }

  lemma CarveLive(h: Heap, p: nat, c: nat)
    requires FreeRun(h, p, 1) && c < DESC_COUNT == |h.free| == |h.pages|
    ensures Carve(h, p, c).live == h.live
  {}

  lemma TookLive(h: Heap, m: Heap, c: nat, size: nat, a: nat)
    requires Took(h, m, c, size, a)
    ensures a !in h.live && m.live == h.live[a := size]
  {}

  lemma HeapClasses(h: Heap)
    requires Inv(h)
    ensures Classed(h) && forall c :: 0 <= c < DESC_COUNT ==> NoDup(h.free[c])
  {}

  // The arena of a live pointer.
  predicate LiveFits(h: Heap, a: nat) {
    && Classed(h) && PageOf(a) in h.arenas && h.first <= PageOf(a)
    && PageOf(a) + Extent(h.arenas[PageOf(a)]) <= h.first + |h.used|
    && (h.arenas[PageOf(a)].Large? ==> a == Start(PageOf(a)))
  }

  ghost predicate DidFree(h: Heap, m: Heap, a: nat) {
    LiveFits(h, a) && m == Freed(h, a)
  }

  ghost predicate Withdrew(h: Heap, m: Heap, p: nat) {
    && Classed(h) && p in h.arenas && h.arenas[p].Small? && h.first <= p < h.first + |h.used| &&
      h.pages[h.arenas[p].cls] > 0
    && m == Withdraw(h, p)
  }

  lemma LiveHasArena(h: Heap, a: nat)
    requires Inv(h) && a in h.live
    ensures LiveFits(h, a)
  {
    hide Listed, Counted;
    assert Fits(h.arenas, a, h.live[a]);
  }

  lemma HeldPages(h: Heap, p: nat)
    requires Inv(h) && p in h.arenas
    ensures Extent(h.arenas[p]) > 0 && h.first <= p && p + Extent(h.arenas[p]) <= h.first + |h.used|
    ensures forall i :: p - h.first <= i < p - h.first + Extent(h.arenas[p]) ==> h.used[i]
  {
    hide Listed, Counted, Allotted;
    forall i | p - h.first <= i < p - h.first + Extent(h.arenas[p]) ensures h.used[i] {
      assert PageUsed(h, h.first + i);
    }
  }

  // ------------------------------------------------------------------ runs

  datatype Call = DoMalloc(size: nat, a: nat) | DoFree(a: nat)

  // What a call that returns does; kmalloc's sums do not wrap, kfree is given a live pointer.
  ghost predicate Did(h: Heap, call: Call, m: Heap) {
    match call
    case DoMalloc(size, a) =>
      size + HEADER + PAGE_SIZE - 1 < U32_LIMIT &&
      if size > SMALL_LIMIT then GotPages(h, m, size, a) else GotBlock(h, m, size, a)
    case DoFree(a) => a in h.live && DidFree(h, m, a)
  }

  lemma MallocKeeps(h: Heap, size: nat, a: nat, m: Heap)
    requires Inv(h) && Did(h, DoMalloc(size, a), m)
    ensures Inv(m) && a !in h.live && m.live == h.live[a := size]
  {
    hide Inv, FreeRun, TakePages, TakeBlock, Carve;
    if size > SMALL_LIMIT {
      var p :| TookPages(h, m, p, LargePages(size), size) && a == Start(p);
      LargePagesEnough(size);
      TakePagesKeeps(h, p, LargePages(size), size);
    } else {
      var c := ClassFrom(size, 0);
      if Took(h, m, c, size, a) {
        TakeBlockKeeps(h, c, size);
      } else {
        var p, n :| Carved1(h, n, p, c) && Took(n, m, c, size, a);
        CarveKeeps(h, p, c);
        TakeBlockKeeps(n, c, size);
      }
    }
  }

  lemma FreeKeeps(h: Heap, a: nat, m: Heap)
    requires Inv(h) && Did(h, DoFree(a), m)
    ensures Inv(m) && m.live == h.live - {a}
  {
    var p := PageOf(a);
    hide Inv, PageOf;
    if h.arenas[p].Large? {
      GivePagesKeeps(h, p);
    } else {
      GiveBlockKeeps(h, a);
      var g := GiveBlock(h, a);
      var c := h.arenas[p].cls;
      if g.arenas[p].count == Total(c) && g.pages[c] > BUF_COUNT {
        WithdrawKeeps(g, p);
      }
    }
  }

  // After any sequence of kmalloc and kfree the heap is sound, and no byte belongs to two
  // live pointers.
  lemma {:induction false} RunSound(hs: seq<Heap>, calls: seq<Call>)
    requires |hs| == |calls| + 1 && Inv(hs[0])
    requires forall i :: 0 <= i < |calls| ==> Did(hs[i], calls[i], hs[i + 1])
    ensures var h := hs[|hs| - 1];
      Inv(h) && forall a, b, x :: a in h.live && b in h.live && Within(h, a, x) && Within(h, b, x) ==> a == b
    decreases |calls|
  {
    hide Inv, Did, Within;
    if calls == [] {
      var h := hs[0];
      forall a, b, x | a in h.live && b in h.live && Within(h, a, x) && Within(h, b, x) ensures a == b {
        LiveApart(h, a, b, x);
      }
    } else {
      assert Did(hs[0], calls[0], hs[1]);
      match calls[0] {
        case DoMalloc(size, a) => MallocKeeps(hs[0], size, a, hs[1]);
        case DoFree(a) => FreeKeeps(hs[0], a, hs[1]);
      }
      RunSound(hs[1..], calls[1..]);
    }
  }
}
