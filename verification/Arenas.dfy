// The kernel heap: pages cut into blocks of seven sizes, what kmalloc and kfree of
// src/kernel/arena.c do to them, and what they keep.
module Arenas {
  import opened Lists
  import Bitmap

  const PAGE_SIZE := 4096
  const HEADER := 16               // sizeof(arena_t)
  const DESC_COUNT := 7
  const BUF_COUNT := 4
  const SMALL_LIMIT := 1024
  const U32_LIMIT := 0x1_0000_0000

  // The header of a page that is cut into blocks of class cls, count of them free, or of a
  // run of count pages handed out whole.
  datatype Arena = Small(cls: nat, count: nat) | Large(count: nat)

  // used[i] is the bit of page first + i; arenas has the header of each page that has one;
  // live is what kmalloc returned and kfree has not had back, with the sizes asked for.
  datatype Heap = Heap(first: nat, used: seq<bool>, arenas: map<nat, Arena>, free: seq<seq<nat>>, pages: seq<nat>,
                       live: map<nat, nat>)

  // ------------------------------------------------------------- addresses

  function Size(c: nat): (s: nat)
    requires c < DESC_COUNT
    ensures 16 <= s <= SMALL_LIMIT
  {
    if c == 0 then 16 else if c == 1 then 32 else if c == 2 then 64 else if c == 3 then 128
    else if c == 4 then 256 else if c == 5 then 512 else 1024
  }

  function Total(c: nat): (n: nat)
    requires c < DESC_COUNT
    ensures n > 0
  {
    (PAGE_SIZE - HEADER) / Size(c)
  }

  // A block's size is twice that of the class before, so that less than half of a block is lost.
  lemma ClassTight(size: nat)
    requires size <= SMALL_LIMIT
    ensures Size(0) == 16 && forall c :: 0 <= c < DESC_COUNT - 1 ==> Size(c + 1) == 2 * Size(c)
    ensures size > 16 ==> Size(ClassFrom(size, 0)) < 2 * size
  {
    var c := ClassFrom(size, 0);
    assert c > 0 ==> Size(c - 1) < size && Size(c) == 2 * Size(c - 1);
  }

  // What lies behind the header of page p.
  function Start(p: nat): nat {
    p * PAGE_SIZE + HEADER
  }

  function Block(p: nat, c: nat, i: nat): nat
    requires c < DESC_COUNT
  {
    Start(p) + i * Size(c)
  }

  // get_block_arena: the address with its low 12 bits cleared, as a page number.
  function PageOf(a: nat): nat {
    a / PAGE_SIZE
  }

  // A block lies in its page, behind the header.
  lemma BlockInPage(p: nat, c: nat, i: nat)
    requires c < DESC_COUNT && i < Total(c)
    ensures PageOf(Block(p, c, i)) == p
    ensures Start(p) <= Block(p, c, i) && Block(p, c, i) + Size(c) <= (p + 1) * PAGE_SIZE
  {}

  // A page has no room for one more.
  lemma PageFull(p: nat, c: nat)
    requires c < DESC_COUNT
    ensures Block(p, c, Total(c)) + Size(c) > (p + 1) * PAGE_SIZE
  {}

  lemma BlocksApart(p: nat, c: nat, i: nat, j: nat)
    requires c < DESC_COUNT && i < j
    ensures Block(p, c, i) + Size(c) <= Block(p, c, j)
  {
    assert (i + 1) * Size(c) <= j * Size(c);
  }

  // The class kmalloc takes: the first whose blocks are big enough.
  function ClassFrom(size: nat, c: nat): (r: nat)
    requires c < DESC_COUNT && size <= SMALL_LIMIT
    ensures c <= r < DESC_COUNT && size <= Size(r) && forall i :: c <= i < r ==> Size(i) < size
    decreases DESC_COUNT - c
  {
    if Size(c) >= size then c else ClassFrom(size, c + 1)
  }

  // The pages kmalloc takes for a size over 1024, in 32-bit arithmetic.
  function LargePages(size: nat): nat {
    ((((size + HEADER) % U32_LIMIT) + PAGE_SIZE - 1) % U32_LIMIT) / PAGE_SIZE
  }

  // They hold what was asked for and the header, just when the sums do not wrap; then fewer would not.
  lemma LargePagesEnough(size: nat)
    requires SMALL_LIMIT < size < U32_LIMIT
    ensures LargePages(size) * PAGE_SIZE >= size + HEADER <==> size + HEADER + PAGE_SIZE - 1 < U32_LIMIT
    ensures size + HEADER + PAGE_SIZE - 1 < U32_LIMIT ==> (LargePages(size) - 1) * PAGE_SIZE < size + HEADER
  {}

  // ------------------------------------------------------ a page's blocks

  function Carved(p: nat, c: nat, n: nat): (s: set<nat>)
    requires c < DESC_COUNT
    ensures forall b :: b in s <==> exists i :: 0 <= i < n && b == Block(p, c, i)
  {
    set i | 0 <= i < n :: Block(p, c, i)
  }

  function Blocks(p: nat, c: nat): set<nat>
    requires c < DESC_COUNT
  {
    Carved(p, c, Total(c))
  }

  lemma {:induction false} CarvedSize(p: nat, c: nat, n: nat)
    requires c < DESC_COUNT
    ensures |Carved(p, c, n)| == n
  {
    if n > 0 {
      CarvedSize(p, c, n - 1);
      CarvedNext(p, c, n - 1);
    }
  }

  lemma CarvedNext(p: nat, c: nat, n: nat)
    requires c < DESC_COUNT
    ensures Carved(p, c, n + 1) == Carved(p, c, n) + {Block(p, c, n)}
    ensures Block(p, c, n) !in Carved(p, c, n)
  {
    forall i | 0 <= i < n ensures Block(p, c, i) != Block(p, c, n) {
      BlocksApart(p, c, i, n);
    }
  }

  // The free list after carving n blocks: each was pushed in front.
  function Pile(p: nat, c: nat, n: nat): seq<nat>
    requires c < DESC_COUNT
  {
    if n == 0 then [] else [Block(p, c, n - 1)] + Pile(p, c, n - 1)
  }

  lemma {:induction false} PileMembers(p: nat, c: nat, n: nat)
    requires c < DESC_COUNT
    ensures NoDup(Pile(p, c, n)) && forall b :: b in Pile(p, c, n) <==> b in Carved(p, c, n)
  {
    hide Block;
    if n > 0 {
      PileMembers(p, c, n - 1);
      CarvedNext(p, c, n - 1);
    }
  }

  // The free list after withdrawing the first n blocks of a page.
  function WithoutPile(s: seq<nat>, p: nat, c: nat, n: nat): seq<nat>
    requires c < DESC_COUNT
  {
    if n == 0 then s else Without(WithoutPile(s, p, c, n - 1), Block(p, c, n - 1))
  }

  lemma {:induction false} WithoutPileMembers(s: seq<nat>, p: nat, c: nat, n: nat)
    requires c < DESC_COUNT && NoDup(s)
    ensures NoDup(WithoutPile(s, p, c, n))
    ensures forall b :: b in WithoutPile(s, p, c, n) <==> b in s && b !in Carved(p, c, n)
  {
    hide Block;
    if n > 0 {
      WithoutPileMembers(s, p, c, n - 1);
      WithoutMembers(WithoutPile(s, p, c, n - 1), Block(p, c, n - 1));
      CarvedNext(p, c, n - 1);
    }
  }

  // ------------------------------------------------------------ invariant

  function Extent(a: Arena): nat {
    if a.Small? then 1 else a.count
  }

  predicate PageUsed(h: Heap, p: nat) {
    h.first <= p < h.first + |h.used| && h.used[p - h.first]
  }

  // Arenas have pages of their own, all marked used.
  ghost predicate Paged(h: Heap) {
    && (forall p :: p in h.arenas ==>
          h.first <= p && 0 < Extent(h.arenas[p]) && p + Extent(h.arenas[p]) <= h.first + |h.used|
          && forall i :: p <= i < p + Extent(h.arenas[p]) ==> PageUsed(h, i))
    && (forall p, q :: p in h.arenas && q in h.arenas && p < q ==> p + Extent(h.arenas[p]) <= q)
  }

  // b is a block of class c, of a page cut up for it.
  predicate IsBlock(arenas: map<nat, Arena>, c: nat, b: nat) {
    && c < DESC_COUNT && PageOf(b) in arenas && arenas[PageOf(b)].Small? && arenas[PageOf(b)].cls == c
    && b in Blocks(PageOf(b), c)
  }

  predicate Classed(h: Heap) {
    |h.free| == DESC_COUNT == |h.pages| &&
    forall p :: p in h.arenas && h.arenas[p].Small? ==> h.arenas[p].cls < DESC_COUNT
  }

  // A class's free list is exactly the blocks of its pages that are not allocated.
  ghost predicate Listed(h: Heap)
    requires Classed(h)
  {
    && (forall c :: 0 <= c < DESC_COUNT ==> NoDup(h.free[c]))
    && (forall c, b {:trigger b in h.free[c]} {:trigger IsBlock(h.arenas, c, b)} ::
          0 <= c < DESC_COUNT ==> (b in h.free[c] <==> IsBlock(h.arenas, c, b) && b !in h.live))
  }

  // A live pointer is a block big enough, or starts behind the header of a big enough run.
  predicate Fits(arenas: map<nat, Arena>, b: nat, size: nat) {
    PageOf(b) in arenas &&
    if arenas[PageOf(b)].Small? then
      IsBlock(arenas, arenas[PageOf(b)].cls, b) && size <= Size(arenas[PageOf(b)].cls)
    else
      b == Start(PageOf(b)) && size + HEADER <= arenas[PageOf(b)].count * PAGE_SIZE
  }

  ghost predicate Allotted(h: Heap) {
    && (forall b :: b in h.live ==> Fits(h.arenas, b, h.live[b]))
    && (forall p :: p in h.arenas && h.arenas[p].Large? ==> Start(p) in h.live)
  }

  function FreeIn(free: seq<nat>, p: nat, c: nat): set<nat>
    requires c < DESC_COUNT
  {
    set b | b in Blocks(p, c) && b in free
  }

  function PagesOf(arenas: map<nat, Arena>, c: nat): set<nat> {
    set p | p in arenas && arenas[p].Small? && arenas[p].cls == c
  }

  // A page's count is its free blocks, a class's page_count its pages.
  ghost predicate Counted(h: Heap)
    requires Classed(h)
  {
    && (forall p :: p in h.arenas && h.arenas[p].Small? ==>
          h.arenas[p].count == |FreeIn(h.free[h.arenas[p].cls], p, h.arenas[p].cls)|)
    && (forall c :: 0 <= c < DESC_COUNT ==> h.pages[c] == |PagesOf(h.arenas, c)|)
  }

  ghost predicate Inv(h: Heap) {
    Paged(h) && Classed(h) && Listed(h) && Allotted(h) && Counted(h)
  }

  // ----------------------------------------------- what the invariant means

  // The bytes a live pointer may use.
  predicate Within(h: Heap, b: nat, x: nat)
    requires b in h.live
  {
    b <= x < b + h.live[b]
  }

  // No byte belongs to two live pointers.
  lemma LiveApart(h: Heap, a: nat, b: nat, x: nat)
    requires Inv(h) && a in h.live && b in h.live && Within(h, a, x) && Within(h, b, x)
    ensures a == b
  {
    LiveInExtent(h, a, x);
    LiveInExtent(h, b, x);
    hide Listed, Counted, Block;
    ExtentsApart(h, PageOf(a), PageOf(b), x);
    var p := PageOf(a);
    if h.arenas[p].Small? {
      hide Paged;
      BytesApart(p, h.arenas[p].cls, a, b, x);
    }
  }

  lemma ExtentsApart(h: Heap, p: nat, q: nat, x: nat)
    requires Paged(h) && p in h.arenas && q in h.arenas
    requires p * PAGE_SIZE <= x < (p + Extent(h.arenas[p])) * PAGE_SIZE
    requires q * PAGE_SIZE <= x < (q + Extent(h.arenas[q])) * PAGE_SIZE
    ensures p == q
  {}

  lemma BytesApart(p: nat, c: nat, a: nat, b: nat, x: nat)
    requires c < DESC_COUNT && a in Blocks(p, c) && b in Blocks(p, c) && a <= x < a + Size(c) && b <= x < b + Size(c)
    ensures a == b
  {
    hide Block;
    var i: nat :| i < Total(c) && a == Block(p, c, i);
    var j: nat :| j < Total(c) && b == Block(p, c, j);
    if i < j {
      BlocksApart(p, c, i, j);
    } else if j < i {
      BlocksApart(p, c, j, i);
    }
  }

  // Nor to a live pointer and a header, or to a live pointer and another arena's pages.
  lemma LiveInExtent(h: Heap, b: nat, x: nat)
    requires Inv(h) && b in h.live && Within(h, b, x)
    ensures PageOf(b) in h.arenas
    ensures var p := PageOf(b); Start(p) <= x < (p + Extent(h.arenas[p])) * PAGE_SIZE
  {
    hide Listed, Counted, Paged;
    var p := PageOf(b);
    if h.arenas[p].Small? {
      var c := h.arenas[p].cls;
      var i: nat :| i < Total(c) && b == Block(p, c, i);
      BlockInPage(p, c, i);
    }
  }

  // ---------------------------------------------------------- operations

  // count pages from p on that are not in use
  predicate FreeRun(h: Heap, p: nat, count: nat) {
    h.first <= p && p + count <= h.first + |h.used| && forall i :: p <= i < p + count ==> !PageUsed(h, i)
  }

  // kmalloc over 1024: a run of whole pages.
  function TakePages(h: Heap, p: nat, count: nat, size: nat): Heap
    requires h.first <= p && p + count <= h.first + |h.used|
  {
    h.(used := Bitmap.Fill(h.used, p - h.first, count, true), arenas := h.arenas[p := Large(count)],
       live := h.live[Start(p) := size])
  }

  // A new page is cut into blocks of class c.
  function Carve(h: Heap, p: nat, c: nat): Heap
    requires h.first <= p < h.first + |h.used| && c < DESC_COUNT == |h.free| == |h.pages|
  {
    h.(used := Bitmap.Fill(h.used, p - h.first, 1, true), arenas := h.arenas[p := Small(c, Total(c))],
       free := h.free[c := Pile(p, c, Total(c)) + h.free[c]], pages := h.pages[c := h.pages[c] + 1])
  }

  function Charge(arenas: map<nat, Arena>, p: nat, n: int): map<nat, Arena>
    requires p in arenas && arenas[p].Small? && arenas[p].count + n >= 0
  {
    arenas[p := Small(arenas[p].cls, arenas[p].count + n)]
  }

  // The first free block of class c is handed out.
  function TakeBlock(h: Heap, c: nat, size: nat): Heap
    requires c < DESC_COUNT == |h.free| && h.free[c] != []
    requires var p := PageOf(h.free[c][0]); p in h.arenas && h.arenas[p].Small? && h.arenas[p].count > 0
  {
    var b := h.free[c][0];
    h.(free := h.free[c := h.free[c][1..]], arenas := Charge(h.arenas, PageOf(b), -1), live := h.live[b := size])
  }

  // Block b comes back.
  function GiveBlock(h: Heap, b: nat): Heap
    requires |h.free| == DESC_COUNT && PageOf(b) in h.arenas && h.arenas[PageOf(b)].Small? &&
      h.arenas[PageOf(b)].cls < DESC_COUNT
  {
    var c := h.arenas[PageOf(b)].cls;
    h.(free := h.free[c := [b] + h.free[c]], arenas := Charge(h.arenas, PageOf(b), 1), live := h.live - {b})
  }

  // A page with no block in use is withdrawn.
  function Withdraw(h: Heap, p: nat): Heap
    requires |h.free| == DESC_COUNT == |h.pages| && p in h.arenas && h.arenas[p].Small? && h.arenas[p].cls < DESC_COUNT
    requires h.first <= p < h.first + |h.used| && h.pages[h.arenas[p].cls] > 0
  {
    var c := h.arenas[p].cls;
    h.(free := h.free[c := WithoutPile(h.free[c], p, c, Total(c))], used := Bitmap.Fill(h.used, p - h.first, 1, false),
       pages := h.pages[c := h.pages[c] - 1], arenas := h.arenas - {p})
  }

  // A run of pages comes back.
  function GivePages(h: Heap, p: nat): Heap
    requires p in h.arenas && h.arenas[p].Large? && h.first <= p && p + h.arenas[p].count <= h.first + |h.used|
  {
    h.(used := Bitmap.Fill(h.used, p - h.first, h.arenas[p].count, false), arenas := h.arenas - {p},
       live := h.live - {Start(p)})
  }

  // --------------------------------------------------- what each one keeps

  lemma TakePagesPaged(h: Heap, p: nat, count: nat, size: nat)
    requires Paged(h) && count > 0 && FreeRun(h, p, count)
    ensures p !in h.arenas && Paged(TakePages(h, p, count, size))
  {
    var m := TakePages(h, p, count, size);
    forall q | q in h.arenas ensures q != p && (q < p ==> q + Extent(h.arenas[q]) <= p) && (p < q ==> p + count <= q) {
      assert PageUsed(h, q);
      assert q < p < q + Extent(h.arenas[q]) ==> PageUsed(h, p);
    }
    assert forall i :: PageUsed(h, i) ==> PageUsed(m, i);
    assert forall i :: p <= i < p + count ==> PageUsed(m, i);
  }

  lemma TakePagesKeeps(h: Heap, p: nat, count: nat, size: nat)
    requires Inv(h) && count > 0 && FreeRun(h, p, count) && size + HEADER <= count * PAGE_SIZE
    ensures Inv(TakePages(h, p, count, size)) && Start(p) !in h.live
  {
    TakePagesPaged(h, p, count, size);
    hide Paged, PageUsed, FreeRun, Listed, Allotted, Counted;
    LargeListed(h, p, count, size);
    LargeCounted(h, p, count, size);
  }

  // A run that is too small for what was asked is the one way to spoil the heap.
  lemma TakePagesIff(h: Heap, p: nat, count: nat, size: nat)
    requires Inv(h) && count > 0 && FreeRun(h, p, count)
    ensures Start(p) !in h.live && (Inv(TakePages(h, p, count, size)) <==> size + HEADER <= count * PAGE_SIZE)
  {
    TakePagesPaged(h, p, count, size);
    assert PageOf(Start(p)) == p;
    hide Paged, PageUsed, Listed, Counted, PageOf;
    assert Start(p) in h.live ==> Fits(h.arenas, Start(p), h.live[Start(p)]);
    if size + HEADER <= count * PAGE_SIZE {
      TakePagesKeeps(h, p, count, size);
    } else {
      assert !Fits(TakePages(h, p, count, size).arenas, Start(p), size);
    }
  }

  lemma LargeListed(h: Heap, p: nat, count: nat, size: nat)
    requires Classed(h) && Listed(h) && Allotted(h) && p !in h.arenas && size + HEADER <= count * PAGE_SIZE
    requires h.first <= p && p + count <= h.first + |h.used|
    ensures var m := TakePages(h, p, count, size); Classed(m) && Listed(m) && Allotted(m)
    ensures Start(p) !in h.live
  {
    var m := TakePages(h, p, count, size);
    var a := Start(p);
    assert PageOf(a) == p;
    NewArena(h.arenas, p, Large(count));
    assert Fits(m.arenas, a, size);
    hide IsBlock, Fits, PageOf, Blocks;
    forall e, b | 0 <= e < DESC_COUNT ensures b in m.free[e] <==> IsBlock(m.arenas, e, b) && b !in m.live {
      assert b in h.free[e] <==> IsBlock(h.arenas, e, b) && b !in h.live;
    }
  }

  lemma LargeCounted(h: Heap, p: nat, count: nat, size: nat)
    requires Classed(h) && Counted(h) && p !in h.arenas && h.first <= p && p + count <= h.first + |h.used|
    ensures Counted(TakePages(h, p, count, size))
  {
    var m := TakePages(h, p, count, size);
    forall c ensures PagesOf(m.arenas, c) == PagesOf(h.arenas, c) {}
    hide PagesOf, FreeIn;
  }

  lemma BlocksPage(p: nat, c: nat, b: nat)
    requires c < DESC_COUNT && b in Blocks(p, c)
    ensures PageOf(b) == p
  {
    hide Block;
    var i: nat :| i < Total(c) && b == Block(p, c, i);
    BlockInPage(p, c, i);
  }

  lemma NewArena(arenas: map<nat, Arena>, p: nat, a: Arena)
    requires p !in arenas
    ensures forall e: nat, b: nat ::
      IsBlock(arenas[p := a], e, b) == (IsBlock(arenas, e, b) || (a.Small? && e == a.cls && IsBlock(map[p := a], e, b)))
    ensures forall e, b :: IsBlock(arenas, e, b) ==> PageOf(b) != p
    ensures forall b, size :: Fits(arenas, b, size) ==> PageOf(b) != p && Fits(arenas[p := a], b, size)
  {
    hide Blocks, PageOf;
  }

  lemma LessArena(arenas: map<nat, Arena>, p: nat)
    ensures forall e, b :: IsBlock(arenas - {p}, e, b) == (IsBlock(arenas, e, b) && PageOf(b) != p)
    ensures forall b, size :: Fits(arenas - {p}, b, size) == (Fits(arenas, b, size) && PageOf(b) != p)
  {
    hide Blocks, PageOf;
  }

  // Counting blocks in or out changes neither a page's class nor what fits it.
  lemma ChargeSame(arenas: map<nat, Arena>, p: nat, n: int)
    requires p in arenas && arenas[p].Small? && arenas[p].count + n >= 0
    ensures var m := Charge(arenas, p, n);
      && (forall c, b :: IsBlock(m, c, b) == IsBlock(arenas, c, b))
      && (forall b, size :: Fits(m, b, size) == Fits(arenas, b, size))
      && (forall c :: PagesOf(m, c) == PagesOf(arenas, c))
      && m.Keys == arenas.Keys
      && forall q :: q in m ==> Extent(m[q]) == Extent(arenas[q]) && m[q].Small? == arenas[q].Small?
  {
    hide Blocks, PageOf;
    var m := Charge(arenas, p, n);
    forall c, b ensures IsBlock(m, c, b) == IsBlock(arenas, c, b) {}
    forall b, size ensures Fits(m, b, size) == Fits(arenas, b, size) {}
    forall c ensures PagesOf(m, c) == PagesOf(arenas, c) {}
  }

  // -------------------------------------------------------- carving a page

  lemma CarvePaged(h: Heap, p: nat, c: nat)
    requires Paged(h) && FreeRun(h, p, 1) && c < DESC_COUNT == |h.free| == |h.pages|
    ensures p !in h.arenas && Paged(Carve(h, p, c))
  {
    hide Pile;
    var m := Carve(h, p, c);
    forall q | q in h.arenas ensures q != p && (q < p ==> q + Extent(h.arenas[q]) <= p) {
      assert PageUsed(h, q);
      assert q < p < q + Extent(h.arenas[q]) ==> PageUsed(h, p);
    }
    assert forall i :: PageUsed(h, i) ==> PageUsed(m, i);
    assert PageUsed(m, p);
  }

  lemma CarveListed(h: Heap, p: nat, c: nat)
    requires Classed(h) && Listed(h) && Allotted(h) && p !in h.arenas && c < DESC_COUNT &&
      h.first <= p < h.first + |h.used|
    ensures var m := Carve(h, p, c); Classed(m) && Listed(m) && Allotted(m)
  {
    var m := Carve(h, p, c);
    PileMembers(p, c, Total(c));
    NewArena(h.arenas, p, Small(c, Total(c)));
    forall b | b in Blocks(p, c) ensures PageOf(b) == p {
      BlocksPage(p, c, b);
    }
    assert forall b :: b in Pile(p, c, Total(c)) <==> b in Blocks(p, c);
    hide Start;
    hide IsBlock, Fits, Pile, PageOf, Blocks, Carved;
    forall e, b | 0 <= e < DESC_COUNT ensures b in m.free[e] <==> IsBlock(m.arenas, e, b) && b !in m.live {
      assert b in h.free[e] <==> IsBlock(h.arenas, e, b) && b !in h.live;
    }
    AppendNoDup(Pile(p, c, Total(c)), h.free[c]);
  }

  lemma AppendNoDup<T>(a: seq<T>, b: seq<T>)
    requires NoDup(a) && NoDup(b) && forall x :: x in a ==> x !in b
    ensures NoDup(a + b)
  {
    forall i, j | 0 <= i < j < |a + b| ensures (a + b)[i] != (a + b)[j] {
      assert i < |a| ==> a[i] in a;
      assert j >= |a| ==> b[j - |a|] in b;
    }
  }

  lemma CarveFreeIn(free: seq<nat>, p: nat, c: nat)
    requires c < DESC_COUNT && forall b :: b in free ==> PageOf(b) != p
    ensures FreeIn(Pile(p, c, Total(c)) + free, p, c) == Blocks(p, c)
    ensures forall q :: q != p ==> FreeIn(Pile(p, c, Total(c)) + free, q, c) == FreeIn(free, q, c)
  {
    hide PageOf, Pile, Blocks;
    PileIsBlocks(p, c);
    forall q | q != p ensures FreeIn(Pile(p, c, Total(c)) + free, q, c) == FreeIn(free, q, c) {
      forall b | b in Blocks(q, c) ensures b !in Pile(p, c, Total(c)) {
        BlocksPage(q, c, b);
        if b in Blocks(p, c) {
          BlocksPage(p, c, b);
        }
      }
    }
  }

  lemma PileIsBlocks(p: nat, c: nat)
    requires c < DESC_COUNT
    ensures forall b :: b in Pile(p, c, Total(c)) <==> b in Blocks(p, c)
  {
    PileMembers(p, c, Total(c));
  }

  lemma CarveCounted(h: Heap, p: nat, c: nat)
    requires Classed(h) && Counted(h) && p !in h.arenas && c < DESC_COUNT && h.first <= p < h.first + |h.used|
    requires forall b :: b in h.free[c] ==> PageOf(b) != p
    ensures Classed(Carve(h, p, c)) && Counted(Carve(h, p, c))
  {
    var m := Carve(h, p, c);
    CarvedSize(p, c, Total(c));
    CarveFreeIn(h.free[c], p, c);
    assert |Blocks(p, c)| == Total(c);
    hide FreeIn, Blocks, PageOf, Pile;
    NewPage(h.arenas, p, c, Total(c));
    hide PagesOf;
  }

  lemma NewPage(arenas: map<nat, Arena>, p: nat, c: nat, n: nat)
    requires p !in arenas
    ensures |PagesOf(arenas[p := Small(c, n)], c)| == |PagesOf(arenas, c)| + 1
    ensures forall e :: e != c ==> PagesOf(arenas[p := Small(c, n)], e) == PagesOf(arenas, e)
  {
    assert PagesOf(arenas[p := Small(c, n)], c) == PagesOf(arenas, c) + {p};
    forall e | e != c ensures PagesOf(arenas[p := Small(c, n)], e) == PagesOf(arenas, e) {}
  }

  lemma CarveKeeps(h: Heap, p: nat, c: nat)
    requires Inv(h) && FreeRun(h, p, 1) && c < DESC_COUNT
    ensures Inv(Carve(h, p, c)) && p !in h.arenas && Carve(h, p, c).free[c] != []
  {
    CarvePaged(h, p, c);
    FreeHavePages(h, c);
    PileMembers(p, c, Total(c));
    assert Block(p, c, 0) in Carved(p, c, Total(c));
    hide Paged, Listed, Allotted, Counted, FreeRun, Block;
    CarveListed(h, p, c);
    CarveCounted(h, p, c);
  }

  lemma FreeHavePages(h: Heap, c: nat)
    requires Classed(h) && Listed(h) && c < DESC_COUNT
    ensures forall b :: b in h.free[c] ==> PageOf(b) in h.arenas
  {}

  // ------------------------------------------------------ handing a block out

  lemma FirstFree(h: Heap, c: nat)
    requires Classed(h) && Listed(h) && Counted(h) && c < DESC_COUNT && h.free[c] != []
    ensures var b := h.free[c][0]; var p := PageOf(b);
      && p in h.arenas && h.arenas[p].Small? && h.arenas[p].cls == c && h.arenas[p].count > 0 && b !in h.live
      && b in Blocks(p, c) && IsBlock(h.arenas, c, b)
  {
    var b := h.free[c][0];
    assert b in h.free[c];
    assert IsBlock(h.arenas, c, b);
    assert b in FreeIn(h.free[c], PageOf(b), c);
  }

  lemma TakeBlockKeeps(h: Heap, c: nat, size: nat)
    requires Inv(h) && c < DESC_COUNT && h.free[c] != [] && size <= Size(c)
    ensures var p := PageOf(h.free[c][0]); p in h.arenas && h.arenas[p].Small? && h.arenas[p].count > 0
    ensures Inv(TakeBlock(h, c, size)) && h.free[c][0] !in h.live
  {
    FirstFree(h, c);
    hide Paged, Listed, Allotted, Counted, IsBlock, PageOf, Blocks;
    TakeBlockPaged(h, c, size);
    TakeBlockListed(h, c, size);
    TakeBlockCounted(h, c, size);
  }

  lemma TakeBlockPaged(h: Heap, c: nat, size: nat)
    requires Classed(h) && Paged(h) && c < DESC_COUNT && h.free[c] != []
    requires var p := PageOf(h.free[c][0]); p in h.arenas && h.arenas[p].Small? && h.arenas[p].count > 0
    ensures Paged(TakeBlock(h, c, size))
  {
    var m := TakeBlock(h, c, size);
    ChargeSame(h.arenas, PageOf(h.free[c][0]), -1);
    assert forall i :: PageUsed(m, i) == PageUsed(h, i);
    hide PageUsed, PageOf, IsBlock, Fits, PagesOf;
  }

  lemma TakeBlockListed(h: Heap, c: nat, size: nat)
    requires Classed(h) && Listed(h) && Allotted(h) && c < DESC_COUNT && h.free[c] != [] && size <= Size(c)
    requires var p := PageOf(h.free[c][0]);
      p in h.arenas && h.arenas[p].Small? && h.arenas[p].cls == c && h.arenas[p].count > 0
    requires IsBlock(h.arenas, c, h.free[c][0])
    ensures var m := TakeBlock(h, c, size); Classed(m) && Listed(m) && Allotted(m)
  {
    var b := h.free[c][0];
    ChargeSame(h.arenas, PageOf(b), -1);
    TailMembers(h.free[c]);
    assert Fits(h.arenas, b, size);
    assert forall e :: IsBlock(h.arenas, e, b) ==> e == c;
    var m := TakeBlock(h, c, size);
    hide Start;
    hide IsBlock, Fits, PagesOf, PageOf, Blocks;
    forall e, x | 0 <= e < DESC_COUNT ensures x in m.free[e] <==> IsBlock(m.arenas, e, x) && x !in m.live {
      assert x in h.free[e] <==> IsBlock(h.arenas, e, x) && x !in h.live;
    }
  }

  lemma TailMembers(s: seq<nat>)
    requires NoDup(s) && s != []
    ensures NoDup(s[1..]) && forall b :: b in s[1..] <==> b in s && b != s[0]
  {
    assert s == [s[0]] + s[1..];
  }

  lemma TakeBlockCounted(h: Heap, c: nat, size: nat)
    requires Classed(h) && Listed(h) && Counted(h) && c < DESC_COUNT && h.free[c] != []
    requires var p := PageOf(h.free[c][0]);
      p in h.arenas && h.arenas[p].Small? && h.arenas[p].cls == c && h.arenas[p].count > 0 &&
      h.free[c][0] in Blocks(p, c)
    ensures Classed(TakeBlock(h, c, size)) && Counted(TakeBlock(h, c, size))
  {
    var m := TakeBlock(h, c, size);
    var b := h.free[c][0];
    var p := PageOf(b);
    TailMembers(h.free[c]);
    ChargeSame(h.arenas, p, -1);
    OneLess(h.free[c], m.free[c], p, c, b);
    hide FreeIn, PagesOf, Listed, Blocks, PageOf, IsBlock, Fits;
  }

  // Block b of page p is on the first list and not on the second.
  lemma OneLess(more: seq<nat>, less: seq<nat>, p: nat, c: nat, b: nat)
    requires c < DESC_COUNT && b in Blocks(p, c) && b in more && forall x :: x in less <==> x in more && x != b
    ensures |FreeIn(less, p, c)| == |FreeIn(more, p, c)| - 1
    ensures forall q :: q != p ==> FreeIn(less, q, c) == FreeIn(more, q, c)
  {
    BlocksPage(p, c, b);
    assert FreeIn(less, p, c) == FreeIn(more, p, c) - {b};
    assert b in FreeIn(more, p, c);
    forall q | q != p ensures FreeIn(less, q, c) == FreeIn(more, q, c) {
      if b in Blocks(q, c) {
        BlocksPage(q, c, b);
      }
    }
  }

  // ------------------------------------------------------------- giving back

  lemma GiveBlockKeeps(h: Heap, b: nat)
    requires Inv(h) && b in h.live && PageOf(b) in h.arenas && h.arenas[PageOf(b)].Small?
    ensures h.arenas[PageOf(b)].cls < DESC_COUNT && Inv(GiveBlock(h, b)) && b !in h.free[h.arenas[PageOf(b)].cls]
  {
    assert Fits(h.arenas, b, h.live[b]);
    var c := h.arenas[PageOf(b)].cls;
    assert b in h.free[c] <==> IsBlock(h.arenas, c, b) && b !in h.live;
    hide Paged, Listed, Allotted, Counted, PageOf, Blocks;
    GiveBlockPaged(h, b);
    GiveBlockListed(h, b);
    GiveBlockCounted(h, b);
  }

  lemma GiveBlockPaged(h: Heap, b: nat)
    requires Classed(h) && Paged(h) && PageOf(b) in h.arenas && h.arenas[PageOf(b)].Small?
    ensures Paged(GiveBlock(h, b))
  {
    var m := GiveBlock(h, b);
    ChargeSame(h.arenas, PageOf(b), 1);
    assert forall i :: PageUsed(m, i) == PageUsed(h, i);
    hide PageUsed, PageOf, IsBlock, Fits, PagesOf;
  }

  lemma GiveBlockListed(h: Heap, b: nat)
    requires Classed(h) && Listed(h) && Allotted(h) && b in h.live && PageOf(b) in h.arenas
    requires h.arenas[PageOf(b)].Small? && IsBlock(h.arenas, h.arenas[PageOf(b)].cls, b)
    ensures var m := GiveBlock(h, b); Classed(m) && Listed(m) && Allotted(m)
  {
    hide Blocks, Fits;
    GiveBlockLists(h, b);
    GiveBlockAllots(h, b);
  }

  lemma GiveBlockLists(h: Heap, b: nat)
    requires Classed(h) && Listed(h) && b in h.live && PageOf(b) in h.arenas
    requires h.arenas[PageOf(b)].Small? && IsBlock(h.arenas, h.arenas[PageOf(b)].cls, b)
    ensures var m := GiveBlock(h, b); Classed(m) && Listed(m)
  {
    hide Blocks;
    var p := PageOf(b);
    var c := h.arenas[p].cls;
    ChargeSame(h.arenas, p, 1);
    assert forall e :: IsBlock(h.arenas, e, b) ==> e == c;
    var m := GiveBlock(h, b);
    hide IsBlock, PageOf;
    forall e, x | 0 <= e < DESC_COUNT ensures x in m.free[e] <==> IsBlock(m.arenas, e, x) && x !in m.live {
      assert x in h.free[e] <==> IsBlock(h.arenas, e, x) && x !in h.live;
    }
    assert b !in h.free[c];
  }

  lemma GiveBlockAllots(h: Heap, b: nat)
    requires Classed(h) && Allotted(h) && PageOf(b) in h.arenas && h.arenas[PageOf(b)].Small?
    ensures Allotted(GiveBlock(h, b))
  {
    hide Blocks;
    ChargeSame(h.arenas, PageOf(b), 1);
    forall q | q in h.arenas && h.arenas[q].Large? ensures Start(q) != b {
      assert PageOf(Start(q)) == q;
    }
    hide IsBlock, Fits, PageOf, Start;
  }

  lemma GiveBlockCounted(h: Heap, b: nat)
    requires Classed(h) && Counted(h) && PageOf(b) in h.arenas && h.arenas[PageOf(b)].Small?
    requires IsBlock(h.arenas, h.arenas[PageOf(b)].cls, b) && b !in h.free[h.arenas[PageOf(b)].cls]
    ensures Classed(GiveBlock(h, b)) && Counted(GiveBlock(h, b))
  {
    var m := GiveBlock(h, b);
    var p := PageOf(b);
    var c := h.arenas[p].cls;
    ChargeSame(h.arenas, p, 1);
    OneLess(m.free[c], h.free[c], p, c, b);
    hide FreeIn, PagesOf, Blocks, PageOf, IsBlock, Fits;
  }

  // A page whose count is full has all its blocks on the free list, and none in use.
  lemma FullIsFree(h: Heap, p: nat)
    requires Classed(h) && Listed(h) && Counted(h) && p in h.arenas && h.arenas[p].Small?
    requires h.arenas[p].count == Total(h.arenas[p].cls)
    ensures forall b :: b in Blocks(p, h.arenas[p].cls) ==> b in h.free[h.arenas[p].cls] && b !in h.live
  {
    var c := h.arenas[p].cls;
    CarvedSize(p, c, Total(c));
    SameSize(FreeIn(h.free[c], p, c), Blocks(p, c));
    forall b | b in Blocks(p, c) ensures b in h.free[c] && b !in h.live {
      assert b in FreeIn(h.free[c], p, c);
    }
  }

  lemma {:induction false} SameSize<T>(a: set<T>, b: set<T>)
    requires a <= b && |a| == |b|
    ensures a == b
  {
    if x :| x in a {
      SameSize(a - {x}, b - {x});
    }
  }

  lemma WithdrawPaged(h: Heap, p: nat)
    requires Classed(h) && Paged(h) && p in h.arenas && h.arenas[p].Small? && h.pages[h.arenas[p].cls] > 0
    ensures h.first <= p < h.first + |h.used| && Paged(Withdraw(h, p))
  {
    var m := Withdraw(h, p);
    assert forall i :: PageUsed(m, i) == (PageUsed(h, i) && i != p);
    hide PageUsed;
  }

  lemma WithdrawListed(h: Heap, p: nat)
    requires Classed(h) && Listed(h) && Allotted(h) && p in h.arenas && h.arenas[p].Small?
    requires h.pages[h.arenas[p].cls] > 0 && h.first <= p < h.first + |h.used|
    requires forall b :: b in h.live ==> PageOf(b) != p
    ensures var m := Withdraw(h, p); Classed(m) && Listed(m) && Allotted(m)
  {
    var m := Withdraw(h, p);
    var c := h.arenas[p].cls;
    WithoutPileMembers(h.free[c], p, c, Total(c));
    forall b | b in Blocks(p, c) ensures PageOf(b) == p {
      BlocksPage(p, c, b);
    }
    assert forall e, b :: IsBlock(h.arenas, e, b) && PageOf(b) == p ==> e == c && b in Blocks(p, c);
    LessArena(h.arenas, p);
    assert forall b :: b in m.free[c] <==> b in h.free[c] && b !in Blocks(p, c);
    hide Start;
    hide IsBlock, Fits, WithoutPile, PageOf, Blocks, Carved;
    forall e, b | 0 <= e < DESC_COUNT ensures b in m.free[e] <==> IsBlock(m.arenas, e, b) && b !in m.live {
      assert b in h.free[e] <==> IsBlock(h.arenas, e, b) && b !in h.live;
    }
  }

  lemma WithdrawFreeIn(free: seq<nat>, p: nat, c: nat)
    requires c < DESC_COUNT && NoDup(free)
    ensures forall q :: q != p ==> FreeIn(WithoutPile(free, p, c, Total(c)), q, c) == FreeIn(free, q, c)
  {
    WithoutPileMembers(free, p, c, Total(c));
    forall q, b | b in Blocks(q, c) ensures PageOf(b) == q {
      BlocksPage(q, c, b);
    }
    hide PageOf, WithoutPile, Blocks;
  }

  lemma WithdrawCounted(h: Heap, p: nat)
    requires Classed(h) && Listed(h) && Counted(h) && p in h.arenas && h.arenas[p].Small?
    requires h.pages[h.arenas[p].cls] > 0 && h.first <= p < h.first + |h.used|
    ensures Classed(Withdraw(h, p)) && Counted(Withdraw(h, p))
  {
    var m := Withdraw(h, p);
    var c := h.arenas[p].cls;
    WithdrawFreeIn(h.free[c], p, c);
    hide FreeIn, Blocks, PageOf, WithoutPile, Listed;
    PageGone(h.arenas, p);
    hide PagesOf;
  }

  lemma PageGone(arenas: map<nat, Arena>, p: nat)
    requires p in arenas && arenas[p].Small?
    ensures |PagesOf(arenas - {p}, arenas[p].cls)| == |PagesOf(arenas, arenas[p].cls)| - 1
    ensures forall e :: e != arenas[p].cls ==> PagesOf(arenas - {p}, e) == PagesOf(arenas, e)
  {
    var c := arenas[p].cls;
    assert p in PagesOf(arenas, c);
    assert PagesOf(arenas - {p}, c) == PagesOf(arenas, c) - {p};
    forall e | e != c ensures PagesOf(arenas - {p}, e) == PagesOf(arenas, e) {}
  }

  // A page goes back only when none of its blocks is in use.
  lemma WithdrawKeeps(h: Heap, p: nat)
    requires Inv(h) && p in h.arenas && h.arenas[p].Small? && h.arenas[p].count == Total(h.arenas[p].cls)
    requires h.pages[h.arenas[p].cls] > 0
    ensures h.first <= p < h.first + |h.used| && Inv(Withdraw(h, p))
    ensures forall b :: b in h.live ==> PageOf(b) != p
  {
    FullIsFree(h, p);
    hide Counted, Listed, Blocks, PageOf;
    forall b | b in h.live ensures PageOf(b) != p {
      assert Fits(h.arenas, b, h.live[b]);
    }
    hide Allotted;
    WithdrawPaged(h, p);
    hide Paged;
    WithdrawListed(h, p);
    WithdrawCounted(h, p);
  }

  lemma GivePagesKeeps(h: Heap, p: nat)
    requires Inv(h) && p in h.arenas && h.arenas[p].Large?
    ensures h.first <= p && p + h.arenas[p].count <= h.first + |h.used| && Inv(GivePages(h, p))
  {
    hide Listed, Allotted, Counted;
    GivePagesPaged(h, p);
    hide Paged;
    GivePagesListed(h, p);
    GivePagesCounted(h, p);
  }

  lemma GivenUsed(h: Heap, p: nat)
    requires p in h.arenas && h.arenas[p].Large? && h.first <= p && p + h.arenas[p].count <= h.first + |h.used|
    ensures var m := GivePages(h, p);
      forall i: nat :: PageUsed(m, i) == (PageUsed(h, i) && !(p <= i < p + h.arenas[p].count))
  {}

  lemma GivePagesPaged(h: Heap, p: nat)
    requires Paged(h) && p in h.arenas && h.arenas[p].Large?
    ensures h.first <= p && p + h.arenas[p].count <= h.first + |h.used| && Paged(GivePages(h, p))
  {
    hide PageUsed;
    var m := GivePages(h, p);
    GivenUsed(h, p);
    forall q, i: nat | q in m.arenas && q <= i < q + Extent(m.arenas[q]) ensures PageUsed(m, i) {
      assert PageUsed(h, i);
    }
  }

  lemma GivePagesListed(h: Heap, p: nat)
    requires Classed(h) && Listed(h) && Allotted(h) && p in h.arenas && h.arenas[p].Large?
    requires h.first <= p && p + h.arenas[p].count <= h.first + |h.used|
    ensures var m := GivePages(h, p); Classed(m) && Listed(m) && Allotted(m)
  {
    var m := GivePages(h, p);
    LessArena(h.arenas, p);
    hide Start;
    LargeAlone(h, p);
    hide IsBlock, Fits, PageOf, Blocks;
    forall e, b | 0 <= e < DESC_COUNT ensures b in m.free[e] <==> IsBlock(m.arenas, e, b) && b !in m.live {
      assert b in h.free[e] <==> IsBlock(h.arenas, e, b) && b !in h.live;
    }
  }

  // The pages of a large run hold one live pointer, and no block.
  lemma LargeAlone(h: Heap, p: nat)
    requires Allotted(h) && p in h.arenas && h.arenas[p].Large?
    ensures forall e, b :: IsBlock(h.arenas, e, b) ==> PageOf(b) != p
    ensures forall b :: b in h.live ==> Fits(h.arenas, b, h.live[b]) && (b != Start(p) ==> PageOf(b) != p)
    ensures PageOf(Start(p)) == p
    ensures forall q :: q in h.arenas && h.arenas[q].Large? && q != p ==> Start(q) in h.live - {Start(p)}
  {
    hide Blocks;
  }

  lemma GivePagesCounted(h: Heap, p: nat)
    requires Classed(h) && Counted(h) && p in h.arenas && h.arenas[p].Large?
    requires h.first <= p && p + h.arenas[p].count <= h.first + |h.used|
    ensures Classed(GivePages(h, p)) && Counted(GivePages(h, p))
  {
    var m := GivePages(h, p);
    forall c ensures PagesOf(m.arenas, c) == PagesOf(h.arenas, c) {}
    hide PagesOf, FreeIn;
  }
}
