// What bmap with create, and inode_write, do to the device, as functions of the
// device before; what they mean for flat files; and runs of writes and truncations.
module FileWrites {
  import opened ZoneTree
  import opened ZoneGrowth

  // ------------------------------------------------------------------ balloc

  // bitmap_scan for one bit from zone z on.
  function FreeFrom(used: seq<bool>, z: nat): (w: nat)
    ensures z <= w && (w < |used| ==> !used[w])
    ensures forall i :: z <= i < w && i < |used| ==> used[i]
    decreases |used| - z
  {
    if z >= |used| || !used[z] then z else FreeFrom(used, z + 1)
  }

  // The zone balloc takes: the lowest free one. Without one it goes on to the next block of
  // the zone bitmap, of which there is none, and stops in its assertion.
  function FirstFree(d: Disk): (z: nat)
    ensures d.first <= z
  {
    FreeFrom(d.used, d.first)
  }

  predicate HasFree(d: Disk) {
    FirstFree(d) < |d.used|
  }

  lemma HasFreeIff(d: Disk)
    ensures HasFree(d) <==> FreeSet(d) != {}
  {
    if HasFree(d) {
      assert FirstFree(d) in FreeSet(d);
    }
  }

  // -------------------------------------------------------------------- bmap

  // The array that slot q is in can be read.
  predicate Reachable(d: Disk, nr: nat, q: Path)
    requires Shaped(d) && nr < |d.inodes| && ValidSlot(q)
  {
    |q| > 1 ==> 0 < ZoneAt(d, nr, Parent(q)) < |d.blocks|
  }

  predicate Empty(d: Disk, nr: nat, q: Path)
    requires Shaped(d) && nr < |d.inodes| && ValidSlot(q)
  {
    ZoneAt(d, nr, q) == 0 && Reachable(d, nr, q)
  }

  // One round: an empty slot gets the lowest free zone. Where there is none nothing changes.
  function Filled(d: Disk, nr: nat, q: Path): (e: Disk)
    requires Shaped(d) && nr < |d.inodes| && ValidSlot(q)
    ensures Shaped(e) && |e.inodes| == |d.inodes| && |e.blocks| == |d.blocks| && e.first == d.first
  {
    if Empty(d, nr, q) && HasFree(d) then Attach(d, nr, q, FirstFree(d)) else d
  }

  // The first k rounds on the way to slot p.
  function Walked(d: Disk, nr: nat, p: Path, k: nat): (e: Disk)
    requires Shaped(d) && nr < |d.inodes| && ValidSlot(p) && k <= |p|
    ensures Shaped(e) && |e.inodes| == |d.inodes| && |e.blocks| == |d.blocks| && e.first == d.first
    decreases k
  {
    if k == 0 then d else Filled(Walked(d, nr, p, k - 1), nr, Upto(p, k))
  }

  // bmap with create.
  function WalkedTo(d: Disk, nr: nat, block: nat): (e: Disk)
    requires Shaped(d) && nr < |d.inodes| && block < TOTAL_BLOCK
    ensures Shaped(e) && |e.inodes| == |d.inodes| && |e.blocks| == |d.blocks| && e.first == d.first
  {
    Walked(d, nr, SlotOf(block), |SlotOf(block)|)
  }

  // The assumption on balloc: a zone that is taken as an index block reads as zeros.
  predicate TakesBlank(d: Disk, nr: nat, q: Path)
    requires Shaped(d) && nr < |d.inodes| && ValidSlot(q)
  {
    Empty(d, nr, q) && LevelOf(q) > 0 && HasFree(d) ==> Blank(d.blocks[FirstFree(d)])
  }

  predicate WalkBlank(d: Disk, nr: nat, p: Path, k: nat)
    requires Shaped(d) && nr < |d.inodes| && ValidSlot(p) && k <= |p|
    decreases k
  {
    k == 0 || (WalkBlank(d, nr, p, k - 1) && TakesBlank(Walked(d, nr, p, k - 1), nr, Upto(p, k)))
  }

  predicate BlockBlank(d: Disk, nr: nat, block: nat)
    requires Shaped(d) && nr < |d.inodes| && block < TOTAL_BLOCK
  {
    WalkBlank(d, nr, SlotOf(block), |SlotOf(block)|)
  }

  lemma {:induction false} WalkBlankUpto(d: Disk, nr: nat, p: Path, j: nat, k: nat)
    requires Shaped(d) && nr < |d.inodes| && ValidSlot(p) && j <= k <= |p| && WalkBlank(d, nr, p, k)
    ensures WalkBlank(d, nr, p, j)
    decreases k
  {
    if j < k {
      WalkBlankUpto(d, nr, p, j, k - 1);
    }
  }

  // The way to a slot is the same after filling it.
  lemma FilledAt(d: Disk, nr: nat, q: Path)
    requires Inv(d) && nr < |d.inodes| && ValidSlot(q) && Reachable(d, nr, q)
    ensures Reachable(Filled(d, nr, q), nr, q)
    ensures ZoneAt(Filled(d, nr, q), nr, q) ==
      if ZoneAt(d, nr, q) == 0 && HasFree(d) then FirstFree(d) else ZoneAt(d, nr, q)
    ensures |q| > 1 ==> ZoneAt(Filled(d, nr, q), nr, Parent(q)) == ZoneAt(d, nr, Parent(q))
  {
    if Empty(d, nr, q) && HasFree(d) {
      SlotSet(d, nr, q, FirstFree(d), d.used[FirstFree(d) := true]);
    }
  }

  // Every slot on the way to p, up to the k-th, names a zone.
  predicate OnPath(d: Disk, nr: nat, p: Path, k: nat)
    requires Shaped(d) && nr < |d.inodes| && ValidSlot(p) && k <= |p|
  {
    forall j :: 1 <= j <= k ==> ZoneAt(d, nr, Upto(p, j)) != 0
  }

  // What rounds on the way to p make of a: each zone taken fills a slot that was missing.
  ghost predicate Further(a: Disk, e: Disk, nr: nat, p: Path, from: nat, to: nat) {
    && Inv(a) && Inv(e) && nr < |a.inodes| == |e.inodes| && ValidSlot(p) && to <= TOTAL_BLOCK
    && Grown(a, e, nr, p) && Lack(e, nr, from, to) == Lack(a, nr, from, to)
  }

  lemma RoundKeeps(a: Disk, d: Disk, nr: nat, block: nat, k: nat, from: nat, to: nat)
    requires from <= block < to <= TOTAL_BLOCK && 1 <= k <= |SlotOf(block)|
    requires Further(a, d, nr, SlotOf(block), from, to) && TakesBlank(d, nr, Upto(SlotOf(block), k))
    ensures Further(a, Filled(d, nr, Upto(SlotOf(block), k)), nr, SlotOf(block), from, to)
  {
    hide Distinct, Mapped, ZoneAt, SlotOf, Lack, SlotsGrown, UsedGrown, SameContents;
    var q := Upto(SlotOf(block), k);
    if Empty(d, nr, q) && HasFree(d) {
      GrownAttach(a, d, nr, SlotOf(block), q, FirstFree(d));
      LackAttach(d, nr, from, to, block, k, FirstFree(d));
    }
  }

  // A round on from a slot that names a zone fills the next slot, or there is no free zone.
  lemma RoundOnPath(d: Disk, nr: nat, p: Path, k: nat)
    requires Inv(d) && nr < |d.inodes| && ValidSlot(p) && 1 <= k <= |p| && OnPath(d, nr, p, k - 1)
    requires TakesBlank(d, nr, Upto(p, k))
    ensures OnPath(Filled(d, nr, Upto(p, k)), nr, p, k) || (ZoneAt(d, nr, Upto(p, k)) == 0 && FreeSet(d) == {})
  {
    hide Distinct, Mapped, ZoneAt;
    var q := Upto(p, k);
    HasFreeIff(d);
    if k > 1 {
      assert Parent(q) == Upto(p, k - 1) && Owns(d, nr, Upto(p, k - 1));
    }
    if ZoneAt(d, nr, q) == 0 && HasFree(d) {
      AttachOnly(d, nr, q, FirstFree(d));
      forall j | 1 <= j <= k ensures ZoneAt(Filled(d, nr, q), nr, Upto(p, j)) != 0 {
        assert ValidSlot(Upto(p, j));
      }
    }
  }

  // The rounds of a walk keep the trees; they all find a zone unless the device has too few.
  lemma {:induction false} WalkKeeps(d: Disk, nr: nat, block: nat, k: nat, from: nat, to: nat)
    requires Inv(d) && nr < |d.inodes| && from <= block < to <= TOTAL_BLOCK && k <= |SlotOf(block)|
    requires WalkBlank(d, nr, SlotOf(block), k)
    ensures var p := SlotOf(block); var e := Walked(d, nr, p, k);
      Further(d, e, nr, p, from, to) && (OnPath(e, nr, p, k) || Lack(d, nr, from, to) > 0)
    decreases k
  {
    hide Distinct, Marked, Mapped, ZoneAt, SlotOf, Grown, Inv, Filled;
    var p := SlotOf(block);
    if k == 0 {
      GrownRefl(d, nr, p);
    } else {
      WalkKeeps(d, nr, block, k - 1, from, to);
      var b := Walked(d, nr, p, k - 1);
      RoundKeeps(d, b, nr, block, k, from, to);
      if OnPath(b, nr, p, k - 1) {
        RoundOnPath(b, nr, p, k);
        if ZoneAt(b, nr, Upto(p, k)) == 0 && FreeSet(b) == {} {
          assert Upto(p, k) in Missing(b, nr, from, to);
        }
      }
    }
  }

  lemma WalkInv(d: Disk, nr: nat, block: nat, k: nat)
    requires Inv(d) && nr < |d.inodes| && block < TOTAL_BLOCK && k <= |SlotOf(block)| && BlockBlank(d, nr, block)
    ensures Inv(Walked(d, nr, SlotOf(block), k))
  {
    hide Marked, Distinct, Mapped, ZoneAt, SlotOf, Walked, Grown;
    WalkBlankUpto(d, nr, SlotOf(block), k, |SlotOf(block)|);
    WalkKeeps(d, nr, block, k, block, block + 1);
  }

  // A round that leaves its slot empty is the last one that could do anything.
  lemma {:induction false} WalkOff(d: Disk, nr: nat, p: Path, k: nat, m: nat)
    requires Shaped(d) && nr < |d.inodes| && ValidSlot(p) && 1 <= k <= m <= |p|
    requires ZoneAt(Walked(d, nr, p, k), nr, Upto(p, k)) == 0
    ensures Walked(d, nr, p, m) == Walked(d, nr, p, k) && ZoneAt(Walked(d, nr, p, m), nr, Upto(p, m)) == 0
    decreases m
  {
    hide ZoneAt;
    var e := Walked(d, nr, p, k);
    if k < m {
      WalkOff(d, nr, p, k, m - 1);
      assert Parent(Upto(p, m)) == Upto(p, m - 1);
      EmptyBelow(e, nr, Upto(p, k), Upto(p, m));
    }
  }

  // The slot of the block names a zone of the device.
  predicate AtBlock(d: Disk, nr: nat, block: nat)
    requires Shaped(d) && nr < |d.inodes| && block < TOTAL_BLOCK
  {
    0 < ZoneAt(d, nr, SlotOf(block)) < |d.blocks|
  }

  // bmap with create keeps the trees and every file's bytes, and gets to the block's zone
  // unless the device has too few.
  lemma WalkedToKeeps(d: Disk, nr: nat, block: nat, from: nat, to: nat)
    requires Inv(d) && nr < |d.inodes| && from <= block < to <= TOTAL_BLOCK && BlockBlank(d, nr, block)
    ensures var e := WalkedTo(d, nr, block);
      Further(d, e, nr, SlotOf(block), from, to) && (AtBlock(e, nr, block) || Lack(d, nr, from, to) > 0)
  {
    hide Distinct, Mapped, ZoneAt, SlotOf, Lack, Grown, Walked;
    var p := SlotOf(block);
    var e := WalkedTo(d, nr, block);
    WalkKeeps(d, nr, block, |p|, from, to);
    assert Upto(p, |p|) == p;
    if OnPath(e, nr, p, |p|) {
      assert Owns(e, nr, p);
    }
  }

  lemma PathOf(d: Disk, nr: nat, p: Path)
    requires Shaped(d) && nr < |d.inodes| && ValidSlot(p) && ZoneAt(d, nr, p) != 0
    ensures OnPath(d, nr, p, |p|)
  {
    forall j | 1 <= j <= |p| ensures ZoneAt(d, nr, Upto(p, j)) != 0 {
      if ZoneAt(d, nr, Upto(p, j)) == 0 {
        EmptyBelow(d, nr, Upto(p, j), p);
      }
    }
  }

  // It gets there just when the device has a zone for each empty slot on the way.
  lemma WalkedToIff(d: Disk, nr: nat, block: nat)
    requires Inv(d) && nr < |d.inodes| && block < TOTAL_BLOCK && BlockBlank(d, nr, block)
    ensures AtBlock(WalkedTo(d, nr, block), nr, block) <==> Room(d, nr, block, block + 1)
  {
    hide ZoneAt, SlotOf, Walked, Grown;
    var e := WalkedTo(d, nr, block);
    WalkedToKeeps(d, nr, block, block, block + 1);
    if AtBlock(e, nr, block) {
      PathOf(e, nr, SlotOf(block));
      assert Missing(e, nr, block, block + 1) == {};
    } else {
      LackIffNotRoom(d, nr, block, block + 1);
    }
  }

  lemma LackIffNotRoom(d: Disk, nr: nat, from: nat, to: nat)
    requires Shaped(d) && nr < |d.inodes| && to <= TOTAL_BLOCK
    ensures Lack(d, nr, from, to) > 0 <==> !Room(d, nr, from, to)
  {}

  // ------------------------------------------------------------- inode_write

  function Min(a: nat, b: nat): nat {
    if a < b then a else b
  }

  // How many of left bytes go into the block at offset.
  function ChunkAt(offset: nat, left: nat): (n: nat)
    requires 0 < left
    ensures 0 < n <= left && offset % BLOCK_SIZE + n <= BLOCK_SIZE
  {
    Min(BLOCK_SIZE - offset % BLOCK_SIZE, left)
  }

  // The device after a write, and how many bytes are in place; fewer than there are to write
  // when balloc stopped for want of a zone.
  datatype Outcome = Outcome(disk: Disk, count: nat)

  // One round of the loop: bmap with create, and the bytes of one block.
  function Round(d: Disk, nr: nat, offset: nat, data: seq<byte>): (r: Outcome)
    requires Shaped(d) && nr < |d.inodes| && data != [] && offset + |data| <= TOTAL_BLOCK * BLOCK_SIZE
    ensures Shaped(r.disk) && |r.disk.inodes| == |d.inodes|
    ensures r.count == 0 || r.count == ChunkAt(offset, |data|)
  {
    var e, n := WalkedTo(d, nr, offset / BLOCK_SIZE), ChunkAt(offset, |data|);
    if AtBlock(e, nr, offset / BLOCK_SIZE) then Outcome(PutChunk(e, nr, offset, data[..n]), n) else Outcome(e, 0)
  }

  function Written(d: Disk, nr: nat, offset: nat, data: seq<byte>): (r: Outcome)
    requires Shaped(d) && nr < |d.inodes| && offset + |data| <= TOTAL_BLOCK * BLOCK_SIZE
    ensures Shaped(r.disk) && |r.disk.inodes| == |d.inodes| && r.count <= |data|
    decreases |data|
  {
    if data == [] then Outcome(d, 0)
    else
      var m := Round(d, nr, offset, data);
      if m.count == 0 then m
      else
        var r := Written(m.disk, nr, offset + m.count, data[m.count..]);
        Outcome(r.disk, m.count + r.count)
  }

  // Each zone that this write takes as an index block reads as zeros.
  predicate WriteBlank(d: Disk, nr: nat, offset: nat, data: seq<byte>)
    requires Shaped(d) && nr < |d.inodes| && offset + |data| <= TOTAL_BLOCK * BLOCK_SIZE
    decreases |data|
  {
    data == [] ||
    var m := Round(d, nr, offset, data);
    && BlockBlank(d, nr, offset / BLOCK_SIZE)
    && (m.count > 0 ==> WriteBlank(m.disk, nr, offset + m.count, data[m.count..]))
  }

  // The first block behind the bytes before end.
  function EndBlock(end: nat): nat {
    (end + BLOCK_SIZE - 1) / BLOCK_SIZE
  }

  // File nr had bytes spliced in at begin; every other file is as it was.
  ghost predicate Wrote(a: Disk, d: Disk, nr: nat, begin: nat, bytes: seq<byte>)
    requires Inv(a) && Inv(d) && nr < |a.inodes| && begin <= a.inodes[nr].size
  {
    && |d.inodes| == |a.inodes|
    && Mapped(a, nr) && Mapped(d, nr) && Content(d, nr) == Splice(Content(a, nr), begin, bytes)
    && forall mr :: 0 <= mr < |a.inodes| && mr != nr ==>
         Mapped(a, mr) && Mapped(d, mr) && Content(d, mr) == Content(a, mr)
  }

  // A round's bytes, for the contents ...
  lemma ChunkWrote(a: Disk, d: Disk, nr: nat, offset: nat, chunk: seq<byte>)
    requires Inv(a) && Inv(d) && nr < |a.inodes| == |d.inodes| && SameContents(a, d)
    requires offset <= a.inodes[nr].size && CanPut(d, nr, offset, chunk)
    ensures Inv(PutChunk(d, nr, offset, chunk)) && Wrote(a, PutChunk(d, nr, offset, chunk), nr, offset, chunk)
  {
    hide Distinct, Marked, Mapped, Content, ByteAt, ZoneAt, Splice, SlotOf;
    var e := PutChunk(d, nr, offset, chunk);
    PutKeeps(d, nr, offset, chunk);
    PutContent(d, nr, offset, chunk, nr);
    forall mr | 0 <= mr < |a.inodes| && mr != nr
      ensures Mapped(a, mr) && Mapped(e, mr) && Content(e, mr) == Content(a, mr)
    {
      PutContent(d, nr, offset, chunk, mr);
    }
  }

  // ... and for the zones that are still wanted.
  lemma ChunkLack(d: Disk, nr: nat, offset: nat, chunk: seq<byte>, to: nat)
    requires Inv(d) && CanPut(d, nr, offset, chunk) && offset / BLOCK_SIZE < to <= TOTAL_BLOCK
    ensures var e := PutChunk(d, nr, offset, chunk);
      Shaped(e) && Lack(e, nr, (offset + |chunk|) / BLOCK_SIZE, to) == Lack(d, nr, offset / BLOCK_SIZE, to)
  {
    hide Distinct, Marked, Mapped, ZoneAt, SlotOf;
    var e := PutChunk(d, nr, offset, chunk);
    var b := offset / BLOCK_SIZE;
    PutOnly(d, nr, offset, chunk);
    PathOf(d, nr, SlotOf(b));
    assert Missing(e, nr, (offset + |chunk|) / BLOCK_SIZE, to) == Missing(d, nr, b, to);
    assert FreeSet(e) == FreeSet(d);
  }

  lemma PutOnly(d: Disk, nr: nat, offset: nat, chunk: seq<byte>)
    requires Inv(d) && CanPut(d, nr, offset, chunk)
    ensures var e := PutChunk(d, nr, offset, chunk);
      Shaped(e) && forall q :: ValidSlot(q) ==> ZoneAt(e, nr, q) == ZoneAt(d, nr, q)
  {
    hide Distinct, Marked, Mapped;
    var e := PutChunk(d, nr, offset, chunk);
    forall q | ValidSlot(q) ensures ZoneAt(e, nr, q) == ZoneAt(d, nr, q) {
      PutSlots(d, nr, offset, chunk, nr, q);
    }
  }

  // A file that ends in the middle of a block has that block.
  lemma NothingLacks(d: Disk, nr: nat, offset: nat)
    requires Inv(d) && nr < |d.inodes| && offset <= d.inodes[nr].size
    ensures EndBlock(offset) <= TOTAL_BLOCK && Room(d, nr, offset / BLOCK_SIZE, EndBlock(offset))
  {
    hide Distinct, Marked;
    var b := offset / BLOCK_SIZE;
    if offset % BLOCK_SIZE != 0 {
      assert Mapped(d, nr) && b < TOTAL_BLOCK && b * BLOCK_SIZE < d.inodes[nr].size;
      PathOf(d, nr, SlotOf(b));
    }
    assert Missing(d, nr, b, EndBlock(offset)) == {};
  }

  lemma WroteTwice(a: Disk, b: Disk, c: Disk, nr: nat, begin: nat, x: seq<byte>, y: seq<byte>)
    requires Inv(a) && Inv(b) && Inv(c) && nr < |a.inodes| == |b.inodes| && begin <= a.inodes[nr].size
    requires Wrote(a, b, nr, begin, x) && begin + |x| <= b.inodes[nr].size && Wrote(b, c, nr, begin + |x|, y)
    ensures Wrote(a, c, nr, begin, x + y)
  {
    hide Distinct, Marked, Mapped, ByteAt, ZoneAt, Splice;
    SpliceTwice(Content(a, nr), begin, x, y);
  }

  lemma InvShaped(a: Disk)
    requires Inv(a)
    ensures Shaped(a)
  {}

  lemma WroteNothing(a: Disk, nr: nat, begin: nat)
    requires Inv(a) && nr < |a.inodes| && begin <= a.inodes[nr].size
    ensures Wrote(a, a, nr, begin, [])
  {
    assert Mapped(a, nr);
    assert Splice(Content(a, nr), begin, []) == Content(a, nr);
  }

  lemma FurtherCanPut(d: Disk, e: Disk, nr: nat, offset: nat, chunk: seq<byte>, p: Path, from: nat, to: nat)
    requires Further(d, e, nr, p, from, to) && offset <= d.inodes[nr].size && offset / BLOCK_SIZE < TOTAL_BLOCK
    requires AtBlock(e, nr, offset / BLOCK_SIZE) && 0 < |chunk| && offset % BLOCK_SIZE + |chunk| <= BLOCK_SIZE
    ensures Inv(d) && Inv(e) && nr < |d.inodes| == |e.inodes| && SameContents(d, e) && CanPut(e, nr, offset, chunk)
    ensures Lack(e, nr, from, to) == Lack(d, nr, from, to)
  {
    hide Distinct, Marked, Mapped, ZoneAt, SlotOf, SlotsGrown, UsedGrown, Lack, ByteAt, Content;
  }

  // One round of the loop: from d, bmap leads to e, and the bytes go in there.
  lemma RoundWrote(d: Disk, e: Disk, nr: nat, offset: nat, chunk: seq<byte>, to: nat)
    requires offset / BLOCK_SIZE < to <= TOTAL_BLOCK && 0 < |chunk| && offset % BLOCK_SIZE + |chunk| <= BLOCK_SIZE
    requires Further(d, e, nr, SlotOf(offset / BLOCK_SIZE), offset / BLOCK_SIZE, to)
    requires offset <= d.inodes[nr].size && AtBlock(e, nr, offset / BLOCK_SIZE)
    ensures Inv(d) && CanPut(e, nr, offset, chunk)
    ensures var f := PutChunk(e, nr, offset, chunk);
      && Inv(f) && Wrote(d, f, nr, offset, chunk) && nr < |f.inodes| && offset + |chunk| <= f.inodes[nr].size
      && Lack(f, nr, (offset + |chunk|) / BLOCK_SIZE, to) == Lack(d, nr, offset / BLOCK_SIZE, to)
  {
    hide Distinct, Marked, Mapped, ZoneAt, SlotOf, SlotsGrown, UsedGrown, Lack, ByteAt, Content, SameContents, Wrote;
    FurtherCanPut(d, e, nr, offset, chunk, SlotOf(offset / BLOCK_SIZE), offset / BLOCK_SIZE, to);
    hide Further;
    ChunkWrote(d, e, nr, offset, chunk);
    ChunkLack(e, nr, offset, chunk, to);
  }

  // A round that stops in balloc has changed no byte.
  lemma StoppedWrote(d: Disk, e: Disk, nr: nat, offset: nat, p: Path, from: nat, to: nat)
    requires Further(d, e, nr, p, from, to) && offset <= d.inodes[nr].size
    ensures Inv(d) && Inv(e) && Wrote(d, e, nr, offset, [])
  {
    hide Distinct, Marked, ZoneAt, SlotsGrown, UsedGrown, Lack, ByteAt;
    assert Splice(Content(d, nr), offset, []) == Content(d, nr);
  }

  lemma LackIsRoom(a: Disk, b: Disk, nr: nat, from: nat, from': nat, to: nat)
    requires Shaped(a) && Shaped(b) && nr < |a.inodes| == |b.inodes| && to <= TOTAL_BLOCK
    requires Lack(a, nr, from, to) == Lack(b, nr, from', to)
    ensures Room(a, nr, from, to) <==> Room(b, nr, from', to)
  {}

  // Where bmap leads, the bytes can be put.
  lemma WalkedCanPut(d: Disk, nr: nat, offset: nat, data: seq<byte>)
    requires Inv(d) && nr < |d.inodes| && offset <= d.inodes[nr].size
    requires data != [] && offset + |data| <= TOTAL_BLOCK * BLOCK_SIZE && BlockBlank(d, nr, offset / BLOCK_SIZE)
    ensures offset / BLOCK_SIZE < TOTAL_BLOCK
    ensures var e, m := WalkedTo(d, nr, offset / BLOCK_SIZE), Round(d, nr, offset, data);
      if AtBlock(e, nr, offset / BLOCK_SIZE) then
        CanPut(e, nr, offset, data[..ChunkAt(offset, |data|)])
        && m == Outcome(PutChunk(e, nr, offset, data[..ChunkAt(offset, |data|)]), ChunkAt(offset, |data|))
        && Inv(m.disk) && offset + m.count <= m.disk.inodes[nr].size
      else m == Outcome(e, 0)
  {
    hide ZoneAt, SlotOf, ByteAt, Content, Splice, WalkedTo, PutChunk, Wrote, Inv, Grown, AtBlock, BlockBlank;
    InvShaped(d);
    var b := offset / BLOCK_SIZE;
    WalkedToKeeps(d, nr, b, b, b + 1);
    if AtBlock(WalkedTo(d, nr, b), nr, b) {
      RoundWrote(d, WalkedTo(d, nr, b), nr, offset, data[..ChunkAt(offset, |data|)], b + 1);
    }
  }

  // What a round leaves, by its two ends.
  lemma RoundKept(d: Disk, nr: nat, offset: nat, data: seq<byte>, to: nat)
    requires Inv(d) && nr < |d.inodes| && offset <= d.inodes[nr].size && data != []
    requires offset + |data| <= TOTAL_BLOCK * BLOCK_SIZE && to == EndBlock(offset + |data|)
    requires BlockBlank(d, nr, offset / BLOCK_SIZE)
    ensures offset / BLOCK_SIZE < to <= TOTAL_BLOCK
    ensures var m := Round(d, nr, offset, data);
      && Inv(m.disk) && Wrote(d, m.disk, nr, offset, data[..m.count])
      && if m.count > 0 then
           && offset + m.count <= m.disk.inodes[nr].size
           && Lack(m.disk, nr, (offset + m.count) / BLOCK_SIZE, to) == Lack(d, nr, offset / BLOCK_SIZE, to)
         else !Room(d, nr, offset / BLOCK_SIZE, to)
  {
    hide ZoneAt, SlotOf, ByteAt, Content, Splice, WalkedTo, PutChunk, Wrote, Inv, Grown, AtBlock, BlockBlank, Room,
      Lack;
    InvShaped(d);
    var b := offset / BLOCK_SIZE;
    var e := WalkedTo(d, nr, b);
    WalkedToKeeps(d, nr, b, b, to);
    if AtBlock(e, nr, b) {
      RoundWrote(d, e, nr, offset, data[..ChunkAt(offset, |data|)], to);
    } else {
      StoppedWrote(d, e, nr, offset, SlotOf(b), b, to);
      LackIffNotRoom(d, nr, b, to);
    }
  }

  lemma EndInReach(end: nat)
    requires end <= TOTAL_BLOCK * BLOCK_SIZE
    ensures EndBlock(end) <= TOTAL_BLOCK
  {}

  // inode_write splices the bytes it puts in place into its own file and leaves the others
  // alone; it puts all of them in place just when the device has a zone for each slot missing.
  lemma {:induction false} WrittenKeeps(d: Disk, nr: nat, offset: nat, data: seq<byte>)
    requires Inv(d) && nr < |d.inodes| && offset <= d.inodes[nr].size && offset + |data| <= TOTAL_BLOCK * BLOCK_SIZE
    requires WriteBlank(d, nr, offset, data)
    ensures EndBlock(offset + |data|) <= TOTAL_BLOCK
    ensures var r := Written(d, nr, offset, data);
      && Inv(r.disk) && Wrote(d, r.disk, nr, offset, data[..r.count])
      && (r.count == |data| <==> Room(d, nr, offset / BLOCK_SIZE, EndBlock(offset + |data|)))
    decreases |data|
  {
    hide ZoneAt, SlotOf, ByteAt, Content, Splice, Wrote, Inv, Round, BlockBlank, Lack, Room, EndBlock;
    InvShaped(d);
    EndInReach(offset + |data|);
    if data == [] {
      NothingLacks(d, nr, offset);
      WroteNothing(d, nr, offset);
    } else {
      var m := Round(d, nr, offset, data);
      var n := m.count;
      RoundKept(d, nr, offset, data, EndBlock(offset + |data|));
      if n > 0 {
        assert (offset + n) + |data[n..]| == offset + |data|;
        var r := Written(m.disk, nr, offset + n, data[n..]);
        WrittenKeeps(m.disk, nr, offset + n, data[n..]);
        LackIsRoom(d, m.disk, nr, offset / BLOCK_SIZE, (offset + n) / BLOCK_SIZE, EndBlock(offset + |data|));
        WroteTwice(d, m.disk, r.disk, nr, offset, data[..n], data[n..][..r.count]);
        assert data[..n] + data[n..][..r.count] == data[..n + r.count];
      }
    }
  }

  // On a device without a free zone nothing is written to a block that the file does not have.
  lemma FullDevice(d: Disk, nr: nat, offset: nat, data: seq<byte>)
    requires Inv(d) && nr < |d.inodes| && data != [] && offset + |data| <= TOTAL_BLOCK * BLOCK_SIZE
    requires !HasFree(d) && ZoneAt(d, nr, SlotOf(offset / BLOCK_SIZE)) == 0
    ensures Written(d, nr, offset, data) == Outcome(d, 0)
  {
    hide ZoneAt, SlotOf, Inv, Filled;
    InvShaped(d);
    NothingFilled(d, nr, SlotOf(offset / BLOCK_SIZE), |SlotOf(offset / BLOCK_SIZE)|);
    assert WalkedTo(d, nr, offset / BLOCK_SIZE) == d;
  }

  lemma {:induction false} NothingFilled(d: Disk, nr: nat, p: Path, k: nat)
    requires Shaped(d) && nr < |d.inodes| && ValidSlot(p) && k <= |p| && !HasFree(d)
    ensures Walked(d, nr, p, k) == d
    decreases k
  {
    hide Empty, Attach, HasFree;
    if k > 0 {
      NothingFilled(d, nr, p, k - 1);
    }
  }

  // ------------------------------------------------------ the loop, half way

  function After(pos: nat, r: Outcome): Outcome {
    Outcome(r.disk, pos + r.count)
  }

  // With pos bytes in place on disk d the rest of the write is still to do.
  predicate Left(a: Disk, d: Disk, nr: nat, begin: nat, data: seq<byte>, pos: nat) {
    && Shaped(a) && Shaped(d) && nr < |a.inodes| == |d.inodes| && begin + |data| <= TOTAL_BLOCK * BLOCK_SIZE
    && pos <= |data| && WriteBlank(d, nr, begin + pos, data[pos..])
    && Written(a, nr, begin, data) == After(pos, Written(d, nr, begin + pos, data[pos..]))
  }

  lemma LeftAtStart(a: Disk, nr: nat, begin: nat, data: seq<byte>)
    requires Shaped(a) && nr < |a.inodes| && begin + |data| <= TOTAL_BLOCK * BLOCK_SIZE &&
      WriteBlank(a, nr, begin, data)
    ensures Left(a, a, nr, begin, data, 0)
  {
    assert data[0..] == data;
  }

  lemma LeftAtEnd(a: Disk, d: Disk, nr: nat, begin: nat, data: seq<byte>)
    requires Left(a, d, nr, begin, data, |data|)
    ensures Written(a, nr, begin, data) == Outcome(d, |data|)
  {}

  // A round of the loop takes from one such disk to the next, or is where the write stops.
  lemma LeftNext(a: Disk, d: Disk, nr: nat, begin: nat, data: seq<byte>, pos: nat)
    requires Left(a, d, nr, begin, data, pos) && pos < |data|
    ensures (begin + pos) / BLOCK_SIZE < TOTAL_BLOCK && BlockBlank(d, nr, (begin + pos) / BLOCK_SIZE)
    ensures var m := Round(d, nr, begin + pos, data[pos..]);
      if m.count > 0 then Left(a, m.disk, nr, begin, data, pos + m.count)
      else Written(a, nr, begin, data) == Outcome(m.disk, pos)
  {
    hide Round, BlockBlank, ChunkAt;
    var m := Round(d, nr, begin + pos, data[pos..]);
    assert data[pos..][m.count..] == data[pos + m.count..];
  }

  // ------------------------------------------------------------------ runs

  datatype FileOp = DoWrite(nr: nat, begin: nat, bytes: seq<byte>) | DoTruncate(nr: nat)

  // inode_truncate: the inode is empty and exactly its zones are free.
  ghost function TruncatedDisk(a: Disk, nr: nat): Disk
    requires Shaped(a) && nr < |a.inodes|
  {
    a.(inodes := a.inodes[nr := Inode(0, seq(ZONE_SLOTS, i => 0))],
       used := seq(|a.used|, z requires 0 <= z < |a.used| => a.used[z] && !Below(a, nr, [], z)))
  }

  // A zone that held bytes of a file keeps them when it is freed. When it is the one balloc
  // takes next, as the index block of a file that has grown out of its direct blocks, it brings
  // slots with it that nobody filled.
  lemma StaleIndex(a: Disk, nr: nat, block: nat, i: nat, mr: nat)
    requires Inv(a) && nr < |a.inodes| && block < TOTAL_BLOCK && AtBlock(a, nr, block)
    requires i < BLOCK_INDEXES && U16At(a.blocks[ZoneAt(a, nr, SlotOf(block))], i) != 0
    requires mr < |a.inodes| && mr != nr && ZoneAt(a, mr, [DIRECT_BLOCK]) == 0
    requires FirstFree(TruncatedDisk(a, nr)) == ZoneAt(a, nr, SlotOf(block))
    ensures var d, p := TruncatedDisk(a, nr), SlotOf(DIRECT_BLOCK); var e := Walked(d, mr, p, 1);
      Inv(d) && !OnlySlotAdded(d, e, mr, Upto(p, 1), ZoneAt(e, mr, Upto(p, 1)))
  {
    hide Distinct, Mapped;
    var z, p := ZoneAt(a, nr, SlotOf(block)), SlotOf(DIRECT_BLOCK);
    var d := TruncatedDisk(a, nr);
    TruncatedKeeps(a, d, nr);
    TruncatedSlots(a, d, nr, mr, [DIRECT_BLOCK]);
    assert Owns(a, nr, SlotOf(block)) && [] <= SlotOf(block);
    assert Below(a, nr, [], z);
    assert Upto(p, 1) == [DIRECT_BLOCK];
    assert Walked(d, mr, p, 1) == Filled(Walked(d, mr, p, 0), mr, [DIRECT_BLOCK]) == Attach(d, mr, [DIRECT_BLOCK], z);
    AttachOnlyIff(d, mr, [DIRECT_BLOCK], z);
  }

  // The arguments are the source's, and the device has the zones that the call wants.
  ghost predicate Enabled(d: Disk, op: FileOp) {
    && Shaped(d) && op.nr < |d.inodes|
    && (op.DoWrite? ==>
          && op.begin <= d.inodes[op.nr].size && op.begin + |op.bytes| <= TOTAL_BLOCK * BLOCK_SIZE
          && Room(d, op.nr, op.begin / BLOCK_SIZE, EndBlock(op.begin + |op.bytes|))
          && WriteBlank(d, op.nr, op.begin, op.bytes))
  }

  ghost function Step(d: Disk, op: FileOp): Disk
    requires Enabled(d, op)
  {
    if op.DoWrite? then Written(d, op.nr, op.begin, op.bytes).disk else TruncatedDisk(d, op.nr)
  }

  // Each call can be made in the state the calls before it left.
  ghost predicate EnabledRun(d: Disk, ops: seq<FileOp>)
    decreases |ops|
  {
    ops == [] || (Enabled(d, ops[0]) && EnabledRun(Step(d, ops[0]), ops[1..]))
  }

  ghost function Run(d: Disk, ops: seq<FileOp>): Disk
    requires EnabledRun(d, ops)
    decreases |ops|
  {
    if ops == [] then d else Run(Step(d, ops[0]), ops[1..])
  }

  // All files of the device, as flat byte sequences.
  function FilesOf(d: Disk): (f: seq<seq<byte>>)
    requires Shaped(d)
    ensures |f| == |d.inodes|
  {
    seq(|d.inodes|, nr requires 0 <= nr < |d.inodes| => Content(d, nr))
  }

  // The same call on flat byte sequences.
  function FlatStep(f: seq<seq<byte>>, op: FileOp): seq<seq<byte>> {
    if op.nr >= |f| then f
    else if op.DoTruncate? then f[op.nr := []]
    else if op.begin <= |f[op.nr]| then f[op.nr := Splice(f[op.nr], op.begin, op.bytes)]
    else f
  }

  function FlatRun(f: seq<seq<byte>>, ops: seq<FileOp>): seq<seq<byte>>
    decreases |ops|
  {
    if ops == [] then f else FlatRun(FlatStep(f, ops[0]), ops[1..])
  }

  lemma StepIsFlat(d: Disk, op: FileOp)
    requires Inv(d) && Enabled(d, op)
    ensures Inv(Step(d, op)) && FilesOf(Step(d, op)) == FlatStep(FilesOf(d), op)
  {
    hide Marked, Distinct, Mapped, ByteAt, Splice, Content, ZoneAt, WriteBlank, Written, Room;
    if op.DoTruncate? {
      TruncatedKeeps(d, TruncatedDisk(d, op.nr), op.nr);
    } else {
      WrittenKeeps(d, op.nr, op.begin, op.bytes);
      assert op.bytes[..|op.bytes|] == op.bytes;
    }
    var f, g := FilesOf(Step(d, op)), FlatStep(FilesOf(d), op);
    forall mr: nat | mr < |f| ensures f[mr] == g[mr] {
      assert f[mr] == Content(Step(d, op), mr);
    }
  }

  // Over any run of writes and truncations the zones stay owned by one slot each, and the
  // files are what the same run makes of flat byte sequences.
  lemma {:induction false} RunIsFlat(d: Disk, ops: seq<FileOp>)
    requires Inv(d) && EnabledRun(d, ops)
    ensures Inv(Run(d, ops)) && FilesOf(Run(d, ops)) == FlatRun(FilesOf(d), ops)
    decreases |ops|
  {
    hide Inv, Step, FilesOf, FlatStep, Enabled;
    InvShaped(d);
    if ops != [] {
      StepIsFlat(d, ops[0]);
      RunIsFlat(Step(d, ops[0]), ops[1..]);
    }
  }
}
