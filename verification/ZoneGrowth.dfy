// What a call of bmap, and a call of inode_truncate, mean for the whole device.
module ZoneGrowth {
  import opened ZoneTree

  // ------------------------------------------------------------- growing

  function Upto(p: Path, k: nat): Path
    requires k <= |p|
  {
    p[..k]
  }

  // b comes from a by filling empty slots on the way to slot p of file nr.
  ghost predicate Grown(a: Disk, b: Disk, nr: nat, p: Path)
    requires Inv(a) && Inv(b) && nr < |a.inodes| && ValidSlot(p)
  {
    && |a.inodes| == |b.inodes| && |a.blocks| == |b.blocks| && a.first == b.first
    && SameContents(a, b) && SlotsGrown(a, b, nr, p) && UsedGrown(a, b, nr, p)
  }

  ghost predicate SameContents(a: Disk, b: Disk)
    requires Inv(a) && Inv(b) && |a.inodes| == |b.inodes|
  {
    forall mr :: 0 <= mr < |a.inodes| ==>
      Mapped(a, mr) && Mapped(b, mr) && b.inodes[mr].size == a.inodes[mr].size && Content(b, mr) == Content(a, mr)
  }

  ghost predicate SlotsGrown(a: Disk, b: Disk, nr: nat, p: Path)
    requires Inv(a) && Inv(b) && |a.inodes| == |b.inodes|
  {
    forall mr, q :: 0 <= mr < |a.inodes| && ValidSlot(q) ==>
      ZoneAt(b, mr, q) == ZoneAt(a, mr, q) || (mr == nr && q <= p && ZoneAt(a, mr, q) == 0)
  }

  // The zones newly marked used are exactly those put into slots on the way to p.
  ghost predicate UsedGrown(a: Disk, b: Disk, nr: nat, p: Path)
    requires Inv(a) && Inv(b) && nr < |a.inodes| == |b.inodes| && |a.blocks| == |b.blocks|
  {
    && (forall z :: 0 <= z < |a.used| && a.used[z] ==> b.used[z])
    && (forall z :: 0 <= z < |a.used| && b.used[z] && !a.used[z] ==>
          exists q :: Owns(b, nr, q) && q <= p && ZoneAt(b, nr, q) == z && ZoneAt(a, nr, q) == 0)
  }

  lemma GrownRefl(a: Disk, nr: nat, p: Path)
    requires Inv(a) && nr < |a.inodes| && ValidSlot(p)
    ensures Grown(a, a, nr, p)
  {}

  lemma GrownAttach(a: Disk, b: Disk, nr: nat, p: Path, q: Path, z: nat)
    requires Inv(a) && Inv(b) && nr < |a.inodes| && ValidSlot(p) && Grown(a, b, nr, p)
    requires CanAttach(b, nr, q, z) && q <= p && (LevelOf(q) > 0 ==> Blank(b.blocks[z]))
    ensures Inv(Attach(b, nr, q, z)) && Grown(a, Attach(b, nr, q, z), nr, p)
  {
    var c := Attach(b, nr, q, z);
    AttachKeeps(b, nr, q, z);
    AttachOnly(b, nr, q, z);
    assert SameContents(a, c) by {
      forall mr | 0 <= mr < |a.inodes|
        ensures Mapped(a, mr) && Mapped(c, mr)
        ensures c.inodes[mr].size == a.inodes[mr].size && Content(c, mr) == Content(a, mr)
      {
        AttachContent(b, nr, q, z, mr);
      }
    }
    UsedGrownAttach(a, b, nr, p, q, z);
  }

  lemma UsedGrownAttach(a: Disk, b: Disk, nr: nat, p: Path, q: Path, z: nat)
    requires Inv(a) && Inv(b) && nr < |a.inodes| == |b.inodes| && |a.blocks| == |b.blocks| && ValidSlot(p)
    requires SlotsGrown(a, b, nr, p) && UsedGrown(a, b, nr, p)
    requires CanAttach(b, nr, q, z) && q <= p && Inv(Attach(b, nr, q, z))
    requires OnlySlotAdded(b, Attach(b, nr, q, z), nr, q, z)
    ensures UsedGrown(a, Attach(b, nr, q, z), nr, p)
  {
    var c := Attach(b, nr, q, z);
    forall w | 0 <= w < |a.used| && c.used[w] && !a.used[w]
      ensures exists r :: Owns(c, nr, r) && r <= p && ZoneAt(c, nr, r) == w && ZoneAt(a, nr, r) == 0
    {
      if w == z {
        assert Owns(c, nr, q) && q <= p && ZoneAt(c, nr, q) == w;
      } else {
        var r :| Owns(b, nr, r) && r <= p && ZoneAt(b, nr, r) == w && ZoneAt(a, nr, r) == 0;
        assert Owns(c, nr, r) && ZoneAt(c, nr, r) == w;
      }
    }
  }

  // ------------------------------------------------------ room on the device

  ghost function FreeSet(disk: Disk): set<nat> {
    set z: nat | disk.first <= z < |disk.used| && !disk.used[z]
  }

  // The empty slots on the way to the blocks from..to of file nr.
  ghost function Missing(disk: Disk, nr: nat, from: nat, to: nat): set<Path>
    requires Shaped(disk) && nr < |disk.inodes| && to <= TOTAL_BLOCK
  {
    set b: nat, k: nat | from <= b < to && 1 <= k <= |SlotOf(b)| && ZoneAt(disk, nr, Upto(SlotOf(b), k)) == 0 ::
      Upto(SlotOf(b), k)
  }

  // A free zone for each missing slot.
  ghost predicate Room(disk: Disk, nr: nat, from: nat, to: nat)
    requires Shaped(disk) && nr < |disk.inodes| && to <= TOTAL_BLOCK
  {
    |Missing(disk, nr, from, to)| <= |FreeSet(disk)|
  }

  // What is missing beyond what is free; Room says that it is not positive.
  ghost function Lack(disk: Disk, nr: nat, from: nat, to: nat): int
    requires Shaped(disk) && nr < |disk.inodes| && to <= TOTAL_BLOCK
  {
    |Missing(disk, nr, from, to)| - |FreeSet(disk)|
  }

  // Each zone that bmap takes fills one missing slot.
  lemma LackAttach(disk: Disk, nr: nat, from: nat, to: nat, b: nat, k: nat, z: nat)
    requires Inv(disk) && nr < |disk.inodes| && to <= TOTAL_BLOCK
    requires from <= b < to && 1 <= k <= |SlotOf(b)|
    requires var q := Upto(SlotOf(b), k); CanAttach(disk, nr, q, z) && (LevelOf(q) > 0 ==> Blank(disk.blocks[z]))
    ensures var d := Attach(disk, nr, Upto(SlotOf(b), k), z);
      Shaped(d) && Lack(d, nr, from, to) == Lack(disk, nr, from, to)
  {
    hide ZoneAt, Distinct, Marked, Mapped;
    var q := Upto(SlotOf(b), k);
    var d := Attach(disk, nr, q, z);
    AttachKeeps(disk, nr, q, z);
    assert FreeSet(d) == FreeSet(disk) - {z};
    assert z in FreeSet(disk);
    MissingAttach(disk, nr, from, to, q, z);
    assert q in Missing(disk, nr, from, to);
  }

  lemma MissingAttach(disk: Disk, nr: nat, from: nat, to: nat, q: Path, z: nat)
    requires Inv(disk) && nr < |disk.inodes| && to <= TOTAL_BLOCK
    requires CanAttach(disk, nr, q, z) && (LevelOf(q) > 0 ==> Blank(disk.blocks[z]))
    requires Inv(Attach(disk, nr, q, z))
    ensures Missing(Attach(disk, nr, q, z), nr, from, to) == Missing(disk, nr, from, to) - {q}
  {
    hide ZoneAt, Distinct, Marked, Mapped, SlotOf;
    var d := Attach(disk, nr, q, z);
    AttachOnly(disk, nr, q, z);
    hide Attach, Blank;
    forall b: nat, k: nat | from <= b < to && 1 <= k <= |SlotOf(b)|
      ensures ZoneAt(d, nr, Upto(SlotOf(b), k)) ==
        if Upto(SlotOf(b), k) == q then z else ZoneAt(disk, nr, Upto(SlotOf(b), k))
    {
      assert ValidSlot(Upto(SlotOf(b), k));
    }
    var m, n := Missing(disk, nr, from, to), Missing(d, nr, from, to);
    forall r | r in m && r != q ensures r in n {
      var b: nat, k: nat :| from <= b < to && 1 <= k <= |SlotOf(b)| && ZoneAt(disk, nr, Upto(SlotOf(b), k)) == 0
        && r == Upto(SlotOf(b), k);
      assert ZoneAt(d, nr, Upto(SlotOf(b), k)) == 0;
    }
    forall r | r in n ensures r in m && r != q {
      var b: nat, k: nat :| from <= b < to && 1 <= k <= |SlotOf(b)| && ZoneAt(d, nr, Upto(SlotOf(b), k)) == 0
        && r == Upto(SlotOf(b), k);
      assert ZoneAt(disk, nr, Upto(SlotOf(b), k)) == 0;
    }
  }

  // ------------------------------------------------------------ truncating

  // Zone z is in the part of file nr's tree at or below slot p.
  ghost predicate Below(disk: Disk, nr: nat, p: Path, z: nat)
    requires Shaped(disk) && nr < |disk.inodes|
  {
    exists q :: Owns(disk, nr, q) && p <= q && ZoneAt(disk, nr, q) == z
  }

  lemma EmptyBelow(disk: Disk, nr: nat, p: Path, q: Path)
    requires Shaped(disk) && nr < |disk.inodes| && ValidSlot(p) && ValidSlot(q) && p <= q && ZoneAt(disk, nr, p) == 0
    ensures ZoneAt(disk, nr, q) == 0
    decreases |q|
  {
    if |q| > |p| {
      assert p <= Parent(q);
      EmptyBelow(disk, nr, p, Parent(q));
    } else {
      assert q == p;
    }
  }

  lemma LeafBelow(disk: Disk, nr: nat, p: Path, z: nat)
    requires Shaped(disk) && nr < |disk.inodes| && ValidSlot(p) && LevelOf(p) == 0
    ensures Below(disk, nr, p, z) <==> z != 0 && ZoneAt(disk, nr, p) == z
  {
    forall q | ValidSlot(q) && p <= q ensures q == p {}
    if z != 0 && ZoneAt(disk, nr, p) == z {
      assert Owns(disk, nr, p) && p <= p;
    }
  }

  // A subtree is its root and the subtrees of its 512 entries.
  lemma NodeBelow(disk: Disk, nr: nat, p: Path, z: nat)
    requires Shaped(disk) && nr < |disk.inodes| && ValidSlot(p) && LevelOf(p) > 0 && ZoneAt(disk, nr, p) != 0
    ensures Below(disk, nr, p, z) <==>
      z == ZoneAt(disk, nr, p) || exists i :: 0 <= i < BLOCK_INDEXES && Below(disk, nr, p + [i], z)
  {
    if Below(disk, nr, p, z) && z != ZoneAt(disk, nr, p) {
      var q :| Owns(disk, nr, q) && p <= q && ZoneAt(disk, nr, q) == z;
      assert |q| == |p| ==> q == p;
      var i := q[|p|];
      assert p + [i] <= q;
      assert Below(disk, nr, p + [i], z);
    }
    if z == ZoneAt(disk, nr, p) {
      assert Owns(disk, nr, p) && p <= p;
    }
    forall i | 0 <= i < BLOCK_INDEXES && Below(disk, nr, p + [i], z) ensures Below(disk, nr, p, z) {
      BelowUp(disk, nr, p, p + [i], z);
    }
  }

  lemma BelowUp(disk: Disk, nr: nat, p: Path, q: Path, z: nat)
    requires Shaped(disk) && nr < |disk.inodes| && p <= q && Below(disk, nr, q, z)
    ensures Below(disk, nr, p, z)
  {
    var r :| Owns(disk, nr, r) && q <= r && ZoneAt(disk, nr, r) == z;
    assert p <= r;
  }

  // Different entries of one block have disjoint subtrees, none containing the block.
  lemma DisjointBelow(disk: Disk, nr: nat, p: Path, i: nat, j: nat, z: nat)
    requires Inv(disk) && nr < |disk.inodes| && i != j && Below(disk, nr, p + [i], z)
    ensures !Below(disk, nr, p + [j], z)
    ensures ValidSlot(p) ==> ZoneAt(disk, nr, p) != z
  {
    var q :| Owns(disk, nr, q) && p + [i] <= q && ZoneAt(disk, nr, q) == z;
    assert q[|p|] == i && |q| > |p|;
    forall r | Owns(disk, nr, r) && p + [j] <= r ensures ZoneAt(disk, nr, r) != z {
      assert r[|p|] == j;
    }
    if ValidSlot(p) {
      assert Owns(disk, nr, p) ==> ZoneAt(disk, nr, p) != z;
    }
  }

  // After inode_truncate: the inode is empty and exactly its zones are free.
  ghost predicate Truncated(a: Disk, b: Disk, nr: nat)
    requires Shaped(a) && nr < |a.inodes|
  {
    && b.first == a.first && b.blocks == a.blocks && |b.used| == |a.used|
    && b.inodes == a.inodes[nr := Inode(0, seq(ZONE_SLOTS, i => 0))]
    && forall z :: 0 <= z < |a.used| ==> b.used[z] == (a.used[z] && !Below(a, nr, [], z))
  }

  lemma TruncatedSlots(a: Disk, b: Disk, nr: nat, mr: nat, q: Path)
    requires Shaped(a) && nr < |a.inodes| && Truncated(a, b, nr) && mr < |a.inodes| && ValidSlot(q)
    ensures Shaped(b) && ZoneAt(b, mr, q) == if mr == nr then 0 else ZoneAt(a, mr, q)
    decreases |q|
  {
    if |q| > 1 {
      TruncatedSlots(a, b, nr, mr, Parent(q));
    }
  }

  // Truncation keeps every other file, byte for byte and zone for zone.
  lemma TruncatedKeeps(a: Disk, b: Disk, nr: nat)
    requires Inv(a) && nr < |a.inodes| && Truncated(a, b, nr)
    ensures Inv(b) && Content(b, nr) == []
    ensures forall mr: nat :: mr < |a.inodes| && mr != nr ==>
      Mapped(a, mr) && b.inodes[mr] == a.inodes[mr] && Content(b, mr) == Content(a, mr)
  {
    forall mr: nat, q: Path | mr < |a.inodes| && ValidSlot(q)
      ensures ZoneAt(b, mr, q) == if mr == nr then 0 else ZoneAt(a, mr, q)
    {
      TruncatedSlots(a, b, nr, mr, q);
    }
    TruncatedSlots(a, b, nr, nr, [0]);
    forall mr, q | Owns(b, mr, q) ensures b.first <= ZoneAt(b, mr, q) < |b.blocks| && b.used[ZoneAt(b, mr, q)] {
      assert Owns(a, mr, q);
    }
    forall mr, q, mr', q' | Owns(b, mr, q) && Owns(b, mr', q') && ZoneAt(b, mr, q) == ZoneAt(b, mr', q')
      ensures mr == mr' && q == q'
    {
      assert Owns(a, mr, q) && Owns(a, mr', q');
    }
    forall mr: nat | mr < |b.inodes| ensures Mapped(b, mr) {
      assert Mapped(a, mr);
    }
  }
}
