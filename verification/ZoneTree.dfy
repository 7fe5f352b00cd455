// Files on the device: the inode's nine zone numbers, the index blocks below
// them, and what attaching or freeing a zone does to every file.
module ZoneTree {

  const BLOCK_SIZE := 1024
  const BLOCK_INDEXES := 512
  const DIRECT_BLOCK := 7
  const INDIRECT1_BLOCK := 512
  const TOTAL_BLOCK := 262663
  const ZONE_SLOTS := 9
  const U16_LIMIT := 65536

  type byte = b: int | 0 <= b < 256
  type Block = b: seq<byte> | |b| == BLOCK_SIZE witness seq(BLOCK_SIZE, i => 0)

  datatype Inode = Inode(size: nat, zone: seq<nat>)

  // used[z] is the bit of zone z in the zone bitmap; first is first_datazone.
  datatype Disk = Disk(first: nat, blocks: seq<Block>, inodes: seq<Inode>, used: seq<bool>)

  // ---------------------------------------------------- 16-bit zone numbers

  // The lower byte first, as the processor stores it.
  function U16At(b: Block, i: nat): (v: nat)
    requires i < BLOCK_INDEXES
    ensures v % 256 == b[2 * i] && v / 256 == b[2 * i + 1]
  {
    (b[2 * i] as int) + 256 * (b[2 * i + 1] as int)
  }

  function SetU16(b: Block, i: nat, v: nat): Block
    requires i < BLOCK_INDEXES && v < U16_LIMIT
  {
    b[2 * i := v % 256][2 * i + 1 := v / 256]
  }

  lemma U16AtSet(b: Block, i: nat, v: nat, j: nat)
    requires i < BLOCK_INDEXES && v < U16_LIMIT && j < BLOCK_INDEXES
    ensures U16At(SetU16(b, i, v), j) == if i == j then v else U16At(b, j)
  {}

  // ----------------------------------------------------------------- slots

  // A slot of a file's tree is the path of array indices that leads to it.
  type Path = seq<nat>

  predicate ValidSlot(p: Path) {
    || (|p| == 1 && p[0] < ZONE_SLOTS)
    || (|p| == 2 && (p[0] == DIRECT_BLOCK || p[0] == DIRECT_BLOCK + 1) && p[1] < BLOCK_INDEXES)
    || (|p| == 3 && p[0] == DIRECT_BLOCK + 1 && p[1] < BLOCK_INDEXES && p[2] < BLOCK_INDEXES)
  }

  // How many levels of index are below the slot: inode_bfree's level.
  function LevelOf(p: Path): nat
    requires ValidSlot(p)
  {
    if p[0] < DIRECT_BLOCK then 0 else p[0] - DIRECT_BLOCK + 2 - |p|
  }

  // Where block number b of a file is found.
  function SlotOf(b: nat): (p: Path)
    requires b < TOTAL_BLOCK
    ensures ValidSlot(p) && LevelOf(p) == 0
  {
    if b < DIRECT_BLOCK then [b]
    else if b < DIRECT_BLOCK + INDIRECT1_BLOCK then [DIRECT_BLOCK, b - DIRECT_BLOCK]
    else
      var r := b - DIRECT_BLOCK - INDIRECT1_BLOCK;
      [DIRECT_BLOCK + 1, r / BLOCK_INDEXES, r % BLOCK_INDEXES]
  }

  lemma SlotOfInjective(b: nat, c: nat)
    requires b < TOTAL_BLOCK && c < TOTAL_BLOCK && SlotOf(b) == SlotOf(c)
    ensures b == c
  {
    if b >= DIRECT_BLOCK + INDIRECT1_BLOCK {
      var r, s := b - DIRECT_BLOCK - INDIRECT1_BLOCK, c - DIRECT_BLOCK - INDIRECT1_BLOCK;
      assert SlotOf(b)[1] == r / BLOCK_INDEXES && SlotOf(c)[1] == s / BLOCK_INDEXES;
      assert SlotOf(b)[2] == r % BLOCK_INDEXES && SlotOf(c)[2] == s % BLOCK_INDEXES;
    } else {
      assert SlotOf(b)[|SlotOf(b)| - 1] == SlotOf(c)[|SlotOf(c)| - 1];
    }
  }

  // Slots compare by the first index in which they differ.
  ghost predicate Before(p: Path, q: Path) {
    exists k: nat :: DifferAt(p, q, k) && p[k] < q[k]
  }

  predicate DifferAt(p: Path, q: Path, k: nat) {
    k < |p| && k < |q| && p[..k] == q[..k] && p[k] != q[k]
  }

  // A file's blocks have their slots in order ...
  lemma SlotsInOrder(b: nat, c: nat)
    requires b < c < TOTAL_BLOCK
    ensures Before(SlotOf(b), SlotOf(c))
  {
    var p, q := SlotOf(b), SlotOf(c);
    if b < DIRECT_BLOCK || b < DIRECT_BLOCK + INDIRECT1_BLOCK <= c {
      assert DifferAt(p, q, 0);
    } else if c < DIRECT_BLOCK + INDIRECT1_BLOCK {
      assert DifferAt(p, q, 1);
    } else {
      var r, s := b - DIRECT_BLOCK - INDIRECT1_BLOCK, c - DIRECT_BLOCK - INDIRECT1_BLOCK;
      if r / BLOCK_INDEXES == s / BLOCK_INDEXES {
        assert DifferAt(p, q, 2);
      } else {
        assert DifferAt(p, q, 1);
      }
    }
  }

  // ... and every slot for data is that of some block. There is one such map.
  lemma SlotsOnto(p: Path) returns (b: nat)
    requires ValidSlot(p) && LevelOf(p) == 0
    ensures b < TOTAL_BLOCK && SlotOf(b) == p
  {
    if |p| == 1 {
      b := p[0];
    } else if |p| == 2 {
      b := DIRECT_BLOCK + p[1];
    } else {
      b := DIRECT_BLOCK + INDIRECT1_BLOCK + BLOCK_INDEXES * p[1] + p[2];
    }
  }

  predicate Shaped(disk: Disk) {
    && |disk.used| == |disk.blocks| < U16_LIMIT
    && 0 < disk.first
    && (forall nr :: 0 <= nr < |disk.inodes| ==>
          |disk.inodes[nr].zone| == ZONE_SLOTS && disk.inodes[nr].size <= TOTAL_BLOCK * BLOCK_SIZE)
    && (forall nr, i :: 0 <= nr < |disk.inodes| && 0 <= i < ZONE_SLOTS ==> disk.inodes[nr].zone[i] < U16_LIMIT)
  }

  // The zone number stored in a slot, 0 when the slot is empty or unreachable.
  function ZoneAt(disk: Disk, nr: nat, p: Path): nat
    requires Shaped(disk) && nr < |disk.inodes| && ValidSlot(p)
    decreases |p|
  {
    if |p| == 1 then disk.inodes[nr].zone[p[0]]
    else
      var z := ZoneAt(disk, nr, p[..|p| - 1]);
      if z == 0 || z >= |disk.blocks| then 0 else U16At(disk.blocks[z], p[|p| - 1])
  }

  function Parent(p: Path): Path
    requires |p| > 1
  {
    p[..|p| - 1]
  }

  // ------------------------------------------------------------- invariant

  ghost predicate Owns(disk: Disk, nr: nat, p: Path)
    requires Shaped(disk)
  {
    nr < |disk.inodes| && ValidSlot(p) && ZoneAt(disk, nr, p) != 0
  }

  // Every zone of a tree lies in the data area and is marked used.
  ghost predicate Marked(disk: Disk)
    requires Shaped(disk)
  {
    forall nr, p :: Owns(disk, nr, p) ==>
      disk.first <= ZoneAt(disk, nr, p) < |disk.blocks| && disk.used[ZoneAt(disk, nr, p)]
  }

  // No zone is in two slots, of one file or of two.
  ghost predicate Distinct(disk: Disk)
    requires Shaped(disk)
  {
    forall nr, p, mr, q :: (Owns(disk, nr, p) && Owns(disk, mr, q) && ZoneAt(disk, nr, p) == ZoneAt(disk, mr, q))
      ==> nr == mr && p == q
  }

  // Every file is mapped from its first block to its last: no holes.
  ghost predicate Mapped(disk: Disk, nr: nat)
    requires Shaped(disk) && nr < |disk.inodes|
  {
    forall b :: 0 <= b < TOTAL_BLOCK && b * BLOCK_SIZE < disk.inodes[nr].size ==> ZoneAt(disk, nr, SlotOf(b)) != 0
  }

  ghost predicate Inv(disk: Disk) {
    && Shaped(disk) && Marked(disk) && Distinct(disk)
    && forall nr :: 0 <= nr < |disk.inodes| ==> Mapped(disk, nr)
  }

  predicate Blank(b: Block) {
    forall i :: 0 <= i < BLOCK_INDEXES ==> U16At(b, i) == 0
  }

  // ------------------------------------------------------------- contents

  function ByteAt(disk: Disk, nr: nat, k: nat): byte
    requires Shaped(disk) && nr < |disk.inodes| && k < TOTAL_BLOCK * BLOCK_SIZE
  {
    var z := ZoneAt(disk, nr, SlotOf(k / BLOCK_SIZE));
    if z < |disk.blocks| then disk.blocks[z][k % BLOCK_SIZE] else 0
  }

  // The file as a flat byte sequence.
  function Content(disk: Disk, nr: nat): (c: seq<byte>)
    requires Shaped(disk) && nr < |disk.inodes|
    ensures |c| == disk.inodes[nr].size
  {
    seq(disk.inodes[nr].size, k requires 0 <= k < disk.inodes[nr].size => ByteAt(disk, nr, k))
  }

  // The file's bytes are its blocks' bytes, from the front of each zone.
  lemma ContentOfBlock(disk: Disk, nr: nat, b: nat, n: nat)
    requires Shaped(disk) && nr < |disk.inodes| && n <= BLOCK_SIZE && b * BLOCK_SIZE + n <= disk.inodes[nr].size
    requires b < TOTAL_BLOCK && ZoneAt(disk, nr, SlotOf(b)) < |disk.blocks|
    ensures Content(disk, nr)[b * BLOCK_SIZE..b * BLOCK_SIZE + n] == disk.blocks[ZoneAt(disk, nr, SlotOf(b))][..n]
  {
    hide ZoneAt, SlotOf;
    forall i: nat | i < n ensures Content(disk, nr)[b * BLOCK_SIZE + i] == disk.blocks[ZoneAt(disk, nr, SlotOf(b))][i] {
      assert (b * BLOCK_SIZE + i) / BLOCK_SIZE == b && (b * BLOCK_SIZE + i) % BLOCK_SIZE == i;
    }
  }

  // ------------------------------------------------------ attaching a zone

  // array[index] = v, for the array that slot p is in.
  function SetSlot(disk: Disk, nr: nat, p: Path, v: nat): Disk
    requires Shaped(disk) && nr < |disk.inodes| && ValidSlot(p) && v < U16_LIMIT
    requires |p| > 1 ==> 0 < ZoneAt(disk, nr, Parent(p)) < |disk.blocks|
  {
    if |p| == 1 then
      disk.(inodes := disk.inodes[nr := disk.inodes[nr].(zone := disk.inodes[nr].zone[p[0] := v])])
    else
      var b := ZoneAt(disk, nr, Parent(p));
      disk.(blocks := disk.blocks[b := SetU16(disk.blocks[b], p[|p| - 1], v)])
  }

  // What bmap does to an empty slot: array[index] = balloc(dev).
  function Attach(disk: Disk, nr: nat, p: Path, z: nat): Disk
    requires Shaped(disk) && nr < |disk.inodes| && ValidSlot(p) && z < |disk.blocks|
    requires |p| > 1 ==> 0 < ZoneAt(disk, nr, Parent(p)) < |disk.blocks|
  {
    SetSlot(disk, nr, p, z).(used := disk.used[z := true])
  }

  predicate CanAttach(disk: Disk, nr: nat, p: Path, z: nat)
    requires Shaped(disk)
  {
    && nr < |disk.inodes| && ValidSlot(p) && ZoneAt(disk, nr, p) == 0
    && (|p| > 1 ==> 0 < ZoneAt(disk, nr, Parent(p)) < |disk.blocks|)
    && disk.first <= z < |disk.blocks| && !disk.used[z]
  }

  // Slots of every file after attaching z at slot p of file nr.
  ghost predicate OnlySlotAdded(disk: Disk, d: Disk, nr: nat, p: Path, z: nat)
    requires Shaped(disk) && Shaped(d) && |d.inodes| == |disk.inodes| && nr < |disk.inodes| && ValidSlot(p)
  {
    forall mr, q :: 0 <= mr < |disk.inodes| && ValidSlot(q) ==>
      ZoneAt(d, mr, q) == if mr == nr && q == p then z else ZoneAt(disk, mr, q)
  }

  lemma AttachSlot(disk: Disk, nr: nat, p: Path, z: nat, mr: nat, q: Path)
    requires Inv(disk) && CanAttach(disk, nr, p, z) && mr < |disk.inodes| && ValidSlot(q)
    requires LevelOf(p) > 0 ==> Blank(disk.blocks[z])
    ensures ZoneAt(Attach(disk, nr, p, z), mr, q) == if mr == nr && q == p then z else ZoneAt(disk, mr, q)
    decreases |q|
  {
    hide Mapped, Distinct;
    if |q| > 1 {
      AttachSlot(disk, nr, p, z, mr, Parent(q));
      if mr == nr && Parent(q) == p {
        AttachedEntry(disk, nr, p, z, q[|q| - 1]);
        assert q == p + [q[|q| - 1]];
      } else if |p| > 1 {
        AttachElsewhere(disk, nr, p, z, mr, q);
      }
    }
  }

  // The entries of the new block: it read as zeros.
  lemma AttachedEntry(disk: Disk, nr: nat, p: Path, z: nat, i: nat)
    requires Inv(disk) && CanAttach(disk, nr, p, z) && LevelOf(p) > 0 && Blank(disk.blocks[z]) && i < BLOCK_INDEXES
    ensures var d := Attach(disk, nr, p, z); U16At(d.blocks[z], i) == 0
  {
    hide Mapped, Distinct;
    if |p| > 1 {
      assert Owns(disk, nr, Parent(p));
    }
  }

  // The block that the zone number went to: the other entries are as they were.
  lemma AttachElsewhere(disk: Disk, nr: nat, p: Path, z: nat, mr: nat, q: Path)
    requires Inv(disk) && CanAttach(disk, nr, p, z) && mr < |disk.inodes| && ValidSlot(q) && |p| > 1 && |q| > 1
    requires LevelOf(p) > 0 ==> Blank(disk.blocks[z])
    ensures var w, i := ZoneAt(disk, mr, Parent(q)), q[|q| - 1];
      0 < w < |disk.blocks| ==>
        U16At(Attach(disk, nr, p, z).blocks[w], i) == if mr == nr && q == p then z else U16At(disk.blocks[w], i)
  {
    hide Mapped, Marked;
    var b, w := ZoneAt(disk, nr, Parent(p)), ZoneAt(disk, mr, Parent(q));
    if w == b {
      assert Owns(disk, nr, Parent(p)) && Owns(disk, mr, Parent(q));
      assert Parent(p) == Parent(q) && mr == nr;
      U16AtSet(disk.blocks[b], p[|p| - 1], z, q[|q| - 1]);
      assert p == Parent(p) + [p[|p| - 1]] && q == Parent(q) + [q[|q| - 1]];
    }
  }

  lemma AttachOnly(disk: Disk, nr: nat, p: Path, z: nat)
    requires Inv(disk) && CanAttach(disk, nr, p, z)
    requires LevelOf(p) > 0 ==> Blank(disk.blocks[z])
    ensures OnlySlotAdded(disk, Attach(disk, nr, p, z), nr, p, z)
  {
    forall mr: nat, q: Path | mr < |disk.inodes| && ValidSlot(q)
      ensures ZoneAt(Attach(disk, nr, p, z), mr, q) == if mr == nr && q == p then z else ZoneAt(disk, mr, q)
    {
      AttachSlot(disk, nr, p, z, mr, q);
    }
  }

  // balloc does not clear what it hands out: attaching an index block adds that
  // slot and no other just when the block read as zeros.
  lemma AttachOnlyIff(disk: Disk, nr: nat, p: Path, z: nat)
    requires Inv(disk) && CanAttach(disk, nr, p, z) && LevelOf(p) > 0
    ensures OnlySlotAdded(disk, Attach(disk, nr, p, z), nr, p, z) <==> Blank(disk.blocks[z])
  {
    if Blank(disk.blocks[z]) {
      AttachOnly(disk, nr, p, z);
    } else {
      var i: nat :| i < BLOCK_INDEXES && U16At(disk.blocks[z], i) != 0;
      var d := Attach(disk, nr, p, z);
      SlotSet(disk, nr, p, z, disk.used[z := true]);
      assert Parent(p + [i]) == p;
      assert ZoneAt(d, nr, p) == z && ZoneAt(d, nr, p + [i]) == U16At(disk.blocks[z], i);
      assert ZoneAt(disk, nr, p + [i]) == 0;
    }
  }

  // The slot reads back, and the way to it is as it was; u is the zone bitmap.
  lemma SlotSet(disk: Disk, nr: nat, p: Path, v: nat, u: seq<bool>)
    requires Inv(disk) && nr < |disk.inodes| && ValidSlot(p) && v < U16_LIMIT && |u| == |disk.used|
    requires |p| > 1 ==> 0 < ZoneAt(disk, nr, Parent(p)) < |disk.blocks|
    ensures var d := SetSlot(disk, nr, p, v).(used := u);
      Shaped(d) && ZoneAt(d, nr, p) == v && (|p| > 1 ==> ZoneAt(d, nr, Parent(p)) == ZoneAt(disk, nr, Parent(p)))
  {
    if |p| > 1 {
      var b := ZoneAt(disk, nr, Parent(p));
      U16AtSet(disk.blocks[b], p[|p| - 1], v, p[|p| - 1]);
      if |p| == 3 {
        assert Parent(Parent(p)) == [p[0]];
        assert Owns(disk, nr, Parent(p)) && Owns(disk, nr, [p[0]]);
        assert ZoneAt(disk, nr, [p[0]]) != b;
      }
      var d := SetSlot(disk, nr, p, v).(used := u);
      assert ZoneAt(d, nr, Parent(p)) == b;
      assert d.blocks[b] == SetU16(disk.blocks[b], p[|p| - 1], v);
    }
  }

  lemma AttachKeeps(disk: Disk, nr: nat, p: Path, z: nat)
    requires Inv(disk) && CanAttach(disk, nr, p, z)
    requires LevelOf(p) > 0 ==> Blank(disk.blocks[z])
    ensures Inv(Attach(disk, nr, p, z))
  {
    hide ZoneAt, SlotOf, LevelOf;
    var d := Attach(disk, nr, p, z);
    AttachOnly(disk, nr, p, z);
    forall mr, q | Owns(d, mr, q) ensures d.first <= ZoneAt(d, mr, q) < |d.blocks| && d.used[ZoneAt(d, mr, q)] {
      assert (mr == nr && q == p) || Owns(disk, mr, q);
    }
    forall mr, q, mr', q' | Owns(d, mr, q) && Owns(d, mr', q') && ZoneAt(d, mr, q) == ZoneAt(d, mr', q')
      ensures mr == mr' && q == q'
    {
      assert (mr == nr && q == p) || Owns(disk, mr, q);
      assert (mr' == nr && q' == p) || Owns(disk, mr', q');
    }
    forall mr: nat | mr < |d.inodes| ensures Mapped(d, mr) {
      assert Mapped(disk, mr);
    }
  }

  // Attaching changes no byte of any file.
  lemma AttachContent(disk: Disk, nr: nat, p: Path, z: nat, mr: nat)
    requires Inv(disk) && CanAttach(disk, nr, p, z) && mr < |disk.inodes|
    requires LevelOf(p) > 0 ==> Blank(disk.blocks[z])
    ensures Mapped(disk, mr) && Mapped(Attach(disk, nr, p, z), mr)
    ensures Content(Attach(disk, nr, p, z), mr) == Content(disk, mr)
  {
    var d := Attach(disk, nr, p, z);
    AttachOnly(disk, nr, p, z);
    AttachKeeps(disk, nr, p, z);
    assert Mapped(disk, mr);
    forall k: nat | k < disk.inodes[mr].size ensures ByteAt(d, mr, k) == ByteAt(disk, mr, k) {
      var b := k / BLOCK_SIZE;
      assert b * BLOCK_SIZE < disk.inodes[mr].size && b < TOTAL_BLOCK;
      assert Owns(disk, mr, SlotOf(b));
      if |p| > 1 {
        assert Owns(disk, nr, Parent(p));
        assert LevelOf(Parent(p)) > 0;
      }
    }
  }

  // --------------------------------------------------------- storing bytes

  // memcpy of bytes into the block at start, and the size update of inode_write.
  function Patch(b: Block, start: nat, bytes: seq<byte>): Block
    requires start + |bytes| <= BLOCK_SIZE
  {
    b[..start] + bytes + b[start + |bytes|..]
  }

  // offset is where the bytes go; they stay inside one block.
  function PutChunk(disk: Disk, nr: nat, offset: nat, bytes: seq<byte>): Disk
    requires Shaped(disk) && nr < |disk.inodes| && offset < TOTAL_BLOCK * BLOCK_SIZE
    requires offset % BLOCK_SIZE + |bytes| <= BLOCK_SIZE
    requires ZoneAt(disk, nr, SlotOf(offset / BLOCK_SIZE)) < |disk.blocks|
  {
    var z := ZoneAt(disk, nr, SlotOf(offset / BLOCK_SIZE));
    var end := offset + |bytes|;
    disk.(blocks := disk.blocks[z := Patch(disk.blocks[z], offset % BLOCK_SIZE, bytes)],
          inodes := if end > disk.inodes[nr].size then disk.inodes[nr := disk.inodes[nr].(size := end)]
                    else disk.inodes)
  }

  // What a write means on a flat sequence.
  function Splice(c: seq<byte>, offset: nat, bytes: seq<byte>): (r: seq<byte>)
    requires offset <= |c|
    ensures |r| == if offset + |bytes| > |c| then offset + |bytes| else |c|
    ensures forall k :: 0 <= k < |r| ==>
      r[k] == if offset <= k < offset + |bytes| then bytes[k - offset] else c[k]
  {
    c[..offset] + bytes + if offset + |bytes| <= |c| then c[offset + |bytes|..] else []
  }

  lemma SpliceTwice(c: seq<byte>, offset: nat, a: seq<byte>, b: seq<byte>)
    requires offset <= |c|
    ensures Splice(Splice(c, offset, a), offset + |a|, b) == Splice(c, offset, a + b)
  {}

  predicate CanPut(disk: Disk, nr: nat, offset: nat, bytes: seq<byte>)
    requires Shaped(disk)
  {
    && nr < |disk.inodes| && offset <= disk.inodes[nr].size && 0 < |bytes|
    && offset % BLOCK_SIZE + |bytes| <= BLOCK_SIZE && offset / BLOCK_SIZE < TOTAL_BLOCK
    && 0 < ZoneAt(disk, nr, SlotOf(offset / BLOCK_SIZE)) < |disk.blocks|
  }

  lemma PutSlots(disk: Disk, nr: nat, offset: nat, bytes: seq<byte>, mr: nat, q: Path)
    requires Inv(disk) && CanPut(disk, nr, offset, bytes) && mr < |disk.inodes| && ValidSlot(q)
    ensures ZoneAt(PutChunk(disk, nr, offset, bytes), mr, q) == ZoneAt(disk, mr, q)
    decreases |q|
  {
    if |q| > 1 {
      PutSlots(disk, nr, offset, bytes, mr, Parent(q));
      var p := SlotOf(offset / BLOCK_SIZE);
      assert Owns(disk, nr, p);
      assert LevelOf(Parent(q)) > 0 == LevelOf(p);
      assert ZoneAt(disk, mr, Parent(q)) != 0 ==> Owns(disk, mr, Parent(q));
    }
  }

  lemma PutKeeps(disk: Disk, nr: nat, offset: nat, bytes: seq<byte>)
    requires Inv(disk) && CanPut(disk, nr, offset, bytes)
    ensures Inv(PutChunk(disk, nr, offset, bytes))
  {
    hide ZoneAt, SlotOf;
    var d := PutChunk(disk, nr, offset, bytes);
    forall mr, q | 0 <= mr < |disk.inodes| && ValidSlot(q) ensures ZoneAt(d, mr, q) == ZoneAt(disk, mr, q) {
      PutSlots(disk, nr, offset, bytes, mr, q);
    }
    forall mr, q | Owns(d, mr, q) ensures d.first <= ZoneAt(d, mr, q) < |d.blocks| && d.used[ZoneAt(d, mr, q)] {
      assert Owns(disk, mr, q);
    }
    forall mr, q, mr', q' | Owns(d, mr, q) && Owns(d, mr', q') && ZoneAt(d, mr, q) == ZoneAt(d, mr', q')
      ensures mr == mr' && q == q'
    {
      assert Owns(disk, mr, q) && Owns(disk, mr', q');
    }
    forall mr: nat | mr < |d.inodes| ensures Mapped(d, mr) {
      PutMapped(disk, nr, offset, bytes, mr);
    }
  }

  lemma PutMapped(disk: Disk, nr: nat, offset: nat, bytes: seq<byte>, mr: nat)
    requires Inv(disk) && CanPut(disk, nr, offset, bytes) && mr < |disk.inodes|
    ensures Mapped(PutChunk(disk, nr, offset, bytes), mr)
  {
    var d := PutChunk(disk, nr, offset, bytes);
    assert Mapped(disk, mr);
    forall b | 0 <= b < TOTAL_BLOCK && b * BLOCK_SIZE < d.inodes[mr].size ensures ZoneAt(d, mr, SlotOf(b)) != 0 {
      PutSlots(disk, nr, offset, bytes, mr, SlotOf(b));
      if mr == nr && b != offset / BLOCK_SIZE {
        assert b * BLOCK_SIZE < disk.inodes[nr].size;
      }
    }
  }

  // A chunk of a write is a splice on its own file and nothing on the others.
  lemma PutContent(disk: Disk, nr: nat, offset: nat, bytes: seq<byte>, mr: nat)
    requires Inv(disk) && CanPut(disk, nr, offset, bytes) && mr < |disk.inodes|
    ensures Mapped(disk, mr) && Mapped(PutChunk(disk, nr, offset, bytes), mr)
    ensures Content(PutChunk(disk, nr, offset, bytes), mr)
         == if mr == nr then Splice(Content(disk, nr), offset, bytes) else Content(disk, mr)
  {
    hide ZoneAt, SlotOf, Distinct, ByteAt;
    var d := PutChunk(disk, nr, offset, bytes);
    PutMapped(disk, nr, offset, bytes, mr);
    assert Mapped(disk, mr);
    var p := SlotOf(offset / BLOCK_SIZE);
    assert Owns(disk, nr, p);
    forall k: nat | k < d.inodes[mr].size
      ensures ByteAt(d, mr, k) ==
        if mr == nr && offset <= k < offset + |bytes| then bytes[k - offset] else ByteAt(disk, mr, k)
    {
      PutByte(disk, nr, offset, bytes, mr, k);
    }
  }

  lemma PutByte(disk: Disk, nr: nat, offset: nat, bytes: seq<byte>, mr: nat, k: nat)
    requires Inv(disk) && CanPut(disk, nr, offset, bytes) && mr < |disk.inodes|
    requires k < PutChunk(disk, nr, offset, bytes).inodes[mr].size && k < TOTAL_BLOCK * BLOCK_SIZE
    ensures ByteAt(PutChunk(disk, nr, offset, bytes), mr, k) ==
      if mr == nr && offset <= k < offset + |bytes| then bytes[k - offset] else ByteAt(disk, mr, k)
  {
    hide Mapped, Marked, ZoneAt;
    var p := SlotOf(offset / BLOCK_SIZE);
    var q := SlotOf(k / BLOCK_SIZE);
    PutSlots(disk, nr, offset, bytes, mr, q);
    assert Owns(disk, nr, p);
    if ZoneAt(disk, mr, q) == ZoneAt(disk, nr, p) {
      assert Owns(disk, mr, q);
      SlotOfInjective(k / BLOCK_SIZE, offset / BLOCK_SIZE);
    }
  }
}
