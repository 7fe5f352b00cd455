// src/fs/bmap.c and src/fs/inode.c in their own form: loops over blocks held
// in an array, an inode table, and the zone bitmap.
module FileStore {
  import opened ZoneTree
  import opened ZoneGrowth
  import opened FileWrites
  import opened Wrappers
  import Bitmap

  const BLOCK_BITS := 8192
  const BLOCK_INODES := 32

  // Where bmap is: the index into the current array, what is left of the block
  // number, the level, and how many blocks one entry of this level covers.
  datatype At = At(index: nat, rest: nat, level: nat, divider: nat)

  function StartAt(block: nat): At {
    if block < DIRECT_BLOCK then At(block, block, 0, 1)
    else if block - DIRECT_BLOCK < INDIRECT1_BLOCK then At(DIRECT_BLOCK, block - DIRECT_BLOCK, 1, 1)
    else At(DIRECT_BLOCK + 1, block - DIRECT_BLOCK - INDIRECT1_BLOCK, 2, BLOCK_INDEXES)
  }

  function NextAt(at: At): At
    requires at.divider > 0 && at.level > 0
  {
    At(at.rest / at.divider, at.rest % at.divider, at.level - 1, at.divider / BLOCK_INDEXES)
  }

  // After k rounds the index is the k-th of the path to the block.
  predicate OnWay(at: At, p: Path, k: nat) {
    && 1 <= k && k + at.level == |p| && at.level <= 2 && at.index == p[k - 1]
    && (at.level == 1 ==> at.divider == 1 && at.rest == p[k])
    && (at.level == 2 ==>
          at.divider == BLOCK_INDEXES && at.rest / BLOCK_INDEXES == p[k] && at.rest % BLOCK_INDEXES == p[k + 1])
  }

  lemma OnWayNext(at: At, p: Path, k: nat)
    requires OnWay(at, p, k) && at.level > 0
    ensures at.divider > 0 && OnWay(NextAt(at), p, k + 1)
  {
    if at.level == 1 {
      assert at.rest / 1 == at.rest;
    }
  }

  // Zone z is bit z - (first - 1); what the bitmap does not cover is never free.
  function UsedOf(bits: seq<bool>, first: nat, n: nat): (u: seq<bool>)
    ensures |u| == n
  {
    seq(n, z requires 0 <= z => z < first || z - (first - 1) >= |bits| || bits[z - (first - 1)])
  }

  lemma UsedClear(bits: seq<bool>, first: nat, n: nat, w: nat)
    requires 0 < first <= w < n && !UsedOf(bits, first, n)[w]
    ensures Bitmap.ClearRun(bits, w - (first - 1), 1)
  {}

  lemma UsedTaken(bits: seq<bool>, first: nat, n: nat, s: nat)
    requires Bitmap.ClearRun(bits, s, 1) && 0 < first <= n && bits[0]
    requires forall i :: n - (first - 1) <= i < |bits| && 0 <= i ==> bits[i]
    ensures 0 < s && s + first - 1 < n && !UsedOf(bits, first, n)[s + first - 1]
    ensures UsedOf(Bitmap.Fill(bits, s, 1, true), first, n) == UsedOf(bits, first, n)[s + first - 1 := true]
    ensures Bitmap.Fill(bits, s, 1, true)[0]
  {
    assert !bits[s];
  }

  // The leftmost clear bit is the lowest free zone.
  lemma LeftmostIsFirst(bits: seq<bool>, first: nat, n: nat, s: nat)
    requires Bitmap.ClearRun(bits, s, 1) && 0 < first <= n && bits[0]
    requires forall i :: n - (first - 1) <= i < |bits| && 0 <= i ==> bits[i]
    requires forall t: nat :: t < s ==> !Bitmap.ClearRun(bits, t, 1)
    ensures FreeFrom(UsedOf(bits, first, n), first) == s + first - 1
  {
    UsedTaken(bits, first, n, s);
    var u := UsedOf(bits, first, n);
    var w := FreeFrom(u, first);
    if w < s + first - 1 {
      UsedClear(bits, first, n, w);
    }
  }

  lemma NoneIsFree(bits: seq<bool>, first: nat, n: nat)
    requires 0 < first <= n && forall t: nat :: !Bitmap.ClearRun(bits, t, 1)
    ensures FreeFrom(UsedOf(bits, first, n), first) >= n
  {
    var w := FreeFrom(UsedOf(bits, first, n), first);
    if w < n {
      UsedClear(bits, first, n, w);
    }
  }

  // The counts are as they were; after a stop in balloc one buffer is still held.
  predicate Released(was: seq<int>, now: seq<int>, done: bool) {
    if done then now == was else exists z: nat :: z < |was| && HeldAt(was, now, z)
  }

  predicate HeldAt(was: seq<int>, now: seq<int>, z: nat)
    requires z < |was|
  {
    now == was[z := was[z] + 1]
  }

  lemma AllReleased(was: seq<int>, now: seq<int>)
    ensures Released(was, now, true) <==> now == was
  {}

  lemma ReleasedSize(was: seq<int>, now: seq<int>, done: bool)
    requires Released(was, now, done)
    ensures |now| == |was|
  {}

  class FileStore {
    const first: nat                 // first_datazone
    const inodeBase: nat             // where the inode table starts
    const zmap: Bitmap.Bitmap
    var blocks: seq<Block>           // the device, as the buffers show it
    var inodes: seq<Inode>
    var pins: seq<int>               // reference count of each block's buffer

    constructor (first: nat, inodeBase: nat, blocks: seq<Block>, inodes: seq<Inode>, zmap: Bitmap.Bitmap,
                 pins: seq<int>)
      ensures this.first == first && this.inodeBase == inodeBase && this.blocks == blocks
      ensures this.inodes == inodes && this.zmap == zmap && this.pins == pins
    {
      this.first, this.inodeBase, this.blocks := first, inodeBase, blocks;
      this.inodes, this.zmap, this.pins := inodes, zmap, pins;
    }

    ghost function Used(): (u: seq<bool>)
      reads this`blocks, zmap.bits
      ensures |u| == |blocks|
    {
      UsedOf(zmap.Bits(), first, |blocks|)
    }

    ghost function State(): Disk
      reads this`blocks, this`inodes, zmap.bits
    {
      Disk(first, blocks, inodes, Used())
    }

    // One bitmap block, its bit 0 and its tail set as mkfs leaves them.
    ghost predicate Valid()
      reads this`blocks, this`inodes, zmap.bits
    {
      && zmap.bits as object != this
      && zmap.bits.Length == BLOCK_SIZE && 0 < first && zmap.offset == first - 1
      && |blocks| <= BLOCK_BITS
      && zmap.Bits()[0]
      && (forall i :: |blocks| - (first - 1) <= i < BLOCK_BITS && 0 <= i ==> zmap.Bits()[i])
      && inodeBase + |inodes| / BLOCK_INODES < first <= |blocks|
    }

    function InodeBlock(nr: nat): nat {
      inodeBase + nr / BLOCK_INODES
    }

    method Bread(z: nat)
      requires z < |pins|
      modifies this`pins
      ensures pins == old(pins)[z := old(pins[z]) + 1]
    {
      pins := pins[z := pins[z] + 1];
    }

    method Brelse(z: nat)
      requires z < |pins|
      modifies this`pins
      ensures pins == old(pins)[z := old(pins[z]) - 1]
    {
      pins := pins[z := pins[z] - 1];
    }

    // The lowest free zone, now marked used. None is where the source goes on to the next block
    // of the zone bitmap and stops, because its buffer is missing.
    method Balloc() returns (r: Option<nat>)
      requires Valid()
      modifies zmap.bits
      ensures Valid()
      ensures r == if HasFree(old(State())) then Some(FirstFree(old(State()))) else None
      ensures Used() == if r.Some? then old(Used())[r.value := true] else old(Used())
    {
      hide UsedOf, FreeFrom, Bitmap.ClearRun;
      ghost var before := zmap.Bits();
      r := zmap.Scan(1);
      if r.Some? {
        UsedTaken(before, first, |blocks|, r.value - (first - 1));
        LeftmostIsFirst(before, first, |blocks|, r.value - (first - 1));
        assert r.value < |blocks|;
      } else {
        NoneIsFree(before, first, |blocks|);
      }
    }

    method Bfree(z: nat)
      requires Valid() && first <= z < |blocks| && Used()[z]
      modifies zmap.bits
      ensures Valid() && Used() == old(Used())[z := false]
    {
      var used := zmap.Test(z);
      assert used;
      zmap.Set(z, false);
    }
  
    // array[index], where array is the inode's or the index block's.
    function Entry(nr: nat, inInode: bool, buf: nat, index: nat): nat
      requires if inInode then nr < |inodes| && index < |inodes[nr].zone| else buf < |blocks| && index < BLOCK_INDEXES
      reads this`blocks, this`inodes
    {
      if inInode then inodes[nr].zone[index] else U16At(blocks[buf], index)
    }

    // buf holds the array that slot q is an entry of.
    ghost predicate Holds(nr: nat, q: Path, inInode: bool, buf: nat, index: nat)
      reads this`blocks, this`inodes, zmap.bits
    {
      && Shaped(State()) && nr < |inodes| && ValidSlot(q) && index == q[|q| - 1] && inInode == (|q| == 1)
      && (!inInode ==> buf == ZoneAt(State(), nr, Parent(q)) && 0 < buf < |blocks|)
    }

    // array[index] = balloc(dev), when it returns
    method FillSlot(nr: nat, ghost q: Path, inInode: bool, buf: nat, index: nat)
      requires Valid() && Holds(nr, q, inInode, buf, index) && Empty(State(), nr, q)
      modifies this`inodes, this`blocks, zmap.bits
      ensures Valid() && |blocks| == old(|blocks|) && State() == Filled(old(State()), nr, q)
    {
      ghost var d := State();
      var bit := Balloc();
      if bit.None? {
        assert State() == d;
        return;
      }
      var z := bit.value;
      assert State() == d.(used := d.used[z := true]);
      if inInode {
        inodes := inodes[nr := inodes[nr].(zone := inodes[nr].zone[index := z])];
      } else {
        blocks := blocks[buf := SetU16(blocks[buf], index, z)];
      }
      assert State() == SetSlot(d, nr, q, z).(used := d.used[z := true]);
    }

    // The disk d is what k - 1 rounds make of a.
    ghost predicate InRound(a: Disk, d: Disk, nr: nat, create: bool, block: nat, k: nat, at: At) {
      && Inv(a) && nr < |a.inodes| == |d.inodes| && block < TOTAL_BLOCK && 1 <= k <= |SlotOf(block)|
      && (create ==> BlockBlank(a, nr, block)) && OnWay(at, SlotOf(block), k)
      && d == if create then Walked(a, nr, SlotOf(block), k - 1) else a
    }

    // bmap's loop before round k: buf holds the array of the k-th slot on the way.
    ghost predicate AtRound(a: Disk, nr: nat, create: bool, block: nat, k: nat, at: At, inInode: bool, buf: nat)
      reads this`blocks, this`inodes, zmap.bits
    {
      InRound(a, State(), nr, create, block, k, at) && Inv(State()) &&
      Holds(nr, Upto(SlotOf(block), k), inInode, buf, at.index)
    }

    // ... and in round k, with its entry.
    ghost predicate HasEntry(a: Disk, nr: nat, create: bool, block: nat, k: nat, at: At, entry: nat)
      reads this`blocks, this`inodes, zmap.bits
    {
      && Inv(a) && Inv(State()) && nr < |a.inodes| == |inodes| && block < TOTAL_BLOCK && 1 <= k <= |SlotOf(block)|
      && (create ==> BlockBlank(a, nr, block))
      && OnWay(at, SlotOf(block), k) && entry == ZoneAt(State(), nr, Upto(SlotOf(block), k))
      && State() == if create then Walked(a, nr, SlotOf(block), k) else a
    }

    // What bmap leaves and returns.
    ghost predicate Found(a: Disk, nr: nat, create: bool, block: nat, r: Option<nat>)
      reads this`blocks, this`inodes, zmap.bits
    {
      && Inv(a) && Inv(State()) && nr < |a.inodes| == |inodes| && block < TOTAL_BLOCK
      && State() == (if create then WalkedTo(a, nr, block) else a)
      && r == if create && !AtBlock(State(), nr, block) then None else Some(ZoneAt(State(), nr, SlotOf(block)))
    }

    lemma FirstRound(nr: nat, create: bool, block: nat)
      requires Inv(State()) && nr < |inodes| && block < TOTAL_BLOCK
      requires create ==> BlockBlank(State(), nr, block)
      ensures AtRound(State(), nr, create, block, 1, StartAt(block), true, InodeBlock(nr))
    {}

    lemma RoundHolds(a: Disk, nr: nat, create: bool, block: nat, k: nat, at: At, inInode: bool, buf: nat)
      requires AtRound(a, nr, create, block, k, at, inInode, buf)
      ensures block < TOTAL_BLOCK && 1 <= k <= |SlotOf(block)| && Inv(State())
      ensures Holds(nr, Upto(SlotOf(block), k), inInode, buf, at.index)
      ensures InRound(a, State(), nr, create, block, k, at)
    {}

    lemma EntryInRound(a: Disk, d: Disk, nr: nat, create: bool, block: nat, k: nat, at: At, entry: nat)
      requires InRound(a, d, nr, create, block, k, at) && |inodes| == |d.inodes| && Shaped(State()) && Shaped(d)
      requires var q := Upto(SlotOf(block), k);
        && State() == (if create then Filled(d, nr, q) else d)
        && entry == ZoneAt(State(), nr, q)
      ensures HasEntry(a, nr, create, block, k, at, entry)
    {
      hide Distinct, Marked, Mapped, Filled, ZoneAt, BlockBlank;
      if create {
        WalkInv(a, nr, block, k);
      }
    }

    // The next index block is read into buf.
    lemma NextRound(a: Disk, nr: nat, create: bool, block: nat, k: nat, at: At, entry: nat)
      requires Valid() && HasEntry(a, nr, create, block, k, at, entry) && entry != 0 && at.level > 0
      ensures at.divider > 0 && NextAt(at).level < at.level && entry < |blocks|
      ensures AtRound(a, nr, create, block, k + 1, NextAt(at), false, entry)
    {
      hide Distinct, Marked, Mapped, BlockBlank, Walked, ZoneAt;
      OnWayNext(at, SlotOf(block), k);
      assert Parent(Upto(SlotOf(block), k + 1)) == Upto(SlotOf(block), k);
      ZoneOnDevice(nr, Upto(SlotOf(block), k));
    }

    // The walk ends at the block's own slot, or at an empty slot above it ...
    lemma LastRound(a: Disk, nr: nat, create: bool, block: nat, k: nat, at: At, entry: nat)
      requires Valid() && HasEntry(a, nr, create, block, k, at, entry) && (at.level == 0 || entry == 0)
      requires create ==> entry != 0
      ensures Found(a, nr, create, block, Some(entry))
    {
      hide Distinct, Marked, Mapped, BlockBlank, Walked, ZoneAt;
      var p := SlotOf(block);
      if at.level == 0 {
        assert Upto(p, k) == p;
        ZoneOnDevice(nr, p);
      } else {
        EmptyBelow(State(), nr, Upto(p, k), p);
      }
    }

    // ... or, with create, where balloc stopped.
    lemma StopRound(a: Disk, nr: nat, block: nat, k: nat, at: At)
      requires Valid() && HasEntry(a, nr, true, block, k, at, 0)
      ensures Found(a, nr, true, block, None)
    {
      hide Distinct, Marked, Mapped, BlockBlank, Walked, ZoneAt;
      var p := SlotOf(block);
      WalkOff(a, nr, p, k, |p|);
      assert Upto(p, |p|) == p;
    }

    lemma ZoneOnDevice(nr: nat, q: Path)
      requires Valid() && Inv(State()) && nr < |inodes| && ValidSlot(q)
      ensures ZoneAt(State(), nr, q) < |blocks|
    {
      assert ZoneAt(State(), nr, q) != 0 ==> Owns(State(), nr, q);
    }

    lemma HoldsEntry(nr: nat, q: Path, inInode: bool, buf: nat, index: nat)
      requires Holds(nr, q, inInode, buf, index)
      ensures Shaped(State()) && nr < |inodes| && ValidSlot(q) && Reachable(State(), nr, q)
      ensures if inInode then nr < |inodes| && index < |inodes[nr].zone| else buf < |blocks| && index < BLOCK_INDEXES
      ensures ZoneAt(State(), nr, q) == Entry(nr, inInode, buf, index)
    {}

    // The array is still the one that slot q is in.
    lemma HoldsStill(d: Disk, nr: nat, q: Path, inInode: bool, buf: nat, index: nat)
      requires Inv(d) && nr < |d.inodes| == |inodes| && ValidSlot(q) && Reachable(d, nr, q) &&
        State() == Filled(d, nr, q)
      requires index == q[|q| - 1] && inInode == (|q| == 1) && (!inInode ==> buf == ZoneAt(d, nr, Parent(q)))
      ensures Holds(nr, q, inInode, buf, index)
    {
      hide Inv, ZoneAt, Filled;
      FilledAt(d, nr, q);
    }

    // The entry of slot q, filled when it is empty and create is set.
    method GetEntry(nr: nat, create: bool, ghost q: Path, inInode: bool, buf: nat, index: nat) returns (entry: nat)
      requires Valid() && Inv(State()) && Holds(nr, q, inInode, buf, index)
      modifies this`inodes, this`blocks, zmap.bits
      ensures Valid() && |blocks| == old(|blocks|) && |inodes| == old(|inodes|)
      ensures Shaped(State()) && nr < |inodes| && ValidSlot(q)
      ensures State() == if create then Filled(old(State()), nr, q) else old(State())
      ensures entry == ZoneAt(State(), nr, q)
    {
      ghost var d := State();
      HoldsEntry(nr, q, inInode, buf, index);
      FilledAt(d, nr, q);
      hide Inv, Valid, Shaped, ZoneAt, UsedOf, Filled, Used, ValidSlot;
      entry := Entry(nr, inInode, buf, index);
      if entry == 0 && create {
        FillSlot(nr, q, inInode, buf, index);
        HoldsStill(d, nr, q, inInode, buf, index);
        HoldsEntry(nr, q, inInode, buf, index);
        entry := Entry(nr, inInode, buf, index);
      }
    }

    // bmap from the label reckon on: one round for each level, from the inode down. None is
    // where balloc stopped; the buffer of that round is still held.
    method Reckon(ghost a: Disk, nr: nat, create: bool, ghost block: nat, start: At, inodeBuf: nat)
      returns (r: Option<nat>)
      requires Valid() && AtRound(a, nr, create, block, 1, start, true, inodeBuf) && inodeBuf < |pins| == |blocks|
      modifies this, zmap.bits
      ensures Valid() && Found(a, nr, create, block, r)
      ensures Released(old(pins)[inodeBuf := old(pins)[inodeBuf] - 1], pins, r.Some?)
    {
      hide Inv, Valid, AtRound, HasEntry, Found, InRound, Filled, ZoneAt, Shaped, SlotOf, Upto, ValidSlot, Holds, Used;
      ghost var held := pins[inodeBuf := pins[inodeBuf] - 1];
      var at, inInode := start, true;
      var buf: nat := inodeBuf;
      ghost var k := 1;
      while true
        invariant Valid() && AtRound(a, nr, create, block, k, at, inInode, buf)
        invariant buf < |held| == |blocks| && pins == held[buf := held[buf] + 1]
        decreases at.level
      {
        RoundHolds(a, nr, create, block, k, at, inInode, buf);
        ghost var d := State();
        var z := GetEntry(nr, create, Upto(SlotOf(block), k), inInode, buf, at.index);
        EntryInRound(a, d, nr, create, block, k, at, z);
        if z == 0 && create {
          StopRound(a, nr, block, k, at);
          assert HeldAt(held, pins, buf);
          return None;
        }
        Brelse(buf);
        assert pins == held;
        if at.level == 0 || z == 0 {
          LastRound(a, nr, create, block, k, at, z);
          return Some(z);
        }
        NextRound(a, nr, create, block, k, at, z);
        buf := z;
        Bread(buf);
        at := NextAt(at);
        inInode := false;
        k := k + 1;
      }
    }

    // bmap. With create the way to the block is filled as far as there are zones, and the block
    // is found just when the device has a zone for each slot that is missing on it.
    method Bmap(nr: nat, block: nat, create: bool) returns (r: Option<nat>)
      requires Valid() && Inv(State()) && |pins| == |blocks| && nr < |inodes| && block < TOTAL_BLOCK
      requires create ==> BlockBlank(State(), nr, block)
      modifies this, zmap.bits
      ensures Valid() && Inv(State()) && |blocks| == |pins| == old(|pins|) && |inodes| == old(|inodes|)
      ensures Released(old(pins), pins, r.Some?)
      ensures State() == if create then WalkedTo(old(State()), nr, block) else old(State())
      ensures r.Some? ==> r.value == ZoneAt(State(), nr, SlotOf(block)) < |blocks| && (create ==> r.value != 0)
      ensures r.Some? <==> !create || Room(old(State()), nr, block, block + 1)
      ensures create ==> Grown(old(State()), State(), nr, SlotOf(block))
    {
      hide *;
      ghost var a := State();
      StateSizes();
      InodeOnDevice(nr);
      FirstRound(nr, create, block);
      var buf: nat := InodeBlock(nr);
      ghost var was := pins;
      Bread(buf);
      r := Reckon(a, nr, create, block, StartAt(block), buf);
      assert was[buf := was[buf] + 1][buf := was[buf]] == was;
      FoundMeans(a, nr, create, block, r);
      ReleasedSize(was, pins, r.Some?);
    }

    lemma InodeOnDevice(nr: nat)
      requires Valid() && nr < |inodes|
      ensures InodeBlock(nr) < |blocks|
    {}

    lemma FoundMeans(a: Disk, nr: nat, create: bool, block: nat, r: Option<nat>)
      requires Valid() && Found(a, nr, create, block, r) && (create ==> BlockBlank(a, nr, block))
      ensures Inv(State()) && |inodes| == |a.inodes| && State().blocks == blocks && |a.blocks| == |blocks|
      ensures State() == if create then WalkedTo(a, nr, block) else a
      ensures r.Some? ==> r.value == ZoneAt(State(), nr, SlotOf(block)) < |blocks| && (create ==> r.value != 0)
      ensures r.Some? <==> !create || Room(a, nr, block, block + 1)
      ensures create ==> Grown(a, State(), nr, SlotOf(block))
    {
      hide Marked, Distinct, Mapped, Valid, WalkedTo, BlockBlank, ZoneAt, SlotOf, Room, Grown;
      if create {
        WalkedToIff(a, nr, block);
        WalkedToKeeps(a, nr, block, block, block + 1);
      } else {
        ZoneOnDevice(nr, SlotOf(block));
      }
    }

    // One round of inode_read: the bytes of one block.
    method ReadRound(nr: nat, offset: nat, chars: nat, ghost c: seq<byte>) returns (bytes: seq<byte>)
      requires Valid() && Inv(State()) && |pins| == |blocks| && nr < |inodes|
      requires 0 < chars && offset + chars <= inodes[nr].size && offset % BLOCK_SIZE + chars <= BLOCK_SIZE
      requires c == Content(State(), nr)
      modifies this, zmap.bits
      ensures Valid() && State() == old(State()) && pins == old(pins) && |blocks| == |pins|
      ensures offset + chars <= |c| && bytes == c[offset..offset + chars]
    {
      ReadChunk(State(), nr, offset, chars);
      hide Inv, Valid, ZoneAt, SlotOf, UsedOf;
      var found := Bmap(nr, offset / BLOCK_SIZE, false);
      var z := found.value;
      assert z != 0;
      Bread(z);
      var start := offset % BLOCK_SIZE;
      bytes := blocks[z][start..start + chars];
      Brelse(z);
    }

    // inode_read: None is end of file.
    method InodeRead(nr: nat, len: nat, begin: nat) returns (r: Option<seq<byte>>)
      requires Valid() && Inv(State()) && |pins| == |blocks| && nr < |inodes|
      modifies this, zmap.bits
      ensures Valid() && State() == old(State()) && pins == old(pins)
      ensures r == if begin >= inodes[nr].size then None
                   else Some(Content(State(), nr)[begin..Min(begin + len, inodes[nr].size)])
    {
      hide Inv, Valid, ZoneAt, SlotOf, UsedOf, ByteAt;
      InvShaped(State());
      if begin >= inodes[nr].size {
        return None;
      }
      var out := InodeReadLoop(nr, Min(len, inodes[nr].size - begin), begin, Content(State(), nr));
      r := Some(out);
    }

    method InodeReadLoop(nr: nat, len: nat, begin: nat, ghost c: seq<byte>) returns (out: seq<byte>)
      requires Valid() && Inv(State()) && |pins| == |blocks| && nr < |inodes| && begin + len <= inodes[nr].size
      requires c == Content(State(), nr)
      modifies this, zmap.bits
      ensures Valid() && State() == old(State()) && pins == old(pins)
      ensures begin + len <= |c| && out == c[begin..begin + len]
    {
      ghost var a := State();
      hide Inv, Valid, ZoneAt, SlotOf, UsedOf, ByteAt;
      var offset: nat := begin;
      var left: nat := len;
      out := [];
      while left > 0
        invariant Valid() && State() == a && |pins| == |blocks| && pins == old(pins)
        invariant offset + left == begin + len
        invariant begin <= offset <= |c| && out == c[begin..offset]
      {
        var chars := Min(BLOCK_SIZE - offset % BLOCK_SIZE, left);
        var bytes := ReadRound(nr, offset, chars, c);
        out := out + bytes;
        offset := offset + chars;
        left := left - chars;
      }
    }

    // One round of inode_write: bmap with create, then the bytes of one block; data is what is left.
    method WriteRound(nr: nat, offset: nat, chunk: seq<byte>, ghost data: seq<byte>) returns (ok: bool)
      requires Valid() && Inv(State()) && |pins| == |blocks| && nr < |inodes| && offset <= inodes[nr].size
      requires data != [] && offset + |data| <= TOTAL_BLOCK * BLOCK_SIZE && chunk == data[..ChunkAt(offset, |data|)]
      requires BlockBlank(State(), nr, offset / BLOCK_SIZE)
      modifies this, zmap.bits
      ensures Valid() && Inv(State()) && |pins| == |blocks| && |inodes| == old(|inodes|)
      ensures Released(old(pins), pins, ok)
      ensures Outcome(State(), if ok then |chunk| else 0) == Round(old(State()), nr, offset, data)
      ensures ok ==> offset + |chunk| <= inodes[nr].size
    {
      hide *;
      ghost var d, was := State(), pins;
      StateSizes();
      InvShaped(d);
      WalkedCanPut(d, nr, offset, data);
      WalkedToIff(d, nr, offset / BLOCK_SIZE);
      var found := Bmap(nr, offset / BLOCK_SIZE, true);
      ok := found.Some?;
      if ok {
        AllReleased(was, pins);
        StoreBytes(nr, found.value, offset, chunk);
      }
      StateSizes();
    }

    lemma StateSizes()
      ensures State().inodes == inodes && State().blocks == blocks
    {}

    // The part of the round that has the block's buffer: size update and memcpy.
    method StoreBytes(nr: nat, z: nat, offset: nat, chunk: seq<byte>)
      requires Valid() && Shaped(State()) && CanPut(State(), nr, offset, chunk) && |pins| == |blocks|
      requires z == ZoneAt(State(), nr, SlotOf(offset / BLOCK_SIZE))
      modifies this
      ensures Valid() && State() == PutChunk(old(State()), nr, offset, chunk)
      ensures pins == old(pins) && |pins| == |blocks|
    {
      hide ZoneAt;
      Bread(z);
      if offset + |chunk| > inodes[nr].size {
        inodes := inodes[nr := inodes[nr].(size := offset + |chunk|)];
      }
      blocks := blocks[z := Patch(blocks[z], offset % BLOCK_SIZE, chunk)];
      Brelse(z);
    }

    // inode_write's loop: n bytes are in place, fewer than there are when balloc stopped.
    method InodeWriteLoop(nr: nat, data: seq<byte>, begin: nat) returns (n: nat)
      requires Valid() && Inv(State()) && |pins| == |blocks| && nr < |inodes|
      requires begin <= inodes[nr].size && begin + |data| <= TOTAL_BLOCK * BLOCK_SIZE
      requires WriteBlank(State(), nr, begin, data)
      modifies this, zmap.bits
      ensures Valid() && n <= |data| && Released(old(pins), pins, n == |data|)
      ensures Outcome(State(), n) == Written(old(State()), nr, begin, data)
    {
      hide *;
      ghost var a := State();
      StateSizes();
      InvShaped(a);
      LeftAtStart(a, nr, begin, data);
      var offset := begin;
      var left: nat := |data|;
      var pos: nat := 0;
      AllReleased(pins, pins);
      while left > 0
        invariant Valid() && Inv(State()) && |pins| == |blocks| && nr < |inodes| && Released(old(pins), pins, true)
        invariant pos + left == |data| && offset == begin + pos && offset <= inodes[nr].size
        invariant Left(a, State(), nr, begin, data, pos)
      {
        AllReleased(old(pins), pins);
        var chars := ChunkAt(offset, left);
        LeftNext(a, State(), nr, begin, data, pos);
        assert data[pos..][..chars] == data[pos..pos + chars];
        var ok := WriteRound(nr, offset, data[pos..pos + chars], data[pos..]);
        if !ok {
          return pos;
        }
        offset := offset + chars;
        left := left - chars;
        pos := pos + chars;
      }
      LeftAtEnd(a, State(), nr, begin, data);
      return offset - begin;
    }

    // inode_write: a splice of the bytes put in place, which are all just when there are zones enough.
    method InodeWrite(nr: nat, data: seq<byte>, begin: nat) returns (n: nat)
      requires Valid() && Inv(State()) && |pins| == |blocks| && nr < |inodes|
      requires begin <= inodes[nr].size && begin + |data| <= TOTAL_BLOCK * BLOCK_SIZE
      requires WriteBlank(State(), nr, begin, data)
      modifies this, zmap.bits
      ensures Valid() && Released(old(pins), pins, n == |data|)
      ensures Outcome(State(), n) == Written(old(State()), nr, begin, data)
      ensures n <= |data| && EndBlock(begin + |data|) <= TOTAL_BLOCK
      ensures n == |data| <==> Room(old(State()), nr, begin / BLOCK_SIZE, EndBlock(begin + |data|))
      ensures Inv(State()) && Wrote(old(State()), State(), nr, begin, data[..n])
    {
      WrittenKeeps(State(), nr, begin, data);
      hide *;
      n := InodeWriteLoop(nr, data, begin);
    }

    // A subtree of the disk a whose zones are all still marked used; array entries read as in a.
    ghost predicate Standing(a: Disk, nr: nat, p: Path, inInode: bool, buf: nat, index: nat)
      reads this`blocks, this`inodes, zmap.bits
    {
      && Valid() && Inv(a) && blocks == a.blocks && first == a.first && nr < |a.inodes| == |inodes|
      && ValidSlot(p) && index == p[|p| - 1] && inInode == (|p| == 1)
      && (if inInode then index < |inodes[nr].zone| && inodes[nr].zone[index] == a.inodes[nr].zone[index]
          else buf == ZoneAt(a, nr, Parent(p)) && 0 < buf < |blocks|)
      && forall z: nat :: Below(a, nr, p, z) ==> z < |blocks| && Used()[z]
    }

    lemma StandingEntry(a: Disk, nr: nat, p: Path, inInode: bool, buf: nat, index: nat)
      requires Standing(a, nr, p, inInode, buf, index)
      ensures if inInode then nr < |inodes| && index < |inodes[nr].zone| else buf < |blocks| && index < BLOCK_INDEXES
      ensures var z := Entry(nr, inInode, buf, index);
        z == ZoneAt(a, nr, p) && (z != 0 ==> first <= z < |blocks| == |a.used|) && (z != 0 ==> Used()[z])
    {
      assert Owns(a, nr, p) ==> Below(a, nr, p, ZoneAt(a, nr, p));
    }

    lemma EntryStanding(a: Disk, nr: nat, p: Path, i: nat, z: nat, before: seq<bool>)
      requires Valid() && Inv(a) && blocks == a.blocks && first == a.first && nr < |a.inodes| == |inodes|
      requires ValidSlot(p) && LevelOf(p) > 0 && z == ZoneAt(a, nr, p) != 0 && i < BLOCK_INDEXES
      requires forall w: nat :: Below(a, nr, p, w) ==> w < |before| && before[w]
      requires EntriesFreed(a, nr, p, i, before, Used())
      ensures Standing(a, nr, p + [i], false, z, i)
    {
      hide Valid, Below, UsedOf;
      assert Parent(p + [i]) == p && Owns(a, nr, p);
      forall w: nat | Below(a, nr, p + [i], w) ensures w < |blocks| && Used()[w] {
        BelowUp(a, nr, p, p + [i], w);
        forall j | 0 <= j < i ensures !Below(a, nr, p + [j], w) {
          DisjointBelow(a, nr, p, i, j, w);
        }
      }
    }

    // inode_bfree: the subtree below one entry of an array goes back to the zone bitmap.
    method InodeBfree(ghost a: Disk, nr: nat, ghost p: Path, inInode: bool, buf: nat, index: nat, level: nat)
      requires Standing(a, nr, p, inInode, buf, index) && level == LevelOf(p) && |pins| == |blocks|
      modifies this`pins, zmap.bits
      ensures Valid() && pins == old(pins) && BelowFreed(a, nr, p, old(Used()), Used())
      decreases level, 0
    {
      StandingEntry(a, nr, p, inInode, buf, index);
      hide Valid, ZoneAt, Below, UsedOf, BelowFreed, Standing;
      var z := Entry(nr, inInode, buf, index);
      if z == 0 {
        EmptyFreed(a, nr, p, Used());
        return;
      }
      if level == 0 {
        LeafFreed(a, nr, p, Used());
        Bfree(z);
        return;
      }
      ghost var before := Used();
      Bread(z);
      FreeEntries(a, nr, p, z, level - 1, inInode, buf, index);
      Brelse(z);
      NodeFreed(a, nr, p, z, before, Used());
      Bfree(z);
    }

    // The 512 entries of the index block z in slot p.
    method FreeEntries(ghost a: Disk, nr: nat, ghost p: Path, z: nat, level: nat,
                       ghost inInode: bool, ghost buf: nat, ghost index: nat)
      requires Standing(a, nr, p, inInode, buf, index) && LevelOf(p) == level + 1 && |pins| == |blocks|
      requires z == ZoneAt(a, nr, p) != 0
      modifies this`pins, zmap.bits
      ensures Valid() && pins == old(pins) && EntriesFreed(a, nr, p, BLOCK_INDEXES, old(Used()), Used())
      decreases level, 1
    {
      ghost var before := Used();
      InvShaped(a);
      hide ZoneAt, Below, UsedOf, BelowFreed, Inv, Valid;
      for i := 0 to BLOCK_INDEXES
        invariant Valid() && pins == old(pins) && EntriesFreed(a, nr, p, i, before, Used())
      {
        ghost var u := Used();
        EntryStanding(a, nr, p, i, z, before);
        InodeBfree(a, nr, p + [i], false, z, i, level);
        NextFreed(a, nr, p, i, before, u, Used());
      }
    }

    // The first n zone slots of file nr of disk a are freed and cleared.
    ghost predicate Truncating(a: Disk, nr: nat, n: nat)
      reads this`blocks, this`inodes, zmap.bits
    {
      && Valid() && Inv(a) && blocks == a.blocks && first == a.first && nr < |a.inodes| && n <= ZONE_SLOTS
      && inodes == a.inodes[nr := Inode(a.inodes[nr].size, Cleared(a.inodes[nr].zone, n))]
      && EntriesFreed(a, nr, [], n, a.used, Used())
    }

    lemma TruncatingStart(nr: nat)
      requires Valid() && Inv(State()) && nr < |inodes|
      ensures Truncating(State(), nr, 0)
    {
      assert Cleared(inodes[nr].zone, 0) == inodes[nr].zone;
    }

    lemma SlotStanding(a: Disk, nr: nat, i: nat, buf: nat)
      requires Truncating(a, nr, i) && i < ZONE_SLOTS
      ensures Standing(a, nr, [i], true, buf, i) && [] + [i] == [i]
    {
      hide Valid, ZoneAt, UsedOf;
      assert ZoneAt(a, nr, [i]) == a.inodes[nr].zone[i] by { RootZone(a, nr, i); }
      forall z: nat | Below(a, nr, [i], z) ensures z < |blocks| && Used()[z] {
        assert [] + [i] == [i];
        forall j | 0 <= j < i ensures !Below(a, nr, [] + [j], z) {
          DisjointBelow(a, nr, [], i, j, z);
        }
      }
    }

    // One zone slot: inode_bfree, then zone[i] = 0.
    method FreeZone(ghost a: Disk, nr: nat, i: nat, buf: nat, level: nat)
      requires Truncating(a, nr, i) && i < ZONE_SLOTS && level == LevelOf([i]) && |pins| == |blocks|
      modifies this, zmap.bits
      ensures Truncating(a, nr, i + 1) && pins == old(pins) && |pins| == |blocks|
    {
      SlotStanding(a, nr, i, buf);
      hide Valid, ZoneAt, UsedOf, Below, Inv, Standing;
      InvShapedAt(a, nr);
      ghost var u := Used();
      InodeBfree(a, nr, [i], true, buf, i, level);
      NextFreed(a, nr, [], i, a.used, u, Used());
      inodes := inodes[nr := inodes[nr].(zone := inodes[nr].zone[i := 0])];
      assert inodes[nr].zone == Cleared(a.inodes[nr].zone, i + 1);
    }

    // inode_truncate; `plain` is false for an inode that is neither a file nor a directory.
    method InodeTruncate(nr: nat, plain: bool)
      requires Valid() && Inv(State()) && |pins| == |blocks| && nr < |inodes|
      modifies this, zmap.bits
      ensures Valid() && pins == old(pins)
      ensures State() == if plain then TruncatedDisk(old(State()), nr) else old(State())
    {
      if !plain {
        return;
      }
      ghost var a := State();
      TruncatingStart(nr);
      var buf := InodeBlock(nr);
      hide Truncating, Inv, Valid, UsedOf;
      for i := 0 to DIRECT_BLOCK
        invariant Truncating(a, nr, i) && pins == old(pins) && |pins| == |blocks|
      {
        FreeZone(a, nr, i, buf, 0);
      }
      FreeZone(a, nr, DIRECT_BLOCK, buf, 1);
      FreeZone(a, nr, DIRECT_BLOCK + 1, buf, 2);
      ClearSize(a, nr);
    }

    method ClearSize(ghost a: Disk, nr: nat)
      requires Truncating(a, nr, ZONE_SLOTS)
      modifies this`inodes
      ensures Valid() && Inv(a) && nr < |a.inodes| && State() == TruncatedDisk(a, nr)
    {
      AllFreed(a, nr, Used());
      hide Valid, ZoneAt, UsedOf, Below;
      inodes := inodes[nr := inodes[nr].(size := 0)];
      assert inodes[nr].zone == seq(ZONE_SLOTS, i => 0);
    }
  }

  function Cleared(zone: seq<nat>, n: nat): (r: seq<nat>)
    requires n <= |zone|
    ensures |r| == |zone|
  {
    seq(n, i => 0) + zone[n..]
  }

  lemma RootZone(a: Disk, nr: nat, i: nat)
    requires Shaped(a) && nr < |a.inodes| && i < ZONE_SLOTS
    ensures ZoneAt(a, nr, [i]) == a.inodes[nr].zone[i]
  {}

  lemma InvShapedAt(a: Disk, nr: nat)
    requires Inv(a) && nr < |a.inodes|
    ensures Shaped(a) && |a.inodes[nr].zone| == ZONE_SLOTS
  {}

  // A file's zones are those below its nine slots.
  lemma AllFreed(a: Disk, nr: nat, u: seq<bool>)
    requires Shaped(a) && nr < |a.inodes| && EntriesFreed(a, nr, [], ZONE_SLOTS, a.used, u)
    ensures forall z :: 0 <= z < |a.used| ==> u[z] == (a.used[z] && !Below(a, nr, [], z))
  {
    forall z: nat ensures Below(a, nr, [], z) <==> exists i :: 0 <= i < ZONE_SLOTS && Below(a, nr, [] + [i], z) {
      if Below(a, nr, [], z) {
        var q :| Owns(a, nr, q) && [] <= q && ZoneAt(a, nr, q) == z;
        assert [] + [q[0]] <= q;
        assert Below(a, nr, [] + [q[0]], z);
      }
      forall i | 0 <= i < ZONE_SLOTS && Below(a, nr, [] + [i], z) ensures Below(a, nr, [], z) {
        BelowUp(a, nr, [], [] + [i], z);
      }
    }
  }

  // Exactly the zones below slot p went from used to free.
  ghost predicate BelowFreed(a: Disk, nr: nat, p: Path, before: seq<bool>, after: seq<bool>)
    requires Shaped(a) && nr < |a.inodes|
  {
    |after| == |before| && forall z :: 0 <= z < |before| ==> after[z] == (before[z] && !Below(a, nr, p, z))
  }

  // The same for the first n entries of the block in slot p.
  ghost predicate EntriesFreed(a: Disk, nr: nat, p: Path, n: nat, before: seq<bool>, after: seq<bool>)
    requires Shaped(a) && nr < |a.inodes|
  {
    |after| == |before| && forall z :: 0 <= z < |before| ==>
      after[z] == (before[z] && forall i :: 0 <= i < n ==> !Below(a, nr, p + [i], z))
  }

  lemma EmptyFreed(a: Disk, nr: nat, p: Path, u: seq<bool>)
    requires Shaped(a) && nr < |a.inodes| && ValidSlot(p) && ZoneAt(a, nr, p) == 0
    ensures BelowFreed(a, nr, p, u, u)
  {
    forall q | ValidSlot(q) && p <= q ensures ZoneAt(a, nr, q) == 0 {
      EmptyBelow(a, nr, p, q);
    }
  }

  lemma LeafFreed(a: Disk, nr: nat, p: Path, u: seq<bool>)
    requires Shaped(a) && nr < |a.inodes| && ValidSlot(p) && LevelOf(p) == 0 && 0 < ZoneAt(a, nr, p) < |u|
    ensures BelowFreed(a, nr, p, u, u[ZoneAt(a, nr, p) := false])
  {
    forall z: nat | z < |u| ensures Below(a, nr, p, z) <==> z == ZoneAt(a, nr, p) {
      LeafBelow(a, nr, p, z);
    }
  }

  lemma NextFreed(a: Disk, nr: nat, p: Path, i: nat, before: seq<bool>, u: seq<bool>, after: seq<bool>)
    requires Shaped(a) && nr < |a.inodes| && EntriesFreed(a, nr, p, i, before, u) &&
      BelowFreed(a, nr, p + [i], u, after)
    ensures EntriesFreed(a, nr, p, i + 1, before, after)
  {
    hide Below;
  }

  // The index block goes last; none of its entries' subtrees contained it.
  lemma NodeFreed(a: Disk, nr: nat, p: Path, z: nat, before: seq<bool>, u: seq<bool>)
    requires Inv(a) && nr < |a.inodes| && ValidSlot(p) && LevelOf(p) > 0 && z == ZoneAt(a, nr, p) != 0
    requires EntriesFreed(a, nr, p, BLOCK_INDEXES, before, u) && z < |before| && before[z]
    ensures u[z] && BelowFreed(a, nr, p, before, u[z := false])
  {
    hide Below, ZoneAt;
    forall i: nat | i < BLOCK_INDEXES ensures !Below(a, nr, p + [i], z) {
      if Below(a, nr, p + [i], z) {
        DisjointBelow(a, nr, p, i, i + 1, z);
      }
    }
    forall w: nat
      ensures Below(a, nr, p, w) <==> w == z || exists i :: 0 <= i < BLOCK_INDEXES && Below(a, nr, p + [i], w)
    {
      NodeBelow(a, nr, p, w);
    }
  }

  lemma ReadChunk(a: Disk, nr: nat, offset: nat, chars: nat)
    requires Inv(a) && nr < |a.inodes| && offset + chars <= a.inodes[nr].size &&
      offset % BLOCK_SIZE + chars <= BLOCK_SIZE
    requires 0 < chars
    ensures Mapped(a, nr) && offset / BLOCK_SIZE < TOTAL_BLOCK
    ensures var z := ZoneAt(a, nr, SlotOf(offset / BLOCK_SIZE));
      z < |a.blocks| && Content(a, nr)[offset..offset + chars]
                     == a.blocks[z][offset % BLOCK_SIZE..offset % BLOCK_SIZE + chars]
  {
    assert Mapped(a, nr);
    assert Owns(a, nr, SlotOf(offset / BLOCK_SIZE));
    forall k | offset <= k < offset + chars ensures k / BLOCK_SIZE == offset / BLOCK_SIZE {}
  }
}
