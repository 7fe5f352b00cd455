// Values of the paging code: page entries, frames, reference counts and the
// functions that say what each operation of src/kernel/memory.c does to them.
// The class that performs the operations in place is in Memory.dfy.
module PageTables {
  import opened Wrappers

  const SLOTS := 1024             // entries of a directory or of a table
  const USER_LO := 4              // directory slots below this belong to the kernel
  const USER_HI := 64             // USER_STACK_TOP >> 22
  const TASK_NR := 64
  const PAGE_SIZE := 4096
  const KERNEL_FRAMES := 4096     // the first 16M are mapped by the kernel, count 1 for ever
  const COUNT_LIMIT := 255
  const FREE_SLACK := 3840        // free_pages never accounts for frames 256..4096

  type byte = b: int | 0 <= b < 256

  datatype Entry = Entry(present: bool, write: bool, shared: bool, readonly: bool, index: nat)

  // A physical frame, seen as what it is used for.
  datatype Frame = Table(slots: seq<Entry>) | Data(bytes: seq<byte>)

  // start is start_page, where get_page begins to look; dirs[p] is the page directory of process p.
  datatype Ram = Ram(start: nat, counts: seq<nat>, free: int, frames: seq<Frame>, dirs: seq<Option<seq<Entry>>>)

  const Absent := Entry(false, false, false, false, 0)

  function EntryInit(index: nat): Entry {
    Entry(true, true, false, false, index)
  }

  // ---------------------------------------------------------------- lookups

  function Slots(frames: seq<Frame>, i: nat): seq<Entry> {
    if i < |frames| && frames[i].Table? then frames[i].slots else []
  }

  predicate TabAt(ram: Ram, p: nat, d: nat) {
    p < |ram.dirs| && ram.dirs[p].Some? && USER_LO <= d < USER_HI <= |ram.dirs[p].value| &&
    ram.dirs[p].value[d].present
  }

  function Pde(ram: Ram, p: nat, d: nat): Entry
    requires TabAt(ram, p, d)
  {
    ram.dirs[p].value[d]
  }

  predicate PgAt(ram: Ram, p: nat, d: nat, t: nat) {
    TabAt(ram, p, d) && t < |Slots(ram.frames, Pde(ram, p, d).index)| &&
    Slots(ram.frames, Pde(ram, p, d).index)[t].present
  }

  function Pte(ram: Ram, p: nat, d: nat, t: nat): Entry
    requires PgAt(ram, p, d, t)
  {
    Slots(ram.frames, Pde(ram, p, d).index)[t]
  }

  // ---------------------------------------------- references, counted anew

  function One(e: Entry, f: nat): nat {
    if e.present && e.index == f then 1 else 0
  }

  function TableRefs(slots: seq<Entry>, n: nat, f: nat): nat
    requires n <= |slots|
  {
    if n == 0 then 0 else TableRefs(slots, n - 1, f) + One(slots[n - 1], f)
  }

  function SlotRefs(frames: seq<Frame>, e: Entry, f: nat): nat {
    if !e.present then 0
    else One(e, f) + TableRefs(Slots(frames, e.index), |Slots(frames, e.index)|, f)
  }

  function DirRefs(frames: seq<Frame>, dir: seq<Entry>, n: nat, f: nat): nat
    requires n <= |dir|
  {
    if n <= USER_LO then 0
    else DirRefs(frames, dir, n - 1, f) + SlotRefs(frames, dir[n - 1], f)
  }

  function ProcRefs(frames: seq<Frame>, dir: Option<seq<Entry>>, f: nat): nat {
    if dir.None? || |dir.value| < USER_HI then 0 else DirRefs(frames, dir.value, USER_HI, f)
  }

  function AllRefs(frames: seq<Frame>, dirs: seq<Option<seq<Entry>>>, n: nat, f: nat): nat
    requires n <= |dirs|
  {
    if n == 0 then 0 else AllRefs(frames, dirs, n - 1, f) + ProcRefs(frames, dirs[n - 1], f)
  }

  // Number of (process, slot) pairs whose table is f plus the number of
  // (process, slot, slot) triples whose page is f.
  function Refs(ram: Ram, f: nat): nat {
    AllRefs(ram.frames, ram.dirs, |ram.dirs|, f)
  }

  function Base(f: nat): nat {
    if f < KERNEL_FRAMES then 1 else 0
  }

  function Zeros(counts: seq<nat>, n: nat): nat
    requires n <= |counts|
  {
    if n == 0 then 0 else Zeros(counts, n - 1) + (if counts[n - 1] == 0 then 1 else 0)
  }

  // ------------------------------------------------------------- invariant

  ghost predicate WellFormed(ram: Ram) {
    && ram.start <= KERNEL_FRAMES <= |ram.frames| == |ram.counts|
    && |ram.dirs| == TASK_NR
    && (forall p :: 0 <= p < TASK_NR && ram.dirs[p].Some? ==> |ram.dirs[p].value| == SLOTS)
    && (forall p, d :: TabAt(ram, p, d) ==>
          KERNEL_FRAMES <= Pde(ram, p, d).index < |ram.frames|
          && ram.frames[Pde(ram, p, d).index].Table?
          && |ram.frames[Pde(ram, p, d).index].slots| == SLOTS)
    && (forall p, d, t :: PgAt(ram, p, d, t) ==>
          KERNEL_FRAMES <= Pte(ram, p, d, t).index < |ram.frames|
          && ram.frames[Pte(ram, p, d, t).index].Data?
          && |ram.frames[Pte(ram, p, d, t).index].bytes| == PAGE_SIZE
          && !Pte(ram, p, d, t).shared && (Pte(ram, p, d, t).readonly ==> !Pte(ram, p, d, t).write))
  }

  // memory_map is exact.
  ghost predicate Exact(ram: Ram) {
    forall f :: 0 <= f < |ram.counts| ==> ram.counts[f] == Base(f) + Refs(ram, f)
  }

  ghost predicate FreeExact(ram: Ram) {
    ram.free == Zeros(ram.counts, |ram.counts|) + FREE_SLACK
  }

  // A frame shared by several processes sits at the same place in all of them.
  ghost predicate OneSlot(ram: Ram) {
    && (forall p, d, q, e :: TabAt(ram, p, d) && TabAt(ram, q, e) && Pde(ram, p, d).index == Pde(ram, q, e).index
          ==> d == e)
    && (forall p, d, t, q, e, u ::
          (PgAt(ram, p, d, t) && PgAt(ram, q, e, u) && Pte(ram, p, d, t).index == Pte(ram, q, e, u).index)
          ==> d == e && t == u)
  }

  // Whatever is writable is not shared, at either level.
  ghost predicate Exclusive(ram: Ram)
    requires WellFormed(ram)
  {
    && (forall p, d :: TabAt(ram, p, d) && Pde(ram, p, d).write ==> ram.counts[Pde(ram, p, d).index] == 1)
    && (forall p, d, t :: PgAt(ram, p, d, t) && Pte(ram, p, d, t).write ==>
          ram.counts[Pde(ram, p, d).index] == 1 && ram.counts[Pte(ram, p, d, t).index] == 1)
  }

  ghost predicate Inv(ram: Ram) {
    WellFormed(ram) && Exact(ram) && FreeExact(ram) && OneSlot(ram) && Exclusive(ram)
  }

  // ------------------------------------------------------------ operations

  // The frame get_page finds: the first one with count 0.
  function FirstFree(counts: seq<nat>, from: nat): (g: nat)
    requires from <= |counts|
    ensures from <= g <= |counts|
    ensures g < |counts| ==> counts[g] == 0
    ensures forall f :: from <= f < g ==> counts[f] != 0
    decreases |counts| - from
  {
    if from == |counts| || counts[from] == 0 then from else FirstFree(counts, from + 1)
  }

  function SetPde(ram: Ram, p: nat, d: nat, e: Entry): Ram
    requires p < |ram.dirs| && ram.dirs[p].Some? && d < |ram.dirs[p].value|
  {
    ram.(dirs := ram.dirs[p := Some(ram.dirs[p].value[d := e])])
  }

  function SetPte(ram: Ram, tab: nat, t: nat, e: Entry): Ram
    requires tab < |ram.frames| && ram.frames[tab].Table? && t < |ram.frames[tab].slots|
  {
    ram.(frames := ram.frames[tab := Table(ram.frames[tab].slots[t := e])])
  }

  // get_page handed out g and content was copied into it.
  function Take(ram: Ram, g: nat, content: Frame): Ram
    requires g < |ram.counts| == |ram.frames|
  {
    ram.(counts := ram.counts[g := 1], free := ram.free - 1, frames := ram.frames[g := content])
  }

  function Drop(ram: Ram, f: nat): Ram
    requires f < |ram.counts| && ram.counts[f] >= 1
  {
    ram.(counts := ram.counts[f := ram.counts[f] - 1])
  }

  // copy_on_write at level 2: the directory entry becomes writable, over a private copy of a shared table.
  function UnshareTable(ram: Ram, p: nat, d: nat, g: nat): Ram
    requires TabAt(ram, p, d) && Pde(ram, p, d).index < |ram.counts| == |ram.frames|
    requires ram.counts[Pde(ram, p, d).index] >= 1
    requires !Pde(ram, p, d).write && ram.counts[Pde(ram, p, d).index] > 1 ==> g < |ram.counts| && ram.counts[g] == 0
  {
    var e := Pde(ram, p, d);
    if e.write then ram
    else if ram.counts[e.index] == 1 then SetPde(ram, p, d, e.(write := true))
    else SetPde(Drop(Take(ram, g, ram.frames[e.index]), e.index), p, d, e.(write := true, index := g))
  }

  // copy_on_write at level 3: the same for the page behind a table entry.
  function UnsharePage(ram: Ram, p: nat, d: nat, t: nat, g: nat): Ram
    requires PgAt(ram, p, d, t) && Pde(ram, p, d).index < |ram.counts| == |ram.frames|
    requires Pte(ram, p, d, t).index < |ram.counts| && ram.counts[Pte(ram, p, d, t).index] >= 1
    requires ram.counts[Pde(ram, p, d).index] >= 1
    requires !Pte(ram, p, d, t).write && ram.counts[Pte(ram, p, d, t).index] > 1 ==>
      g < |ram.counts| && ram.counts[g] == 0
  {
    var e := Pte(ram, p, d, t);
    var tab := Pde(ram, p, d).index;
    if e.write then ram
    else if ram.counts[e.index] == 1 then SetPte(ram, tab, t, e.(write := true))
    else SetPte(Drop(Take(ram, g, ram.frames[e.index]), e.index), tab, t, e.(write := true, index := g))
  }

  function Protect(e: Entry): Entry {
    if e.present && !e.shared then e.(write := false) else e
  }

  function ProtectSlots(slots: seq<Entry>): (r: seq<Entry>)
    ensures |r| == |slots|
  {
    seq(|slots|, i requires 0 <= i < |slots| => Protect(slots[i]))
  }

  function ProtectDir(dir: seq<Entry>): (r: seq<Entry>)
    ensures |r| == |dir|
  {
    seq(|dir|, i requires 0 <= i < |dir| =>
      if USER_LO <= i < USER_HI && dir[i].present then dir[i].(write := false) else dir[i])
  }

  ghost predicate UsesTable(dir: seq<Entry>, f: nat) {
    exists d :: USER_LO <= d < USER_HI <= |dir| && dir[d].present && dir[d].index == f
  }

  ghost function ProtectFrames(frames: seq<Frame>, dir: seq<Entry>): (r: seq<Frame>)
    ensures |r| == |frames|
  {
    seq(|frames|, f requires 0 <= f < |frames| =>
      if frames[f].Table? && UsesTable(dir, f) then Table(ProtectSlots(frames[f].slots)) else frames[f])
  }

  // copy_pde: parent p and child c share every table and page, all read-only.
  ghost function Fork(ram: Ram, p: nat, c: nat): Ram
    requires p < |ram.dirs| && c < |ram.dirs| && ram.dirs[p].Some?
  {
    var dir := ram.dirs[p].value;
    Ram(ram.start,
        seq(|ram.counts|, f requires 0 <= f < |ram.counts| => ram.counts[f] + ProcRefs(ram.frames, ram.dirs[p], f)),
        ram.free,
        ProtectFrames(ram.frames, dir),
        ram.dirs[p := Some(ProtectDir(dir))][c := Some(ProtectDir(dir))])
  }

  // free_pde: the references of p are given back, frames whose count drops to 0 become free.
  function Exit(ram: Ram, p: nat): Ram
    requires p < |ram.dirs|
  {
    var counts := seq(|ram.counts|, f requires 0 <= f < |ram.counts| =>
      if ram.counts[f] >= ProcRefs(ram.frames, ram.dirs[p], f)
      then ram.counts[f] - ProcRefs(ram.frames, ram.dirs[p], f) else 0);
    ram.(counts := counts,
         free := ram.free + Zeros(counts, |counts|) - Zeros(ram.counts, |ram.counts|),
         dirs := ram.dirs[p := None])
  }

  // get_pte with create: a missing table is taken and cleared.
  function LinkTable(ram: Ram, p: nat, d: nat, g: nat): Ram
    requires p < |ram.dirs| && ram.dirs[p].Some? && d < |ram.dirs[p].value| && |ram.counts| == |ram.frames|
    requires !ram.dirs[p].value[d].present ==> g < |ram.counts| && ram.counts[g] == 0
  {
    if ram.dirs[p].value[d].present then ram
    else SetPde(Take(ram, g, Table(seq(SLOTS, i => Absent))), p, d, EntryInit(g))
  }

  // The rest of link_page; raw is what the frame happens to hold.
  function LinkSlot(ram: Ram, p: nat, d: nat, t: nat, g: nat, raw: seq<byte>): Ram
    requires TabAt(ram, p, d) && Pde(ram, p, d).index < |ram.counts| == |ram.frames|
    requires ram.frames[Pde(ram, p, d).index].Table? && t < |ram.frames[Pde(ram, p, d).index].slots|
    requires ram.counts[Pde(ram, p, d).index] != 0
    requires !PgAt(ram, p, d, t) ==> g < |ram.counts| && ram.counts[g] == 0
  {
    if PgAt(ram, p, d, t) then ram
    else SetPte(Take(ram, g, Data(raw)), Pde(ram, p, d).index, t, EntryInit(g))
  }

  // What sys_mmap makes of the entry once link_page has left a page there.
  function Guard(ram: Ram, p: nat, d: nat, t: nat, write: bool): Ram
    requires PgAt(ram, p, d, t)
  {
    SetPte(ram, Pde(ram, p, d).index, t, Pte(ram, p, d, t).(write := write, readonly := !write))
  }

  function PutPage(ram: Ram, f: nat): Ram
    requires f < |ram.counts| && ram.counts[f] >= 1
  {
    Drop(ram, f).(free := ram.free + if ram.counts[f] == 1 then 1 else 0)
  }

  function Unlink(ram: Ram, p: nat, d: nat, t: nat): Ram
    requires PgAt(ram, p, d, t) ==>
      Pte(ram, p, d, t).index < |ram.counts| && ram.counts[Pte(ram, p, d, t).index] >= 1
  {
    if !PgAt(ram, p, d, t) then ram
    else PutPage(SetPte(ram, Pde(ram, p, d).index, t, Pte(ram, p, d, t).(present := false)), Pte(ram, p, d, t).index)
  }

  // A user store: the processor requires both levels to be writable.
  function Poke(ram: Ram, p: nat, d: nat, t: nat, offset: nat, b: byte): Ram
    requires PgAt(ram, p, d, t) && Pte(ram, p, d, t).index < |ram.frames|
    requires ram.frames[Pte(ram, p, d, t).index].Data? && offset < |ram.frames[Pte(ram, p, d, t).index].bytes|
  {
    var f := Pte(ram, p, d, t).index;
    ram.(frames := ram.frames[f := Data(ram.frames[f].bytes[offset := b])])
  }
}
