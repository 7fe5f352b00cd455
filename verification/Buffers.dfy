// The buffer cache: what it holds, what each call of src/kernel/buffer.c does to it,
// and the disk a reader sees through it.
module Buffers {
  import opened Lists
  import opened Wrappers

  const HASH_COUNT := 31

  datatype Key = Key(dev: bv32, block: bv32)
  type Data = seq<bv8>
  datatype Buffer = Buffer(key: Key, count: nat, dirty: bool, valid: bool, data: Data)

  // free is the list of released buffers, the last released first; chains are the hash
  // lists, of buffer numbers; limit is how many buffers there is memory for.
  datatype Cache = Cache(limit: nat, buffers: seq<Buffer>, free: seq<nat>, chains: seq<seq<nat>>, disk: map<Key, Data>)

  function Hash(k: Key): (h: nat)
    ensures h < HASH_COUNT
  {
    ((k.dev ^ k.block) as int) % HASH_COUNT
  }

  // The device holds something for every key.
  function OnDisk(disk: map<Key, Data>, k: Key): Data {
    if k in disk then disk[k] else []
  }

  // ----------------------------------------------------------- invariant

  predicate Indexed(c: Cache) {
    && |c.chains| == HASH_COUNT
    && (forall h, i :: 0 <= h < HASH_COUNT && i in c.chains[h] ==> i < |c.buffers|)
    && (forall i :: i in c.free ==> i < |c.buffers|)
  }

  // At most one buffer for a block.
  predicate OneEach(c: Cache) {
    forall i, j :: 0 <= i < j < |c.buffers| ==> c.buffers[i].key != c.buffers[j].key
  }

  // Every buffer is once on the chain of its own hash, and on no other.
  predicate Chained(c: Cache)
    requires |c.chains| == HASH_COUNT
  {
    && (forall h :: 0 <= h < HASH_COUNT ==> NoDup(c.chains[h]))
    && (forall h, i :: 0 <= h < HASH_COUNT && 0 <= i < |c.buffers| ==>
        (i in c.chains[h] <==> h == Hash(c.buffers[i].key)))
  }

  // The free list is the buffers nobody holds, and those are never dirty.
  predicate Freed(c: Cache) {
    && NoDup(c.free)
    && (forall i :: 0 <= i < |c.buffers| ==> (i in c.free <==> c.buffers[i].count == 0))
    && (forall i :: 0 <= i < |c.buffers| && c.buffers[i].count == 0 ==> !c.buffers[i].dirty)
  }

  // What is read and not changed is what the device holds.
  predicate Coherent(c: Cache) {
    forall i :: 0 <= i < |c.buffers| && c.buffers[i].valid && !c.buffers[i].dirty ==>
      c.buffers[i].data == OnDisk(c.disk, c.buffers[i].key)
  }

  predicate Inv(c: Cache) {
    Indexed(c) && OneEach(c) && Chained(c) && Freed(c) && Coherent(c) && |c.buffers| <= c.limit
  }

  // ---------------------------------------------------------- operations

  // get_from_hash_table's walk of one chain.
  function FindKey(chain: seq<nat>, buffers: seq<Buffer>, k: Key): Option<nat>
    requires forall i :: i in chain ==> i < |buffers|
  {
    if chain == [] then None
    else assert chain[0] in chain; if buffers[chain[0]].key == k then Some(chain[0])
    else assert forall i :: i in chain[1..] ==> i in chain; FindKey(chain[1..], buffers, k)
  }

  function Lookup(c: Cache, k: Key): Option<nat>
    requires Indexed(c)
  {
    FindKey(c.chains[Hash(k)], c.buffers, k)
  }

  lemma {:induction false} FindKeySound(chain: seq<nat>, buffers: seq<Buffer>, k: Key)
    requires forall i :: i in chain ==> i < |buffers|
    ensures var r := FindKey(chain, buffers, k);
      if r.Some? then r.value in chain && r.value < |buffers| && buffers[r.value].key == k
      else forall i :: i in chain ==> buffers[i].key != k
  {
    if chain != [] {
      assert forall i :: i in chain[1..] ==> i in chain;
      FindKeySound(chain[1..], buffers, k);
    }
  }

  // A block has a buffer just when its chain shows one.
  lemma LookupIff(c: Cache, k: Key)
    requires Inv(c)
    ensures var r := Lookup(c, k);
      if r.Some? then r.value < |c.buffers| && c.buffers[r.value].key == k
      else forall i :: 0 <= i < |c.buffers| ==> c.buffers[i].key != k
  {
    FindKeySound(c.chains[Hash(k)], c.buffers, k);
  }

  lemma LookupAt(c: Cache, k: Key, i: nat)
    requires Inv(c) && i < |c.buffers| && c.buffers[i].key == k
    ensures Lookup(c, k) == Some(i)
  {
    LookupIff(c, k);
  }

  // What a reader of block k must see.
  function Logical(c: Cache, k: Key): Data
    requires Indexed(c)
  {
    var r := Lookup(c, k);
    FindKeySound(c.chains[Hash(k)], c.buffers, k);
    if r.Some? && (c.buffers[r.value].valid || c.buffers[r.value].dirty) then c.buffers[r.value].data
    else OnDisk(c.disk, k)
  }

  // getblk can serve k without waiting for a release.
  predicate Available(c: Cache, k: Key)
    requires Indexed(c)
  {
    Lookup(c, k).Some? || |c.buffers| < c.limit || c.free != []
  }

  function Hit(c: Cache, i: nat): Cache
    requires i < |c.buffers|
  {
    c.(free := Without(c.free, i), buffers := c.buffers[i := c.buffers[i].(count := c.buffers[i].count + 1)])
  }

  // hash_locate of buffer i under k
  function Located(chains: seq<seq<nat>>, i: nat, k: Key): seq<seq<nat>>
    requires |chains| == HASH_COUNT
  {
    chains[Hash(k) := [i] + chains[Hash(k)]]
  }

  function Made(c: Cache, k: Key): Cache
    requires |c.chains| == HASH_COUNT
  {
    c.(buffers := c.buffers + [Buffer(k, 1, false, false, [])], chains := Located(c.chains, |c.buffers|, k))
  }

  // The block that leaves: the one released longest ago.
  function Oldest(c: Cache): (i: nat)
    requires c.free != []
    ensures i in c.free
  {
    c.free[|c.free| - 1]
  }

  function Evicted(c: Cache, k: Key): Cache
    requires Indexed(c) && c.free != []
  {
    var i := Oldest(c);
    var was := Hash(c.buffers[i].key);
    c.(free := c.free[..|c.free| - 1],
       buffers := c.buffers[i := c.buffers[i].(key := k, count := 1, valid := false)],
       chains := Located(c.chains[was := Without(c.chains[was], i)], i, k))
  }

  function Getblk(c: Cache, k: Key): (r: (Cache, nat))
    requires Indexed(c) && Available(c, k)
    ensures r.1 < |r.0.buffers|
  {
    var hit := Lookup(c, k);
    FindKeySound(c.chains[Hash(k)], c.buffers, k);
    if hit.Some? then (Hit(c, hit.value), hit.value)
    else if |c.buffers| < c.limit then (Made(c, k), |c.buffers|)
    else (Evicted(c, k), Oldest(c))
  }

  // The part of bread behind getblk.
  function Loaded(c: Cache, i: nat): Cache
    requires i < |c.buffers|
  {
    var b := c.buffers[i];
    if b.valid then c
    else c.(buffers := c.buffers[i := b.(data := OnDisk(c.disk, b.key), dirty := false, valid := true)])
  }

  function Bwrite(c: Cache, i: nat): Cache
    requires i < |c.buffers|
  {
    var b := c.buffers[i];
    if !b.dirty then c
    else c.(disk := c.disk[b.key := b.data], buffers := c.buffers[i := b.(dirty := false, valid := true)])
  }

  function Brelse(c: Cache, i: nat): Cache
    requires i < |c.buffers| && c.buffers[i].count > 0
  {
    var d := Bwrite(c, i);
    var b := d.buffers[i];
    var e := d.(buffers := d.buffers[i := b.(count := b.count - 1)]);
    if b.count == 1 then e.(free := [i] + e.free) else e
  }

  // A holder changes the contents and marks the buffer dirty.
  function Stored(c: Cache, i: nat, data: Data): Cache
    requires i < |c.buffers|
  {
    c.(buffers := c.buffers[i := c.buffers[i].(data := data, dirty := true)])
  }

  // ------------------------------------------------------- what getblk keeps

  lemma HitKeeps(c: Cache, i: nat)
    requires Inv(c) && i < |c.buffers|
    ensures Inv(Hit(c, i))
  {
    WithoutMembers(c.free, i);
  }

  lemma MadeKeeps(c: Cache, k: Key)
    requires Inv(c) && Lookup(c, k).None? && |c.buffers| < c.limit
    ensures Inv(Made(c, k))
  {
    LookupIff(c, k);
    PushNoDup(c.chains[Hash(k)], |c.buffers|);
  }

  // No other buffer than the one at the back of the free list is block k's.
  predicate NoOther(c: Cache, k: Key)
    requires c.free != []
  {
    forall i :: 0 <= i < |c.buffers| && c.buffers[i].key == k ==> i == Oldest(c)
  }

  // The buffer moves from its old chain to the front of its new one.
  lemma MovedChains(c: Cache, k: Key, i: nat, h: nat)
    requires Indexed(c) && Chained(c) && i < |c.buffers| && h < HASH_COUNT
    ensures var was := Hash(c.buffers[i].key); var t := Located(c.chains[was := Without(c.chains[was], i)], i, k);
      NoDup(t[h]) && forall j :: j in t[h] <==> (j == i && h == Hash(k)) || (j != i && j in c.chains[h])
  {
    hide Hash;
    var was := Hash(c.buffers[i].key);
    var gone := c.chains[was := Without(c.chains[was], i)];
    WithoutMembers(c.chains[was], i);
    assert h != was ==> i !in c.chains[h];
    hide Without;
    if h == Hash(k) {
      PushNoDup(gone[h], i);
    }
  }

  lemma EvictedChained(c: Cache, k: Key)
    requires Inv(c) && c.free != []
    ensures Indexed(Evicted(c, k)) && Chained(Evicted(c, k))
  {
    hide Hash, Without, Freed, OneEach, Coherent, NoDup;
    var i := Oldest(c);
    var d := Evicted(c, k);
    assert i < |c.buffers| == |d.buffers|;
    forall j | j in d.free ensures j < |d.buffers| {
      assert j in c.free;
    }
    forall h: nat | h < HASH_COUNT
      ensures var t := d.chains[h];
        NoDup(t) && forall j :: j in t <==> (j == i && h == Hash(k)) || (j != i && j in c.chains[h])
    {
      MovedChains(c, k, i, h);
    }
  }

  lemma EvictedKeeps(c: Cache, k: Key)
    requires Inv(c) && c.free != [] && NoOther(c, k)
    ensures Inv(Evicted(c, k))
    ensures !c.buffers[Oldest(c)].dirty && c.buffers[Oldest(c)].count == 0
  {
    hide Hash, Without, Located, Chained, Indexed;
    EvictedChained(c, k);
    var i := Oldest(c);
    OldestIsFree(c);
    assert c.free == c.free[..|c.free| - 1] + [i];
    var d := Evicted(c, k);
    assert |d.buffers| == |c.buffers| && forall j :: 0 <= j < |c.buffers| && j != i ==> d.buffers[j] == c.buffers[j];
    assert Freed(d);
    assert OneEach(d) && Coherent(d);
  }

  lemma OldestIsFree(c: Cache)
    requires Inv(c) && c.free != []
    ensures Oldest(c) < |c.buffers| && c.buffers[Oldest(c)].count == 0 && !c.buffers[Oldest(c)].dirty
  {}

  // A task that waited in get_free_buffer does not look its block up again: what it then takes
  // keeps one buffer a block just when no other one is the block's by now.
  lemma TakenKeepsIff(c: Cache, k: Key)
    requires Inv(c) && c.free != []
    ensures Inv(Evicted(c, k)) <==> NoOther(c, k)
  {
    if NoOther(c, k) {
      EvictedKeeps(c, k);
    } else {
      assert Oldest(c) < |c.buffers|;
      var i :| 0 <= i < |c.buffers| && c.buffers[i].key == k && i != Oldest(c);
      var d := Evicted(c, k);
      assert d.buffers[i].key == d.buffers[Oldest(c)].key;
    }
  }

  lemma GetblkKeeps(c: Cache, k: Key)
    requires Inv(c) && Available(c, k)
    ensures var (d, i) := Getblk(c, k);
      Inv(d) && i < |d.buffers| && d.buffers[i].key == k && d.buffers[i].count > 0 && d.disk == c.disk
    ensures var (d, i) := Getblk(c, k);
      Lookup(c, k).None? ==> !d.buffers[i].valid && !d.buffers[i].dirty && d.buffers[i].count == 1
  {
    LookupIff(c, k);
    hide Inv, Lookup, Hash;
    if Lookup(c, k).Some? {
      HitKeeps(c, Lookup(c, k).value);
    } else if |c.buffers| < c.limit {
      MadeKeeps(c, k);
    } else {
      EvictedKeeps(c, k);
    }
  }

  // What buffer i shows of its block.
  function View(c: Cache, i: nat): Data
    requires i < |c.buffers|
  {
    var b := c.buffers[i];
    if b.valid || b.dirty then b.data else OnDisk(c.disk, b.key)
  }

  lemma LogicalAt(c: Cache, i: nat)
    requires Inv(c) && i < |c.buffers|
    ensures Logical(c, c.buffers[i].key) == View(c, i)
  {
    LookupAt(c, c.buffers[i].key, i);
  }

  predicate Absent(c: Cache, q: Key) {
    forall i :: 0 <= i < |c.buffers| ==> c.buffers[i].key != q
  }

  lemma LogicalAbsent(c: Cache, q: Key)
    requires Inv(c) && Absent(c, q)
    ensures Logical(c, q) == OnDisk(c.disk, q)
  {
    LookupIff(c, q);
  }

  lemma FindOrAbsent(c: Cache, q: Key) returns (r: Option<nat>)
    requires Inv(c)
    ensures if r.Some? then r.value < |c.buffers| && c.buffers[r.value].key == q else Absent(c, q)
  {
    LookupIff(c, q);
    r := Lookup(c, q);
  }

  // Two caches with the same keys show the same, if each buffer does and the device does elsewhere.
  lemma SameLogical(c: Cache, d: Cache, q: Key)
    requires Inv(c) && Inv(d) && |c.buffers| == |d.buffers|
    requires forall i :: 0 <= i < |c.buffers| ==> c.buffers[i].key == d.buffers[i].key
    requires forall i :: 0 <= i < |c.buffers| && c.buffers[i].key == q ==> View(c, i) == View(d, i)
    requires Absent(c, q) ==> OnDisk(c.disk, q) == OnDisk(d.disk, q)
    ensures Logical(d, q) == Logical(c, q)
  {
    var r := FindOrAbsent(c, q);
    hide Inv, Logical;
    if r.Some? {
      LogicalAt(c, r.value);
      LogicalAt(d, r.value);
    } else {
      LogicalAbsent(c, q);
      LogicalAbsent(d, q);
    }
  }

  lemma MadeShows(c: Cache, k: Key, q: Key)
    requires Inv(c) && Absent(c, k) && Inv(Made(c, k))
    ensures Logical(Made(c, k), q) == Logical(c, q)
  {
    var d := Made(c, k);
    var r := FindOrAbsent(c, q);
    hide Lookup, Chained, Freed, Logical;
    assert forall j :: 0 <= j < |c.buffers| ==> d.buffers[j] == c.buffers[j];
    if r.Some? {
      LogicalAt(c, r.value);
      LogicalAt(d, r.value);
    } else {
      LogicalAbsent(c, q);
      if q == k {
        LogicalAt(d, |c.buffers|);
      } else {
        LogicalAbsent(d, q);
      }
    }
  }

  // The buffer that leaves was clean: the device has what it showed.
  lemma EvictedShows(c: Cache, k: Key, q: Key)
    requires Inv(c) && Absent(c, k) && c.free != [] && Inv(Evicted(c, k)) && !c.buffers[Oldest(c)].dirty
    ensures Logical(Evicted(c, k), q) == Logical(c, q)
  {
    var d, i := Evicted(c, k), Oldest(c);
    var r := FindOrAbsent(c, q);
    hide Lookup, Chained, Freed, Logical;
    assert forall j :: 0 <= j < |c.buffers| && j != i ==> d.buffers[j] == c.buffers[j];
    if r.Some? && r.value != i {
      LogicalAt(c, r.value);
      LogicalAt(d, r.value);
    } else if r.Some? {
      LogicalAt(c, i);
      LogicalAbsent(d, q);
    } else {
      LogicalAbsent(c, q);
      if q == k {
        LogicalAt(d, i);
      } else {
        LogicalAbsent(d, q);
      }
    }
  }

  // Taking a buffer for k changes no reader's view of any block.
  lemma GetblkShows(c: Cache, k: Key, q: Key)
    requires Inv(c) && Available(c, k)
    ensures Inv(Getblk(c, k).0) && Logical(Getblk(c, k).0, q) == Logical(c, q)
  {
    GetblkKeeps(c, k);
    LookupIff(c, k);
    hide Lookup, Chained, Freed, Logical;
    if Lookup(c, k).Some? {
      SameLogical(c, Getblk(c, k).0, q);
    } else if |c.buffers| < c.limit {
      MadeShows(c, k, q);
    } else {
      EvictedKeeps(c, k);
      EvictedShows(c, k, q);
    }
  }

  // What bread returns: a valid buffer of the block, with its last contents.
  lemma BreadReturns(c: Cache, k: Key)
    requires Inv(c) && Available(c, k)
    requires var (d, i) := Getblk(c, k); d.buffers[i].dirty ==> d.buffers[i].valid
    ensures var (d, i) := Getblk(c, k); i < |d.buffers| && var e := Loaded(d, i);
      && Inv(e) && e.disk == c.disk && e.buffers[i].key == k && e.buffers[i].valid && e.buffers[i].count > 0
      && e.buffers[i].data == Logical(c, k)
      && forall q :: Logical(e, q) == Logical(c, q)
  {
    GetblkKeeps(c, k);
    var (d, i) := Getblk(c, k);
    hide Getblk;
    LoadedKeeps(d, i);
    var e := Loaded(d, i);
    LogicalAt(e, i);
    forall q ensures Logical(e, q) == Logical(c, q) {
      GetblkShows(c, k, q);
    }
  }

  lemma LoadedKeeps(d: Cache, i: nat)
    requires Inv(d) && i < |d.buffers| && (d.buffers[i].dirty ==> d.buffers[i].valid)
    ensures Inv(Loaded(d, i)) && forall q :: Logical(Loaded(d, i), q) == Logical(d, q)
  {
    var e := Loaded(d, i);
    assert Inv(e);
    forall q ensures Logical(e, q) == Logical(d, q) {
      hide Chained, Freed, Logical;
      SameLogical(d, e, q);
    }
  }

  // bread reads over a buffer that is dirty and not valid: it keeps what readers see
  // just when there is no such change to lose.
  lemma LoadedKeepsIff(d: Cache, i: nat)
    requires Inv(d) && i < |d.buffers| && d.buffers[i].count > 0
    ensures Inv(Loaded(d, i))
    ensures (forall q :: Logical(Loaded(d, i), q) == Logical(d, q)) <==>
      (!d.buffers[i].valid && d.buffers[i].dirty ==> d.buffers[i].data == OnDisk(d.disk, d.buffers[i].key))
  {
    var b := d.buffers[i];
    var e := Loaded(d, i);
    assert Inv(e);
    if !b.valid && b.dirty {
      hide Logical, Chained, Freed;
      LogicalAt(d, i);
      LogicalAt(e, i);
      if b.data == OnDisk(d.disk, b.key) {
        forall q ensures Logical(e, q) == Logical(d, q) {
          SameLogical(d, e, q);
        }
      }
    } else {
      LoadedKeeps(d, i);
    }
  }

  lemma BwriteKeeps(c: Cache, i: nat)
    requires Inv(c) && i < |c.buffers|
    ensures Inv(Bwrite(c, i)) && !Bwrite(c, i).buffers[i].dirty
    ensures forall q :: Logical(Bwrite(c, i), q) == Logical(c, q)
  {
    var e := Bwrite(c, i);
    assert Inv(e);
    forall q ensures Logical(e, q) == Logical(c, q) {
      hide Chained, Freed, Logical;
      SameLogical(c, e, q);
    }
  }

  lemma BrelseKeeps(c: Cache, i: nat)
    requires Inv(c) && i < |c.buffers| && c.buffers[i].count > 0
    ensures Inv(Brelse(c, i))
    ensures forall q :: Logical(Brelse(c, i), q) == Logical(c, q)
  {
    BwriteKeeps(c, i);
    var d := Bwrite(c, i);
    var e := Brelse(c, i);
    assert i !in d.free;
    assert Inv(e);
    forall q ensures Logical(e, q) == Logical(c, q) {
      hide Chained, Freed, Logical;
      SameLogical(d, e, q);
    }
  }

  // A store shows at its own block only.
  lemma StoredShows(c: Cache, i: nat, data: Data)
    requires Inv(c) && i < |c.buffers| && c.buffers[i].count > 0
    ensures Inv(Stored(c, i, data))
    ensures forall q :: Logical(Stored(c, i, data), q) == if q == c.buffers[i].key then data else Logical(c, q)
  {
    var e := Stored(c, i, data);
    assert Inv(e);
    LogicalAt(e, i);
    forall q | q != c.buffers[i].key ensures Logical(e, q) == Logical(c, q) {
      hide Chained, Freed, Logical;
      SameLogical(c, e, q);
    }
  }

  // The last holder of buffer i lets go, and the task that waited for that takes it for k.
  function HandedOn(c: Cache, i: nat, k: Key): Cache
    requires Inv(c) && c.free == [] && i < |c.buffers| && c.buffers[i].count == 1
  {
    BrelseKeeps(c, i);
    Evicted(Brelse(c, i), k)
  }

  lemma HandedOnHolds(c: Cache, i: nat, k: Key)
    requires Inv(c) && c.free == [] && i < |c.buffers| && c.buffers[i].count == 1
    ensures var d := HandedOn(c, i, k);
      && |d.buffers| == |c.buffers| && d.free == [] && d.buffers[i].key == k && d.buffers[i].count == 1
      && (forall j :: 0 <= j < |c.buffers| && j != i ==> d.buffers[j] == c.buffers[j])
      && (Inv(d) <==> forall j :: 0 <= j < |c.buffers| && c.buffers[j].key == k ==> j == i)
  {
    BrelseKeeps(c, i);
    hide Inv;
    TakenKeepsIff(Brelse(c, i), k);
  }

  // Two tasks wait for the same block; buffers i and j are released, one for each of them.
  // Then the block has two buffers.
  lemma WokenTwice(c: Cache, i: nat, j: nat, k: Key)
    requires Inv(c) && c.free == [] && Absent(c, k) && i != j && i < |c.buffers| && j < |c.buffers|
    requires c.buffers[i].count == 1 && c.buffers[j].count == 1
    ensures Inv(HandedOn(c, i, k)) && HandedOn(c, i, k).free == []
    ensures j < |HandedOn(c, i, k).buffers| && HandedOn(c, i, k).buffers[j].count == 1
    ensures !Inv(HandedOn(HandedOn(c, i, k), j, k))
  {
    hide Inv, HandedOn;
    HandedOnHolds(c, i, k);
    HandedOnHolds(HandedOn(c, i, k), j, k);
  }

  // -------------------------------------------------------------------- runs

  datatype Call = DoRead(k: Key) | DoStore(i: nat, data: Data) | DoWrite(i: nat) | DoRelease(i: nat)

  // Buffers are had through bread, so what is dirty is valid.
  predicate Honest(c: Cache) {
    forall i :: 0 <= i < |c.buffers| && c.buffers[i].dirty ==> c.buffers[i].valid
  }

  predicate Enabled(c: Cache, call: Call)
    requires Indexed(c)
  {
    match call
    case DoRead(k) => Available(c, k)
    case DoStore(i, _) => i < |c.buffers| && c.buffers[i].count > 0 && c.buffers[i].valid
    case DoWrite(i) => i < |c.buffers| && c.buffers[i].count > 0
    case DoRelease(i) => i < |c.buffers| && c.buffers[i].count > 0
  }

  function Step(c: Cache, call: Call): Cache
    requires Indexed(c) && Enabled(c, call)
  {
    match call
    case DoRead(k) => var (d, i) := Getblk(c, k); Loaded(d, i)
    case DoStore(i, data) => Stored(c, i, data)
    case DoWrite(i) => Bwrite(c, i)
    case DoRelease(i) => Brelse(c, i)
  }

  function Init<T>(s: seq<T>): seq<T>
    requires s != []
  {
    s[..|s| - 1]
  }

  function Last<T>(s: seq<T>): T
    requires s != []
  {
    s[|s| - 1]
  }

  // A run from c; None when some call of it could not be made.
  function Run(c: Cache, calls: seq<Call>): Option<Cache> {
    if calls == [] then Some(c)
    else
      var d := Run(c, Init(calls));
      if d.Some? && Indexed(d.value) && Enabled(d.value, Last(calls)) then Some(Step(d.value, Last(calls))) else None
  }

  // What was last stored for block k in the run, by whichever buffer showed it then.
  function LastStored(c: Cache, calls: seq<Call>, k: Key): Data
    requires Indexed(c)
  {
    if calls == [] then Logical(c, k)
    else
      var d, call := Run(c, Init(calls)), Last(calls);
      if d.Some? && call.DoStore? && call.i < |d.value.buffers| && d.value.buffers[call.i].key == k then call.data
      else LastStored(c, Init(calls), k)
  }

  lemma StepKeeps(c: Cache, call: Call)
    requires Inv(c) && Honest(c) && Enabled(c, call)
    ensures Inv(Step(c, call)) && Honest(Step(c, call))
    ensures !call.DoStore? ==> forall q :: Logical(Step(c, call), q) == Logical(c, q)
  {
    hide Inv, Logical, Available;
    match call
    case DoRead(k) =>
      HonestGetblk(c, k);
      BreadReturns(c, k);
    case DoStore(i, data) => StoredShows(c, i, data);
    case DoWrite(i) => BwriteKeeps(c, i);
    case DoRelease(i) => BrelseKeeps(c, i);
  }

  lemma HonestGetblk(c: Cache, k: Key)
    requires Inv(c) && Honest(c) && Available(c, k)
    ensures Honest(Getblk(c, k).0)
  {
    GetblkKeeps(c, k);
    LookupIff(c, k);
    hide Inv, Lookup;
    if Lookup(c, k).None? && |c.buffers| >= c.limit {
      EvictedKeeps(c, k);
    }
  }

  // Over any run, what a reader sees of a block is what was last stored for it.
  lemma {:induction false} RunShowsLastStored(c: Cache, calls: seq<Call>, k: Key)
    requires Inv(c) && Honest(c) && Run(c, calls).Some?
    ensures var d := Run(c, calls).value;
      Inv(d) && Honest(d) && Logical(d, k) == LastStored(c, calls, k)
  {
    hide Inv, Honest, Logical, Step, Enabled;
    if calls != [] {
      RunShowsLastStored(c, Init(calls), k);
      var d, call := Run(c, Init(calls)).value, Last(calls);
      StepKeeps(d, call);
      if call.DoStore? {
        StoreStep(d, call);
      }
    }
  }

  lemma StoreStep(c: Cache, call: Call)
    requires Inv(c) && Enabled(c, call) && call.DoStore?
    ensures call.i < |c.buffers| && Indexed(Step(c, call))
    ensures forall q :: Logical(Step(c, call), q) == if q == c.buffers[call.i].key then call.data else Logical(c, q)
  {
    StoredShows(c, call.i, call.data);
  }

  // bread returns what was last stored for its block.
  lemma BreadReturnsLastStored(c: Cache, calls: seq<Call>, k: Key)
    requires Inv(c) && Honest(c) && Run(c, calls).Some? && Indexed(Run(c, calls).value) &&
      Available(Run(c, calls).value, k)
    ensures var d := Run(c, calls).value; var (e, i) := Getblk(d, k);
      Loaded(e, i).buffers[i].data == LastStored(c, calls, k)
  {
    RunShowsLastStored(c, calls, k);
    HonestGetblk(Run(c, calls).value, k);
    BreadReturns(Run(c, calls).value, k);
  }

  // --------------------------------------------------- who is evicted

  // When buffer i was last released, as a position in the run.
  function ReleasedAt(calls: seq<Call>, i: nat): (t: nat)
    ensures t <= |calls|
  {
    if calls == [] then 0 else if Last(calls) == DoRelease(i) then |calls| else ReleasedAt(Init(calls), i)
  }

  predicate ByRelease(free: seq<nat>, calls: seq<Call>) {
    forall a, b :: 0 <= a < b < |free| ==> ReleasedAt(calls, free[a]) > ReleasedAt(calls, free[b])
  }

  lemma ByReleaseWithout(free: seq<nat>, calls: seq<Call>, i: nat)
    requires NoDup(free) && ByRelease(free, calls)
    ensures ByRelease(Without(free, i), calls)
  {
    hide NoDup, Without, ReleasedAt;
    if i in free {
      var j :| 0 <= j < |free| && free[j] == i;
      WithoutAt(free, j);
      var t := free[..j] + free[j + 1..];
      forall a, b | 0 <= a < b < |t| ensures ReleasedAt(calls, t[a]) > ReleasedAt(calls, t[b]) {
        assert t[a] == free[if a < j then a else a + 1] && t[b] == free[if b < j then b else b + 1];
      }
    } else {
      WithoutAbsent(free, i);
    }
  }

  // The free list is in order of release: the buffer getblk evicts is the one released longest ago.
  lemma {:induction false} FreeByRelease(c: Cache, calls: seq<Call>)
    requires Inv(c) && Honest(c) && c.free == [] && Run(c, calls).Some?
    ensures ByRelease(Run(c, calls).value.free, calls)
  {
    if calls != [] {
      FreeByRelease(c, Init(calls));
      RunShowsLastStored(c, Init(calls), Key(0, 0));
      var d, call := Run(c, Init(calls)).value, Last(calls);
      hide Run;
      match call
      case DoRead(k) =>
        hide Inv, Lookup;
        FreeAfterGetblk(d, k);
        ByReleaseWithout(d.free, Init(calls), Getblk(d, k).1);
        LaterRelease(Step(d, call).free, calls);
      case DoStore(_, _) => LaterRelease(d.free, calls);
      case DoWrite(_) => LaterRelease(d.free, calls);
      case DoRelease(i) =>
        assert i !in d.free;
        LaterReleases(d.free, calls, i);
    }
  }

  lemma FreeAfterGetblk(c: Cache, k: Key)
    requires Inv(c) && Available(c, k)
    ensures NoDup(c.free) && Getblk(c, k).0.free == Without(c.free, Getblk(c, k).1)
  {
    LookupIff(c, k);
    hide Lookup;
    if Lookup(c, k).None? {
      if |c.buffers| < c.limit {
        var i: nat := |c.buffers|;
        WithoutAbsent(c.free, i);
      } else {
        WithoutAt(c.free, |c.free| - 1);
      }
    }
  }

  lemma LaterRelease(free: seq<nat>, calls: seq<Call>)
    requires calls != [] && !Last(calls).DoRelease? && ByRelease(free, Init(calls))
    ensures ByRelease(free, calls)
  {}

  lemma LaterReleases(free: seq<nat>, calls: seq<Call>, i: nat)
    requires calls != [] && Last(calls) == DoRelease(i) && i !in free && ByRelease(free, Init(calls))
    ensures ByRelease(free, calls) && ByRelease([i] + free, calls)
  {
    assert forall a :: 0 <= a < |free| ==>
      ReleasedAt(calls, free[a]) == ReleasedAt(Init(calls), free[a]) <= |calls| - 1;
  }
}
