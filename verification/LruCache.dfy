// The buffer cache without buffers, hash chains and flags: which blocks are cached and held,
// which leaves next, what readers see of each block, and what the device holds.
module LruCache {
  import opened Lists
  import opened Buffers
  import opened Wrappers

  // held counts the holders of each cached block; queue has those without one, the last
  // released first.
  datatype World = World(held: map<Key, nat>, queue: seq<Key>, seen: Key -> Data, disk: Key -> Data)

  datatype Use = Read(k: Key) | Store(k: Key, data: Data) | Write(k: Key) | Release(k: Key)

  // The block a call is about.
  function Named(c: Cache, call: Call): Use
    requires Indexed(c) && Enabled(c, call)
  {
    match call
    case DoRead(k) => Read(k)
    case DoStore(i, data) => Store(c.buffers[i].key, data)
    case DoWrite(i) => Write(c.buffers[i].key)
    case DoRelease(i) => Release(c.buffers[i].key)
  }

  predicate Possible(w: World, limit: nat, u: Use) {
    match u
    case Read(k) => k in w.held || |w.held| < limit || w.queue != []
    case Store(k, _) => k in w.held && w.held[k] > 0
    case Write(k) => k in w.held && w.held[k] > 0
    case Release(k) => k in w.held && w.held[k] > 0
  }

  function Changed(f: Key -> Data, k: Key, data: Data): Key -> Data {
    q => if q == k then data else f(q)
  }

  // A block is cached on first use; one that nobody holds leaves only when there is no room,
  // the one released longest ago first. Writing or releasing a block brings the device up to date.
  function WorldStep(w: World, limit: nat, u: Use): World
    requires Possible(w, limit, u)
  {
    match u
    case Read(k) =>
      if k in w.held then w.(held := w.held[k := w.held[k] + 1], queue := Without(w.queue, k))
      else if |w.held| < limit then w.(held := w.held[k := 1])
      else w.(held := (w.held - {Last(w.queue)})[k := 1], queue := Init(w.queue))
    case Store(k, data) => w.(seen := Changed(w.seen, k, data))
    case Write(k) => w.(disk := Changed(w.disk, k, w.seen(k)))
    case Release(k) =>
      World(w.held[k := w.held[k] - 1], if w.held[k] == 1 then [k] + w.queue else w.queue, w.seen,
            Changed(w.disk, k, w.seen(k)))
  }

  // ------------------------------------------------------------- how they agree

  predicate Distinct(buffers: seq<Buffer>) {
    forall i, j :: 0 <= i < j < |buffers| ==> buffers[i].key != buffers[j].key
  }

  predicate Cached(buffers: seq<Buffer>, k: Key) {
    exists i :: 0 <= i < |buffers| && buffers[i].key == k
  }

  ghost predicate SameHeld(buffers: seq<Buffer>, held: map<Key, nat>) {
    && |held| == |buffers|
    && (forall k :: k in held <==> Cached(buffers, k))
    && (forall i :: 0 <= i < |buffers| ==> buffers[i].key in held && held[buffers[i].key] == buffers[i].count)
  }

  predicate SameQueue(free: seq<nat>, buffers: seq<Buffer>, queue: seq<Key>) {
    |queue| == |free| && forall j :: 0 <= j < |queue| ==> free[j] < |buffers| && queue[j] == buffers[free[j]].key
  }

  ghost predicate Shows(c: Cache, w: World) {
    && Indexed(c) && SameHeld(c.buffers, w.held) && SameQueue(c.free, c.buffers, w.queue)
    && (forall q :: Logical(c, q) == w.seen(q))
    && (forall q :: OnDisk(c.disk, q) == w.disk(q))
  }

  lemma CachedAt(buffers: seq<Buffer>, i: nat, b: Buffer, k: Key)
    requires Distinct(buffers) && i < |buffers| && (b.key == buffers[i].key || !Cached(buffers, b.key))
    ensures Cached(buffers[i := b], k) <==> k == b.key || (Cached(buffers, k) && k != buffers[i].key)
  {
    var after := buffers[i := b];
    assert after[i] == b;
    if j :| 0 <= j < |buffers| && buffers[j].key == k && j != i {
      assert after[j] == buffers[j];
    }
  }

  // Only the holders of buffer i change.
  lemma HeldAgain(buffers: seq<Buffer>, held: map<Key, nat>, i: nat, b: Buffer)
    requires Distinct(buffers) && SameHeld(buffers, held) && i < |buffers| && b.key == buffers[i].key
    ensures SameHeld(buffers[i := b], held[b.key := b.count]) && Distinct(buffers[i := b])
  {
    hide Cached;
    forall k ensures Cached(buffers[i := b], k) <==> k == b.key || (Cached(buffers, k) && k != b.key) {
      CachedAt(buffers, i, b, k);
    }
  }

  lemma HeldMore(buffers: seq<Buffer>, held: map<Key, nat>, b: Buffer)
    requires SameHeld(buffers, held) && !Cached(buffers, b.key)
    ensures SameHeld(buffers + [b], held[b.key := b.count])
  {
    var after := buffers + [b];
    assert after[|buffers|] == b;
    forall k ensures Cached(after, k) <==> Cached(buffers, k) || k == b.key {
      forall j | 0 <= j < |buffers| ensures after[j] == buffers[j] {}
    }
  }

  lemma HeldInstead(buffers: seq<Buffer>, held: map<Key, nat>, i: nat, b: Buffer)
    requires Distinct(buffers) && SameHeld(buffers, held) && i < |buffers| && !Cached(buffers, b.key)
    ensures SameHeld(buffers[i := b], (held - {buffers[i].key})[b.key := b.count])
  {
    hide Cached;
    var gone := buffers[i].key;
    forall k ensures Cached(buffers[i := b], k) <==> k == b.key || (Cached(buffers, k) && k != gone) {
      CachedAt(buffers, i, b, k);
    }
    assert |held - {gone}| == |held| - 1 by {
      assert (held - {gone})[gone := held[gone]] == held;
    }
  }

  lemma QueueDistinct(c: Cache, queue: seq<Key>)
    requires Inv(c) && SameQueue(c.free, c.buffers, queue)
    ensures NoDup(queue) && NoDup(c.free) && Distinct(c.buffers)
  {}

  lemma QueueWithout(free: seq<nat>, buffers: seq<Buffer>, queue: seq<Key>, i: nat)
    requires SameQueue(free, buffers, queue) && NoDup(free) && NoDup(queue) && Distinct(buffers) && i < |buffers|
    ensures SameQueue(Without(free, i), buffers, Without(queue, buffers[i].key))
  {
    if i in free {
      var j :| 0 <= j < |free| && free[j] == i;
      WithoutAt(free, j);
      WithoutAt(queue, j);
    } else {
      WithoutAbsent(free, i);
      WithoutAbsent(queue, buffers[i].key);
    }
  }

  lemma HitShows(c: Cache, held: map<Key, nat>, queue: seq<Key>, i: nat)
    requires Inv(c) && SameHeld(c.buffers, held) && SameQueue(c.free, c.buffers, queue) && i < |c.buffers|
    ensures var (d, k) := (Hit(c, i), c.buffers[i].key);
      k in held && SameHeld(d.buffers, held[k := held[k] + 1]) && SameQueue(d.free, d.buffers, Without(queue, k))
  {
    hide Without, Inv, Cached;
    QueueDistinct(c, queue);
    QueueWithout(c.free, c.buffers, queue, i);
    HeldAgain(c.buffers, held, i, c.buffers[i].(count := c.buffers[i].count + 1));
    hide SameHeld;
  }

  lemma MadeShowsToo(c: Cache, held: map<Key, nat>, queue: seq<Key>, k: Key)
    requires |c.chains| == HASH_COUNT && SameHeld(c.buffers, held) && SameQueue(c.free, c.buffers, queue)
    requires !Cached(c.buffers, k)
    ensures SameHeld(Made(c, k).buffers, held[k := 1]) && SameQueue(Made(c, k).free, Made(c, k).buffers, queue)
  {
    hide SameHeld, Cached;
    HeldMore(c.buffers, held, Buffer(k, 1, false, false, []));
  }

  lemma EvictedShowsToo(c: Cache, held: map<Key, nat>, queue: seq<Key>, k: Key)
    requires Inv(c) && SameHeld(c.buffers, held) && SameQueue(c.free, c.buffers, queue)
    requires !Cached(c.buffers, k) && c.free != []
    ensures SameHeld(Evicted(c, k).buffers, (held - {Last(queue)})[k := 1])
    ensures SameQueue(Evicted(c, k).free, Evicted(c, k).buffers, Init(queue))
  {
    hide SameHeld, Cached, Inv;
    QueueDistinct(c, queue);
    OldestIsFree(c);
    var i := Oldest(c);
    HeldInstead(c.buffers, held, i, c.buffers[i].(key := k, count := 1, valid := false));
  }

  lemma CachedIff(c: Cache, k: Key)
    requires Inv(c)
    ensures Lookup(c, k).Some? <==> Cached(c.buffers, k)
    ensures Lookup(c, k).Some? ==> Lookup(c, k).value < |c.buffers| && c.buffers[Lookup(c, k).value].key == k
  {
    hide Lookup;
    LookupIff(c, k);
  }

  lemma GetblkShowsToo(c: Cache, w: World, k: Key)
    requires Inv(c) && Shows(c, w) && Available(c, k)
    ensures Possible(w, c.limit, Read(k))
    ensures var (d, v) := (Getblk(c, k).0, WorldStep(w, c.limit, Read(k)));
      SameHeld(d.buffers, v.held) && SameQueue(d.free, d.buffers, v.queue) && v.seen == w.seen && v.disk == w.disk
  {
    hide Inv, Lookup, Logical, Hit, Made, Evicted, Cached;
    CachedIff(c, k);
    assert |w.held| == |c.buffers| && (k in w.held <==> Cached(c.buffers, k));
    if Lookup(c, k).Some? {
      HitShows(c, w.held, w.queue, Lookup(c, k).value);
    } else if |c.buffers| < c.limit {
      MadeShowsToo(c, w.held, w.queue, k);
    } else {
      EvictedShowsToo(c, w.held, w.queue, k);
    }
  }

  lemma LoadedShows(c: Cache, i: nat, held: map<Key, nat>, queue: seq<Key>)
    requires i < |c.buffers| && Distinct(c.buffers) && SameHeld(c.buffers, held) && SameQueue(c.free, c.buffers, queue)
    ensures SameHeld(Loaded(c, i).buffers, held) && SameQueue(Loaded(c, i).free, Loaded(c, i).buffers, queue)
  {
    hide Cached;
    var b := c.buffers[i];
    HeldAgain(c.buffers, held, i, Loaded(c, i).buffers[i]);
    assert held[b.key := b.count] == held;
    assert c.buffers[i := b] == c.buffers;
  }

  lemma ReadShows(c: Cache, w: World, k: Key)
    requires Inv(c) && Honest(c) && Shows(c, w) && Available(c, k)
    ensures Possible(w, c.limit, Read(k)) && Shows(Step(c, DoRead(k)), WorldStep(w, c.limit, Read(k)))
  {
    hide Inv, Lookup, Logical, Getblk, Honest, Loaded, SameHeld, SameQueue, WorldStep;
    var (d, i) := Getblk(c, k);
    GetblkShowsToo(c, w, k);
    HonestGetblk(c, k);
    HonestAt(d, i);
    BreadReturns(c, k);
    GetblkKeeps(c, k);
    InvDistinct(d);
    InvDistinct(Loaded(d, i));
    LoadedShows(d, i, WorldStep(w, c.limit, Read(k)).held, WorldStep(w, c.limit, Read(k)).queue);
  }

  lemma InvDistinct(c: Cache)
    requires Inv(c)
    ensures Indexed(c) && Distinct(c.buffers)
  {}

  lemma HonestAt(c: Cache, i: nat)
    requires Honest(c) && i < |c.buffers|
    ensures c.buffers[i].dirty ==> c.buffers[i].valid
  {}

  lemma WrittenDisk(c: Cache, i: nat, q: Key)
    requires Inv(c) && i < |c.buffers|
    ensures OnDisk(Bwrite(c, i).disk, q) == if q == c.buffers[i].key then Logical(c, q) else OnDisk(c.disk, q)
  {
    hide Logical;
    LogicalAt(c, i);
  }

  lemma WrittenHeld(c: Cache, i: nat, held: map<Key, nat>, queue: seq<Key>)
    requires i < |c.buffers| && Distinct(c.buffers) && SameHeld(c.buffers, held) && SameQueue(c.free, c.buffers, queue)
    ensures var d := Bwrite(c, i);
      SameHeld(d.buffers, held) && SameQueue(d.free, d.buffers, queue) && Distinct(d.buffers)
      && d.buffers[i].key == c.buffers[i].key && d.buffers[i].count == c.buffers[i].count && d.free == c.free
  {
    hide Cached;
    var b := c.buffers[i];
    HeldAgain(c.buffers, held, i, Bwrite(c, i).buffers[i]);
    assert held[b.key := b.count] == held;
    assert c.buffers[i := b] == c.buffers;
  }

  // After a write the device holds what readers see.
  lemma WriteShows(c: Cache, w: World, i: nat)
    requires Inv(c) && Shows(c, w) && i < |c.buffers|
    ensures var k := c.buffers[i].key; Shows(Bwrite(c, i), w.(disk := Changed(w.disk, k, w.seen(k))))
  {
    hide Inv, Logical, Bwrite, SameHeld, SameQueue, OnDisk;
    BwriteKeeps(c, i);
    InvDistinct(c);
    InvDistinct(Bwrite(c, i));
    WrittenHeld(c, i, w.held, w.queue);
    forall q { WrittenDisk(c, i, q); }
  }

  lemma ReleasedHeld(d: Cache, i: nat, held: map<Key, nat>, queue: seq<Key>)
    requires i < |d.buffers| && Distinct(d.buffers) && SameHeld(d.buffers, held) && SameQueue(d.free, d.buffers, queue)
    requires d.buffers[i].count > 0 && !d.buffers[i].dirty
    ensures var k := d.buffers[i].key; k in held && held[k] == d.buffers[i].count
    ensures var (e, k) := (Brelse(d, i), d.buffers[i].key);
      && SameHeld(e.buffers, held[k := held[k] - 1])
      && SameQueue(e.free, e.buffers, if held[k] == 1 then [k] + queue else queue)
  {
    hide Cached;
    HeldAgain(d.buffers, held, i, d.buffers[i].(count := d.buffers[i].count - 1));
  }

  lemma ReleaseShows(c: Cache, w: World, i: nat)
    requires Inv(c) && Shows(c, w) && i < |c.buffers| && c.buffers[i].count > 0
    ensures var k := c.buffers[i].key;
      k in w.held && w.held[k] > 0 && Shows(Brelse(c, i), WorldStep(w, c.limit, Release(k)))
  {
    hide Inv, Logical, SameHeld, SameQueue, OnDisk;
    var d := Bwrite(c, i);
    WriteShows(c, w, i);
    InvDistinct(c);
    WrittenHeld(c, i, w.held, w.queue);
    BwriteKeeps(c, i);
    BrelseKeeps(c, i);
    ReleasedHeld(d, i, w.held, w.queue);
    assert Brelse(c, i) == Brelse(d, i);
  }

  lemma StoreShows(c: Cache, w: World, i: nat, data: Data)
    requires Inv(c) && Shows(c, w) && i < |c.buffers| && c.buffers[i].count > 0
    ensures Shows(Stored(c, i, data), w.(seen := Changed(w.seen, c.buffers[i].key, data)))
  {
    hide Inv, Logical, Cached;
    StoredShows(c, i, data);
    InvDistinct(c);
    var b := c.buffers[i];
    HeldAgain(c.buffers, w.held, i, b.(data := data, dirty := true));
    assert w.held[b.key := b.count] == w.held;
  }

  lemma HeldAt(c: Cache, w: World, i: nat)
    requires Shows(c, w) && i < |c.buffers|
    ensures var k := c.buffers[i].key; k in w.held && w.held[k] == c.buffers[i].count
  {}

  // One call does to buffers, chains and free list what it does to the simple cache.
  lemma StepShows(c: Cache, w: World, call: Call)
    requires Inv(c) && Honest(c) && Enabled(c, call) && Shows(c, w)
    ensures Possible(w, c.limit, Named(c, call)) && Shows(Step(c, call), WorldStep(w, c.limit, Named(c, call)))
  {
    hide Inv, Honest, Logical, Available, Getblk, SameHeld, SameQueue;
    match call
    case DoRead(k) => ReadShows(c, w, k);
    case DoStore(i, data) =>
      HeldAt(c, w, i);
      StoreShows(c, w, i, data);
    case DoWrite(i) =>
      HeldAt(c, w, i);
      WriteShows(c, w, i);
    case DoRelease(i) => ReleaseShows(c, w, i);
  }

  lemma StepKeepsLimit(c: Cache, call: Call)
    requires Indexed(c) && Enabled(c, call)
    ensures Step(c, call).limit == c.limit
  {
    hide Lookup;
  }

  // The simple cache after the calls of a run of the real one.
  ghost function WorldRun(c: Cache, w: World, calls: seq<Call>): World {
    if calls == [] then w
    else
      var v, d := WorldRun(c, w, Init(calls)), Run(c, Init(calls));
      if d.Some? && Indexed(d.value) && Enabled(d.value, Last(calls)) &&
        Possible(v, c.limit, Named(d.value, Last(calls)))
      then WorldStep(v, c.limit, Named(d.value, Last(calls)))
      else v
  }

  // Over every run the cache holds the blocks, lets them go and shows them as the simple one
  // does, and the device has every block as it was seen when last written or released.
  lemma {:induction false} RunShows(c: Cache, w: World, calls: seq<Call>)
    requires Inv(c) && Honest(c) && Shows(c, w) && Run(c, calls).Some?
    ensures Run(c, calls).value.limit == c.limit && Shows(Run(c, calls).value, WorldRun(c, w, calls))
  {
    hide Inv, Honest, Shows, Enabled, Step, WorldStep, Named, Possible;
    if calls != [] {
      RunShows(c, w, Init(calls));
      RunShowsLastStored(c, Init(calls), Key(0, 0));
      var d := Run(c, Init(calls)).value;
      StepShows(d, WorldRun(c, w, Init(calls)), Last(calls));
      StepKeepsLimit(d, Last(calls));
    }
  }

  // buffer_init: nothing is cached, and readers see the device.
  lemma NewShows(limit: nat, disk: map<Key, Data>)
    ensures var c := Cache(limit, [], [], seq(HASH_COUNT, h => []), disk);
      Inv(c) && Honest(c) && Shows(c, World(map[], [], q => OnDisk(disk, q), q => OnDisk(disk, q)))
  {}
}
