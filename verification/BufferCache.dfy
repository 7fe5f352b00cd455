// src/kernel/buffer.c in its own form: a pool of buffers, 31 hash lists and a free list,
// changed in place.
module BufferCache {
  import opened Lists
  import opened Buffers
  import opened Wrappers

  const NO_KEY := Key(0xffff_ffff, 0)       // dev is EOF in a new buffer

  function NewBuffer(c: Cache): Cache {
    c.(buffers := c.buffers + [Buffer(NO_KEY, 0, false, false, [])])
  }

  function Withdrawn(c: Cache): Cache
    requires Indexed(c) && c.free != []
  {
    var i := Oldest(c);
    var h := Hash(c.buffers[i].key);
    c.(free := c.free[..|c.free| - 1], chains := c.chains[h := Without(c.chains[h], i)],
       buffers := c.buffers[i := c.buffers[i].(valid := false)])
  }

  lemma OldestChained(c: Cache)
    requires Inv(c) && c.free != []
    ensures Oldest(c) < |c.buffers| && Oldest(c) in c.chains[Hash(c.buffers[Oldest(c)].key)]
    ensures c.buffers[Oldest(c)].count == 0 && !c.buffers[Oldest(c)].dirty
  {
    assert Oldest(c) in c.free;
  }

  // The buffer taken is on no chain.
  lemma NotChained(c: Cache, k: Key)
    requires Inv(c) && (|c.buffers| < c.limit || c.free != [])
    ensures if |c.buffers| < c.limit then |c.buffers| !in c.chains[Hash(k)]
            else Oldest(c) !in Withdrawn(c).chains[Hash(k)]
  {
    if |c.buffers| >= c.limit {
      OldestChained(c);
      var i := Oldest(c);
      WithoutMembers(c.chains[Hash(c.buffers[i].key)], i);
    }
  }

  class BufferCache {
    const limit: nat                 // buffers there is memory for
    var buffers: seq<Buffer>
    var free: seq<nat>
    var chains: seq<seq<nat>>
    var disk: map<Key, Data>

    // buffer_init
    constructor (limit: nat, disk: map<Key, Data>)
      ensures State() == Cache(limit, [], [], seq(HASH_COUNT, h => []), disk)
      ensures Inv(State()) && Honest(State())
    {
      this.limit, this.disk := limit, disk;
      buffers, free, chains := [], [], seq(HASH_COUNT, h => []);
    }

    function State(): Cache
      reads this
    {
      Cache(limit, buffers, free, chains, disk)
    }

    method GetFromHashTable(k: Key) returns (bf: Option<nat>)
      requires Indexed(State())
      modifies this`free
      ensures bf == Lookup(old(State()), k)
      ensures free == if bf.Some? then Without(old(free), bf.value) else old(free)
    {
      ghost var c := State();
      var h := Hash(k);
      var j := 0;
      bf := None;
      assert chains[h][0..] == chains[h];
      while j < |chains[h]|
        invariant j <= |chains[h]| && bf.None? && State() == c
        invariant forall i :: i in chains[h][j..] ==> i in chains[h]
        invariant Lookup(c, k) == FindKey(chains[h][j..], buffers, k)
      {
        var i := chains[h][j];
        assert chains[h][j..][1..] == chains[h][j + 1..];
        assert i in chains[h];
        if buffers[i].key == k {
          bf := Some(i);
          break;
        }
        j := j + 1;
      }
      if bf.None? {
        return;
      }
      var released := Search(free, bf.value);
      if released {
        free := Without(free, bf.value);
      } else {
        WithoutAbsent(free, bf.value);
      }
    }

    // hash_locate
    method HashLocate(i: nat)
      requires |chains| == HASH_COUNT && i < |buffers| && i !in chains[Hash(buffers[i].key)]
      modifies this`chains
      ensures chains == Located(old(chains), i, buffers[i].key)
    {
      var h := Hash(buffers[i].key);
      var there := Search(chains[h], i);
      assert !there;
      chains := chains[h := [i] + chains[h]];
    }

    // hash_remove
    method HashRemove(i: nat)
      requires |chains| == HASH_COUNT && i < |buffers| && i in chains[Hash(buffers[i].key)]
      modifies this`chains
      ensures var h := Hash(buffers[i].key); chains == old(chains)[h := Without(old(chains)[h], i)]
    {
      var h := Hash(buffers[i].key);
      var there := Search(chains[h], i);
      assert there;
      chains := chains[h := Without(chains[h], i)];
    }

    // get_free_buffer with get_new_buffer, when it need not wait: a buffer on no list.
    method GetFreeBuffer() returns (i: nat)
      requires Inv(State()) && (|buffers| < limit || free != [])
      modifies this
      ensures State() == (if old(|buffers|) < limit then NewBuffer(old(State())) else Withdrawn(old(State())))
      ensures i == if old(|buffers|) < limit then old(|buffers|) else Oldest(old(State()))
    {
      if |buffers| < limit {
        i := |buffers|;
        buffers := buffers + [Buffer(NO_KEY, 0, false, false, [])];
        return;
      }
      OldestChained(State());
      i := free[|free| - 1];
      free := free[..|free| - 1];
      HashRemove(i);
      buffers := buffers[i := buffers[i].(valid := false)];
    }

    // The part of getblk for a block without a buffer.
    method GetblkMiss(k: Key) returns (i: nat)
      requires Inv(State()) && Available(State(), k) && Lookup(State(), k).None?
      modifies this
      ensures (State(), i) == Buffers.Getblk(old(State()), k)
    {
      ghost var c := State();
      if free != [] {
        OldestChained(c);
      }
      hide Inv, Lookup;
      i := GetFreeBuffer();
      assert buffers[i].count == 0 && !buffers[i].dirty;
      buffers := buffers[i := buffers[i].(count := 1, key := k)];
      NotChained(c, k);
      HashLocate(i);
      assert buffers == if |c.buffers| < c.limit then Made(c, k).buffers else Evicted(c, k).buffers;
    }

    // GetblkKeeps and GetblkShows say what this keeps.
    method Getblk(k: Key) returns (i: nat)
      requires Inv(State()) && Available(State(), k)
      modifies this
      ensures (State(), i) == Buffers.Getblk(old(State()), k)
    {
      ghost var c := State();
      LookupIff(c, k);
      assert Indexed(c);
      hide Inv, Lookup, Indexed;
      var bf := GetFromHashTable(k);
      if bf.Some? {
        i := bf.value;
        buffers := buffers[i := buffers[i].(count := buffers[i].count + 1)];
        assert State() == Hit(c, i);
        return;
      }
      i := GetblkMiss(k);
    }

    method Bread(k: Key) returns (i: nat)
      requires Inv(State()) && Honest(State()) && Available(State(), k)
      modifies this
      ensures State() == Step(old(State()), DoRead(k)) && Inv(State()) && Honest(State())
      ensures i < |buffers| && buffers[i].key == k && buffers[i].valid && buffers[i].data == Logical(old(State()), k)
      ensures forall q :: Logical(State(), q) == Logical(old(State()), q)
    {
      HonestGetblk(State(), k);
      BreadReturns(State(), k);
      hide Inv, Logical, Available, Buffers.Getblk;
      i := Getblk(k);
      if buffers[i].valid {
        return;
      }
      buffers := buffers[i := buffers[i].(data := OnDisk(disk, buffers[i].key), dirty := false, valid := true)];
    }

    method Bwrite(i: nat)
      requires i < |buffers|
      modifies this`buffers, this`disk
      ensures State() == Buffers.Bwrite(old(State()), i)
    {
      if !buffers[i].dirty {
        return;
      }
      disk := disk[buffers[i].key := buffers[i].data];
      buffers := buffers[i := buffers[i].(dirty := false, valid := true)];
    }

    method Brelse(i: nat)
      requires Inv(State()) && i < |buffers| && buffers[i].count > 0
      modifies this
      ensures State() == Buffers.Brelse(old(State()), i) && Inv(State())
      ensures forall q :: Logical(State(), q) == Logical(old(State()), q)
    {
      BrelseKeeps(State(), i);
      assert i !in free;
      hide Inv, Logical;
      if buffers[i].dirty {
        Bwrite(i);
      }
      buffers := buffers[i := buffers[i].(count := buffers[i].count - 1)];
      if buffers[i].count > 0 {
        return;
      }
      assert i !in free;
      free := [i] + free;
    }
  }
}
