// The refinement: over any run of paging operations the processes read what
// they would read if each had a flat memory of its own.
module FlatMemory {
  import opened PageTables
  import opened ReferenceCounts
  import opened CopyOnWrite
  import opened AddressSpaces
  import opened Wrappers

  // The simple machine: page (d, t) of a process, and whether it may store there; nothing is shared.
  datatype Page = Page(bytes: seq<byte>, writable: bool)
  type Flat = map<(nat, nat), Page>
  type World = seq<Option<Flat>>

  datatype Op =
    | DoSpawn(c: nat)
    | DoFork(p: nat, c: nat)
    | DoStore(p: nat, d: nat, t: nat, offset: nat, b: byte)
    | DoLink(p: nat, d: nat, t: nat, raw: seq<byte>)
    | DoMap(p: nat, d: nat, t: nat, raw: seq<byte>, write: bool)
    | DoUnlink(p: nat, d: nat, t: nat)
    | DoExit(p: nat)

  function Patch(bytes: seq<byte>, offset: nat, b: byte): seq<byte>
    requires offset < |bytes|
  {
    bytes[offset := b]
  }

  function FlatSet(w: World, p: nat, d: nat, t: nat, page: Page): World {
    if p < |w| && w[p].Some? then w[p := Some(w[p].value[(d, t) := page])] else w
  }

  predicate Has(w: World, p: nat, d: nat, t: nat) {
    p < |w| && w[p].Some? && (d, t) in w[p].value
  }

  // A store is let through.
  predicate Allowed(w: World, p: nat, d: nat, t: nat, offset: nat) {
    Has(w, p, d, t) && w[p].value[(d, t)].writable && offset < |w[p].value[(d, t)].bytes|
  }

  function FlatStep(w: World, op: Op): World {
    match op
    case DoSpawn(c) => if c < |w| then w[c := Some(map[])] else w
    case DoFork(p, c) => if p < |w| && c < |w| then w[c := w[p]] else w
    case DoStore(p, d, t, offset, b) =>
      if !Allowed(w, p, d, t, offset) then w
      else FlatSet(w, p, d, t, Page(Patch(w[p].value[(d, t)].bytes, offset, b), true))
    case DoLink(p, d, t, raw) => if Has(w, p, d, t) then w else FlatSet(w, p, d, t, Page(raw, true))
    case DoMap(p, d, t, raw, write) =>
      FlatSet(w, p, d, t, Page(if Has(w, p, d, t) then w[p].value[(d, t)].bytes else raw, write))
    case DoUnlink(p, d, t) =>
      if p < |w| && w[p].Some? then w[p := Some(w[p].value - {(d, t)})] else w
    case DoExit(p) => if p < |w| then w[p := None] else w
  }

  predicate InFlat(ram: Ram, p: nat, k: (nat, nat)) {
    k.0 < USER_HI && k.1 < SLOTS && PgAt(ram, p, k.0, k.1)
  }

  function PageAt(ram: Ram, p: nat, k: (nat, nat)): Page
    requires InFlat(ram, p, k)
  {
    Page(PageOf(ram, p, k.0, k.1), MayStore(ram, p, k.0, k.1))
  }

  ghost function FlatOf(ram: Ram, p: nat): (f: Flat)
    ensures forall k :: k in f <==> InFlat(ram, p, k)
    ensures forall k :: k in f ==> InFlat(ram, p, k) && f[k] == PageAt(ram, p, k)
  {
    map d: nat, t: nat | d < USER_HI && t < SLOTS && InFlat(ram, p, (d, t)) :: (d, t) := PageAt(ram, p, (d, t))
  }

  ghost function WorldOf(ram: Ram): World {
    seq(|ram.dirs|, p requires 0 <= p < |ram.dirs| => if ram.dirs[p].None? then None else Some(FlatOf(ram, p)))
  }

  // ------------------------------------------------------ the real machine

  ghost predicate Enabled(ram: Ram, op: Op) {
    match op
    case DoSpawn(c) => c < |ram.dirs| && ram.dirs[c].None?
    case DoFork(p, c) => CanFork(ram, p, c)
    case DoStore(p, d, t, offset, b) =>
      PgAt(ram, p, d, t) && MayStore(ram, p, d, t) && offset < PAGE_SIZE &&
      FreeFrames(ram) >= StoreCost(ram, p, d, t)
    case DoLink(p, d, t, raw) => CanLink(ram, p, d, t, raw) && (PgAt(ram, p, d, t) || Unshared(ram, p, d))
    case DoMap(p, d, t, raw, write) =>
      CanLink(ram, p, d, t, raw) && if PgAt(ram, p, d, t) then CanGuard(ram, p, d, t, write) else Unshared(ram, p, d)
    case DoUnlink(p, d, t) =>
      p < |ram.dirs| && ram.dirs[p].Some? && (PgAt(ram, p, d, t) ==> Unshared(ram, p, d))
    case DoExit(p) => p < |ram.dirs| && ram.dirs[p].Some?
  }

  // link_page and unlink_page do not copy the table they edit (see LinkExactIff).
  predicate Unshared(ram: Ram, p: nat, d: nat) {
    TabAt(ram, p, d) ==> Pde(ram, p, d).index < |ram.counts| && ram.counts[Pde(ram, p, d).index] == 1
  }

  // sys_mmap changes a page that is there in place (see GuardKeepsIff and GuardApartIff).
  predicate CanGuard(ram: Ram, p: nat, d: nat, t: nat, write: bool)
    requires PgAt(ram, p, d, t)
  {
    && (Unshared(ram, p, d) || write == MayStore(ram, p, d, t))
    && (write ==> Unshared(ram, p, d) && Pte(ram, p, d, t).index < |ram.counts|
                  && ram.counts[Pte(ram, p, d, t).index] == 1)
  }

  function Spawn(ram: Ram, c: nat): Ram
    requires c < |ram.dirs|
  {
    ram.(dirs := ram.dirs[c := Some(seq(SLOTS, i => Absent))])
  }

  ghost function Step(ram: Ram, op: Op): Ram
    requires Inv(ram) && Enabled(ram, op)
  {
    match op
    case DoSpawn(c) => Spawn(ram, c)
    case DoFork(p, c) => Fork(ram, p, c)
    case DoStore(p, d, t, offset, b) => Store(ram, p, d, t, offset, b)
    case DoLink(p, d, t, raw) => Link(ram, p, d, t, raw)
    case DoMap(p, d, t, raw, write) => LinkedPage(ram, p, d, t, raw); Guard(Link(ram, p, d, t, raw), p, d, t, write)
    case DoUnlink(p, d, t) => if PgAt(ram, p, d, t) then (PageReached(ram, p, d, t); Unlink(ram, p, d, t)) else ram
    case DoExit(p) => Exit(ram, p)
  }

  // ------------------------------------------------------------ one step

  lemma FlatSame(a: Ram, p: nat, b: Ram, q: nat)
    requires SameView(a, p, b, q)
    ensures FlatOf(a, p) == FlatOf(b, q)
  {
    forall k: (nat, nat)
      ensures InFlat(a, p, k) <==> InFlat(b, q, k)
      ensures InFlat(a, p, k) ==> PageAt(a, p, k) == PageAt(b, q, k)
    {}
    hide SameView, InFlat, PageAt;
  }

  // One page of a flat memory is set.
  lemma FlatSetAt(ram: Ram, s: Ram, p: nat, c: (nat, nat))
    requires InFlat(s, p, c)
    requires forall k :: k != c ==> (InFlat(s, p, k) <==> InFlat(ram, p, k))
    requires forall k :: k != c && InFlat(s, p, k) && InFlat(ram, p, k) ==> PageAt(s, p, k) == PageAt(ram, p, k)
    ensures FlatOf(s, p) == FlatOf(ram, p)[c := PageAt(s, p, c)]
  {
    hide InFlat, PageAt;
  }

  // A step that touches the memory of one process only.
  lemma WorldSet(ram: Ram, s: Ram, p: nat)
    requires |s.dirs| == |ram.dirs| && p < |s.dirs|
    requires forall q: nat :: q < |s.dirs| && q != p ==> s.dirs[q].Some? == ram.dirs[q].Some? && SameView(ram, q, s, q)
    ensures WorldOf(s) == WorldOf(ram)[p := if s.dirs[p].None? then None else Some(FlatOf(s, p))]
  {
    forall q: nat | q < |s.dirs| && q != p ensures FlatOf(s, q) == FlatOf(ram, q) {
      FlatSame(ram, q, s, q);
    }
  }

  lemma SpawnLookups(ram: Ram, c: nat)
    requires Inv(ram) && c < TASK_NR && ram.dirs[c].None?
    ensures var s := Spawn(ram, c);
      && (forall q: nat, d: nat :: TabAt(s, q, d) <==> TabAt(ram, q, d))
      && (forall q: nat, d: nat :: TabAt(s, q, d) && TabAt(ram, q, d) ==> Pde(s, q, d) == Pde(ram, q, d))
      && (forall q: nat, d: nat, t: nat :: PgAt(s, q, d, t) <==> PgAt(ram, q, d, t))
      && (forall q: nat, d: nat, t: nat :: PgAt(s, q, d, t) && PgAt(ram, q, d, t) ==>
          Pte(s, q, d, t) == Pte(ram, q, d, t))
      && (forall d: nat, t: nat :: !PgAt(s, c, d, t))
  {}

  lemma SpawnExact(ram: Ram, c: nat)
    requires Inv(ram) && c < TASK_NR && ram.dirs[c].None?
    ensures Exact(Spawn(ram, c))
  {
    var s := Spawn(ram, c);
    var dir := s.dirs[c].value;
    forall f | 0 <= f < |s.counts| ensures s.counts[f] == Base(f) + Refs(s, f) {
      DirRefsAtMostOne(ram.frames, dir, USER_HI, f);
      AllRefsSet(ram.frames, ram.dirs, c, Some(dir), |ram.dirs|, f);
      assert ram.counts[f] == Base(f) + Refs(ram, f);
    }
  }

  lemma SpawnStep(ram: Ram, c: nat)
    requires Inv(ram) && Enabled(ram, DoSpawn(c))
    ensures Inv(Spawn(ram, c)) && WorldOf(Spawn(ram, c)) == FlatStep(WorldOf(ram), DoSpawn(c))
  {
    var s := Spawn(ram, c);
    SpawnExact(ram, c);
    SpawnLookups(ram, c);
    assert Inv(s);
    WorldSet(ram, s, c);
    assert FlatOf(s, c) == map[];
  }

  lemma ForkStep(ram: Ram, p: nat, c: nat)
    requires Inv(ram) && Enabled(ram, DoFork(p, c))
    ensures Inv(Fork(ram, p, c)) && WorldOf(Fork(ram, p, c)) == FlatStep(WorldOf(ram), DoFork(p, c))
  {
    ForkKeeps(ram, p, c);
    var s := Fork(ram, p, c);
    forall q: nat | q < TASK_NR ensures FlatOf(s, q) == FlatOf(ram, Origin(p, c, q)) {
      assert SameView(ram, Origin(p, c, q), s, q);
      FlatSame(ram, Origin(p, c, q), s, q);
    }
  }

  lemma PokedFlat(ram: Ram, s: Ram, p: nat, d: nat, t: nat, offset: nat, b: byte)
    requires WellFormed(ram) && PokedView(ram, s, p, d, t, offset, b)
    ensures (d, t) in FlatOf(ram, p) && offset < |FlatOf(ram, p)[(d, t)].bytes|
    ensures var page := FlatOf(ram, p)[(d, t)];
      FlatOf(s, p) == FlatOf(ram, p)[(d, t) := Page(Patch(page.bytes, offset, b), page.writable)]
  {
    assert t < SLOTS && d < USER_HI;
    hide PgAt, PageOf, WellFormed, MayStore, FlatOf;
    FlatSetAt(ram, s, p, (d, t));
  }

  lemma StoreStep(ram: Ram, p: nat, d: nat, t: nat, offset: nat, b: byte)
    requires Inv(ram) && Enabled(ram, DoStore(p, d, t, offset, b))
    ensures var s := Store(ram, p, d, t, offset, b);
      Inv(s) && WorldOf(s) == FlatStep(WorldOf(ram), DoStore(p, d, t, offset, b))
  {
    hide Exact, FreeExact, OneSlot, Exclusive, Store, FlatOf;
    StoreIsPrivate(ram, p, d, t, offset, b);
    var s := Store(ram, p, d, t, offset, b);
    PokedFlat(ram, s, p, d, t, offset, b);
    hide SameView, PokedView, PgAt, WellFormed, PageOf, MayStore;
    WorldSet(ram, s, p);
  }

  lemma GrownFlat(ram: Ram, s: Ram, p: nat, d: nat, t: nat, raw: seq<byte>)
    requires WellFormed(s) && GrownView(ram, s, p, d, t, raw)
    ensures (d, t) !in FlatOf(ram, p) && FlatOf(s, p) == FlatOf(ram, p)[(d, t) := Page(raw, true)]
  {
    assert t < SLOTS && d < USER_HI;
    hide PgAt, PageOf, WellFormed, MayStore, FlatOf;
    FlatSetAt(ram, s, p, (d, t));
  }

  lemma LinkStep(ram: Ram, p: nat, d: nat, t: nat, raw: seq<byte>)
    requires Inv(ram) && Enabled(ram, DoLink(p, d, t, raw))
    ensures var s := Link(ram, p, d, t, raw);
      Inv(s) && WorldOf(s) == FlatStep(WorldOf(ram), DoLink(p, d, t, raw))
  {
    hide Exact, FreeExact, OneSlot, Exclusive, FlatOf;
    LinkReady(ram, p, d, t, raw);
    var m := LinkTable(ram, p, d, NextFree(ram));
    var s := Link(ram, p, d, t, raw);
    FlatSame(ram, p, m, p);
    if PgAt(m, p, d, t) {
      assert s == m;
    } else {
      LinkKeeps(m, p, d, t, NextFree(m), raw);
      GrownFlat(m, s, p, d, t, raw);
    }
    hide WellFormed, PgAt, WorldOf;
    forall q: nat | q < |s.dirs| && q != p ensures SameView(ram, q, s, q) {
      assert SameView(ram, q, m, q);
      SameThrough(ram, m, s, q);
    }
    WorldSet(ram, s, p);
    FlatAt(ram, p);
  }

  // sys_mmap: the page is linked, and may be written or not.
  lemma MapStep(ram: Ram, p: nat, d: nat, t: nat, raw: seq<byte>, write: bool)
    requires Inv(ram) && Enabled(ram, DoMap(p, d, t, raw, write)) && PgAt(Link(ram, p, d, t, raw), p, d, t)
    ensures var s := Guard(Link(ram, p, d, t, raw), p, d, t, write);
      Inv(s) && WorldOf(s) == FlatStep(WorldOf(ram), DoMap(p, d, t, raw, write))
  {
    hide Exact, FreeExact, OneSlot, Guard, Link, FlatOf, WorldOf;
    LinkStep(ram, p, d, t, raw);
    LinkedPage(ram, p, d, t, raw);
    var m := Link(ram, p, d, t, raw);
    var s := Guard(m, p, d, t, write);
    GuardKeepsIff(m, p, d, t, write);
    GuardApartIff(m, p, d, t, write);
    assert forall q :: q != p ==> SameView(m, q, s, q);
    GuardFrames(m, p, d, t, write);
    GuardIsView(m, p, d, t, write);
    GuardFlat(m, s, p, d, t, write);
    FlatAt(m, p);
    MapPages(ram, p, d, t);
    MapPages(m, p, d, t);
    MapAfterLink(WorldOf(ram), p, d, t, raw, write);
    hide SameView, PgAt, GuardedView, PageOf, MayStore, WellFormed;
    WorldSet(m, s, p);
  }

  lemma MapAfterLink(w: World, p: nat, d: nat, t: nat, raw: seq<byte>, write: bool)
    requires p < |w| && w[p].Some?
    ensures var v := FlatStep(w, DoLink(p, d, t, raw));
      && Has(v, p, d, t)
      && FlatStep(w, DoMap(p, d, t, raw, write))
         == v[p := Some(v[p].value[(d, t) := Page(v[p].value[(d, t)].bytes, write)])]
  {
    var v := FlatStep(w, DoLink(p, d, t, raw));
    if !Has(w, p, d, t) {
      var f := w[p].value;
      assert f[(d, t) := Page(raw, true)][(d, t) := Page(raw, write)] == f[(d, t) := Page(raw, write)];
    }
  }

  lemma MapPages(ram: Ram, p: nat, d: nat, t: nat)
    requires WellFormed(ram) && p < |ram.dirs| && d < USER_HI && t < SLOTS
    ensures Has(WorldOf(ram), p, d, t) <==> PgAt(ram, p, d, t)
    ensures PgAt(ram, p, d, t) ==> WorldOf(ram)[p].value[(d, t)] == Page(PageOf(ram, p, d, t), MayStore(ram, p, d, t))
  {
    assert InFlat(ram, p, (d, t)) <==> PgAt(ram, p, d, t);
  }

  // Process p in s sees what it saw in ram; only at (d, t) it may store or not, as asked.
  ghost predicate GuardedView(ram: Ram, s: Ram, p: nat, d: nat, t: nat, write: bool) {
    && (forall e, u :: PgAt(s, p, e, u) <==> PgAt(ram, p, e, u))
    && (forall e, u :: PgAt(ram, p, e, u) && PgAt(s, p, e, u) ==>
          PageOf(s, p, e, u) == PageOf(ram, p, e, u)
          && MayStore(s, p, e, u) == if e == d && u == t then write else MayStore(ram, p, e, u))
    && PgAt(ram, p, d, t)
  }

  lemma GuardIsView(ram: Ram, p: nat, d: nat, t: nat, write: bool)
    requires Inv(ram) && PgAt(ram, p, d, t)
    ensures GuardedView(ram, Guard(ram, p, d, t, write), p, d, t, write)
  {
    hide Guard, PageOf, MayStore, Inv;
    InvFormed(ram);
    var s := Guard(ram, p, d, t, write);
    forall e: nat, u: nat
      ensures PgAt(s, p, e, u) <==> PgAt(ram, p, e, u)
      ensures PgAt(s, p, e, u) && PgAt(ram, p, e, u) ==>
        PageOf(s, p, e, u) == PageOf(ram, p, e, u)
        && MayStore(s, p, e, u) == if e == d && u == t then write else MayStore(ram, p, e, u)
    {
      GuardShows(ram, p, d, t, write, p, e, u);
      if PgAt(ram, p, e, u) {
        SamePlace(ram, p, d, e);
      }
    }
  }

  lemma InvFormed(ram: Ram)
    requires Inv(ram)
    ensures WellFormed(ram)
  {}

  lemma GuardFlat(ram: Ram, s: Ram, p: nat, d: nat, t: nat, write: bool)
    requires WellFormed(ram) && GuardedView(ram, s, p, d, t, write)
    ensures FlatOf(s, p) == FlatOf(ram, p)[(d, t) := Page(PageOf(ram, p, d, t), write)]
  {
    assert t < SLOTS && d < USER_HI;
    hide PgAt, PageOf, WellFormed, MayStore, FlatOf;
    FlatSetAt(ram, s, p, (d, t));
  }

  lemma SamePlace(ram: Ram, p: nat, d: nat, e: nat)
    requires Inv(ram) && TabAt(ram, p, d) && TabAt(ram, p, e)
    ensures Pde(ram, p, d).index == Pde(ram, p, e).index <==> d == e
  {}

  lemma FlatAt(ram: Ram, p: nat)
    requires p < |ram.dirs| && ram.dirs[p].Some?
    ensures |WorldOf(ram)| == |ram.dirs| && WorldOf(ram)[p] == Some(FlatOf(ram, p))
  {}

  lemma ShrunkFlat(ram: Ram, s: Ram, p: nat, d: nat, t: nat)
    requires ShrunkView(ram, s, p, d, t)
    ensures FlatOf(s, p) == FlatOf(ram, p) - {(d, t)}
  {
    hide PgAt, PageOf, MayStore, FlatOf;
    forall k: (nat, nat)
      ensures InFlat(s, p, k) <==> InFlat(ram, p, k) && k != (d, t)
      ensures InFlat(s, p, k) ==> PageAt(s, p, k) == PageAt(ram, p, k)
    {
      assert k == (k.0, k.1);
    }
    FlatCut(ram, s, p, (d, t));
  }

  lemma FlatCut(ram: Ram, s: Ram, p: nat, c: (nat, nat))
    requires forall k :: InFlat(s, p, k) <==> InFlat(ram, p, k) && k != c
    requires forall k :: InFlat(s, p, k) && InFlat(ram, p, k) ==> PageAt(s, p, k) == PageAt(ram, p, k)
    ensures FlatOf(s, p) == FlatOf(ram, p) - {c}
  {
    hide InFlat, PageAt;
  }

  lemma UnlinkReady(ram: Ram, p: nat, d: nat, t: nat)
    requires Inv(ram) && PgAt(ram, p, d, t)
    ensures Pte(ram, p, d, t).index < |ram.counts| && ram.counts[Pte(ram, p, d, t).index] >= 1
    ensures Pde(ram, p, d).index < |ram.counts|
    ensures var s := Unlink(ram, p, d, t);
      |s.dirs| == |ram.dirs| && forall q: nat :: q < |s.dirs| ==> s.dirs[q].Some? == ram.dirs[q].Some?
  {
    PageReached(ram, p, d, t);
    Reached(ram, p, d, Pde(ram, p, d).index);
  }

  lemma UnlinkStep(ram: Ram, p: nat, d: nat, t: nat)
    requires Inv(ram) && Enabled(ram, DoUnlink(p, d, t))
    ensures var s := Step(ram, DoUnlink(p, d, t));
      Inv(s) && WorldOf(s) == FlatStep(WorldOf(ram), DoUnlink(p, d, t))
  {
    hide Exact, FreeExact, OneSlot, Exclusive, FlatOf, SameView, ShrunkView, PageOf, MayStore, WellFormed, Unlink;
    var s := Step(ram, DoUnlink(p, d, t));
    if PgAt(ram, p, d, t) {
      UnlinkReady(ram, p, d, t);
      UnlinkKeeps(ram, p, d, t);
      ShrunkFlat(ram, s, p, d, t);
      WorldSet(ram, s, p);
    } else {
      assert !InFlat(ram, p, (d, t));
      assert FlatOf(ram, p) - {(d, t)} == FlatOf(ram, p);
    }
  }

  lemma ExitStep(ram: Ram, p: nat)
    requires Inv(ram) && Enabled(ram, DoExit(p))
    ensures Inv(Exit(ram, p)) && WorldOf(Exit(ram, p)) == FlatStep(WorldOf(ram), DoExit(p))
  {
    ExitKeeps(ram, p);
    var s := Exit(ram, p);
    forall q: nat | q < TASK_NR && q != p ensures FlatOf(s, q) == FlatOf(ram, q) {
      assert SameView(ram, q, s, q);
      FlatSame(ram, q, s, q);
    }
  }

  lemma StepRefines(ram: Ram, op: Op)
    requires Inv(ram) && Enabled(ram, op)
    ensures Inv(Step(ram, op)) && WorldOf(Step(ram, op)) == FlatStep(WorldOf(ram), op)
  {
    match op
    case DoSpawn(c) => SpawnStep(ram, c);
    case DoFork(p, c) => ForkStep(ram, p, c);
    case DoStore(p, d, t, offset, b) => StoreStep(ram, p, d, t, offset, b);
    case DoLink(p, d, t, raw) => LinkStep(ram, p, d, t, raw);
    case DoMap(p, d, t, raw, write) => LinkedPage(ram, p, d, t, raw); MapStep(ram, p, d, t, raw, write);
    case DoUnlink(p, d, t) => UnlinkStep(ram, p, d, t);
    case DoExit(p) => ExitStep(ram, p);
  }

  // A user store is let through just when the flat machine lets it through, and there is a free
  // frame for what it copies.
  lemma StoreEnabledIff(ram: Ram, p: nat, d: nat, t: nat, offset: nat, b: byte)
    requires Inv(ram)
    ensures Enabled(ram, DoStore(p, d, t, offset, b)) <==>
      Allowed(WorldOf(ram), p, d, t, offset) && FreeFrames(ram) >= StoreCost(ram, p, d, t)
  {
    hide Exact, FreeExact, OneSlot, Exclusive;
    if p < |ram.dirs| && d < USER_HI && t < SLOTS {
      MapPages(ram, p, d, t);
    }
  }

  // ------------------------------------------------------------ whole runs

  ghost predicate EnabledRun(ram: Ram, ops: seq<Op>)
    requires Inv(ram)
    decreases |ops|
  {
    ops == [] || (Enabled(ram, ops[0]) && (StepRefines(ram, ops[0]); EnabledRun(Step(ram, ops[0]), ops[1..])))
  }

  ghost function Run(ram: Ram, ops: seq<Op>): Ram
    requires Inv(ram) && EnabledRun(ram, ops)
    decreases |ops|
  {
    if ops == [] then ram else StepRefines(ram, ops[0]); Run(Step(ram, ops[0]), ops[1..])
  }

  function FlatRun(w: World, ops: seq<Op>): World
    decreases |ops|
  {
    if ops == [] then w else FlatRun(FlatStep(w, ops[0]), ops[1..])
  }

  // Copy-on-write isolation and exact counts, over every run.
  lemma {:induction false} RunRefinesFlat(ram: Ram, ops: seq<Op>)
    requires Inv(ram) && EnabledRun(ram, ops)
    ensures Inv(Run(ram, ops))
    ensures WorldOf(Run(ram, ops)) == FlatRun(WorldOf(ram), ops)
    ensures forall p: nat, d: nat, t: nat, offset: nat, b: byte ::
      Enabled(Run(ram, ops), DoStore(p, d, t, offset, b)) <==>
      Allowed(FlatRun(WorldOf(ram), ops), p, d, t, offset)
      && FreeFrames(Run(ram, ops)) >= StoreCost(Run(ram, ops), p, d, t)
    decreases |ops|
  {
    hide Inv, Enabled, Step, FlatStep, WorldOf, Allowed;
    if ops == [] {
      forall p: nat, d: nat, t: nat, offset: nat, b: byte
        ensures Enabled(ram, DoStore(p, d, t, offset, b)) <==>
          Allowed(WorldOf(ram), p, d, t, offset) && FreeFrames(ram) >= StoreCost(ram, p, d, t)
      {
        StoreEnabledIff(ram, p, d, t, offset, b);
      }
    } else {
      StepRefines(ram, ops[0]);
      RunRefinesFlat(Step(ram, ops[0]), ops[1..]);
    }
  }

  // ----------------------------------------------------------- at boot

  function Boot(total: nat, start: nat): Ram {
    Ram(start, seq(total, f requires 0 <= f => Base(f)), total - KERNEL_FRAMES + FREE_SLACK,
        seq(total, f => Data([])), seq(TASK_NR, p => None))
  }

  lemma {:induction false} BootZeros(counts: seq<nat>, n: nat)
    requires n <= |counts| && forall f :: 0 <= f < n ==> counts[f] == Base(f)
    ensures Zeros(counts, n) == if n <= KERNEL_FRAMES then 0 else n - KERNEL_FRAMES
  {
    if n > 0 {
      BootZeros(counts, n - 1);
    }
  }

  lemma {:induction false} NoDirsNoRefs(frames: seq<Frame>, dirs: seq<Option<seq<Entry>>>, n: nat, f: nat)
    requires n <= |dirs| && forall p :: 0 <= p < n ==> dirs[p].None?
    ensures AllRefs(frames, dirs, n, f) == 0
  {
    if n > 0 {
      NoDirsNoRefs(frames, dirs, n - 1, f);
    }
  }

  lemma BootInv(total: nat, start: nat)
    requires start <= KERNEL_FRAMES <= total
    ensures Inv(Boot(total, start)) && WorldOf(Boot(total, start)) == seq(TASK_NR, p => None)
  {
    var ram := Boot(total, start);
    forall f | 0 <= f < |ram.counts| ensures ram.counts[f] == Base(f) + Refs(ram, f) {
      NoDirsNoRefs(ram.frames, ram.dirs, TASK_NR, f);
    }
    BootZeros(ram.counts, total);
  }
}
