// What descriptors mean, without records and counts: each open makes a new open file with
// an offset of its own, and dup, dup2 and fork only name it again.
module OpenFiles {
  import opened Descriptors

  // An open file, once made, keeps its place in opens for good.
  datatype Opening = Opening(inode: Inode, offset: nat)
  datatype World = World(of: map<(nat, nat), nat>, opens: seq<Opening>, tasks: set<nat>)

  // Task t's lowest descriptor from d on that is not in use, if there is one.
  ghost predicate LowestFree(of: map<(nat, nat), nat>, t: nat, d: nat, r: nat) {
    d <= r <= TASK_FILE_NR && (r < TASK_FILE_NR ==> (t, r) !in of) && forall k: nat :: d <= k < r ==> (t, k) in of
  }

  function Anew(w: World, t: nat, o: Opening): World {
    World(w.of[(t, FreeFd(w.of, t, 3)) := |w.opens|], w.opens + [o], w.tasks)
  }

  function Again(w: World, t: nat, fd: nat, d: nat): World {
    if (t, fd) in w.of && d < TASK_FILE_NR then w.(of := w.of[(t, d) := w.of[(t, fd)]]) else w
  }

  predicate Known(w: World) {
    forall k :: k in w.of ==> w.of[k] < |w.opens|
  }

  function WorldStep(w: World, e: Event): World
    requires Known(w)
  {
    match e
    case DoOpen(t, nr, at) => Anew(w, t, Opening(Other(nr), at))
    case DoPipe(t, i) => Anew(Anew(w, t, Opening(Pipe(i), 0)), t, Opening(Pipe(i), 0))
    case DoClose(t, d) => w.(of := w.of - {(t, d)})
    case DoSeek(t, d, whence, far, size) =>
      if (t, d) !in w.of then w
      else
        var o := w.opens[w.of[(t, d)]];
        var to := if whence.Set? then far else if whence.Current? then o.offset + far else size + far;
        w.(opens := w.opens[w.of[(t, d)] := o.(offset := to)])
    case DoDup(t, fd) => Again(w, t, fd, FreeFd(w.of, t, 0))
    case DoDup2(t, fd, d) => Again(w.(of := w.of - {(t, d)}), t, fd, d)
    case DoFork(t, c) => World(w.of + map k | k in Child(w.of, t, c) :: w.of[(t, k.1)], w.opens, w.tasks + {c})
    case DoExit(t) => World(map k | k in w.of && k.0 != t :: w.of[k], w.opens, w.tasks - {t})
  }

  function Child(of: map<(nat, nat), nat>, t: nat, c: nat): (r: set<(nat, nat)>)
    ensures forall k :: k in r <==> k.0 == c && (t, k.1) in of
  {
    set k | k in of && k.0 == t :: (c, k.1)
  }

  // Two descriptors name the same record just when they name the same open file, and the
  // record has its inode and offset. A pipe has no offset.
  ghost predicate Shows(s: Table, w: World) {
    && Shaped(s) && Known(w) && s.files.Keys == w.of.Keys && s.tasks == w.tasks
    && (forall k :: k in s.files ==> Agrees(s.records[s.files[k]], w.opens[w.of[k]]))
    && SameShares(s.files, w.of)
  }

  ghost predicate SameShares(files: map<(nat, nat), nat>, of: map<(nat, nat), nat>)
    requires files.Keys == of.Keys
  {
    forall j, k :: j in files && k in files ==> (files[j] == files[k] <==> of[j] == of[k])
  }

  lemma SharesMore(files: map<(nat, nat), nat>, of: map<(nat, nat), nat>, key: (nat, nat), f: nat, o: nat)
    requires files.Keys == of.Keys && SameShares(files, of) && key !in files
    requires forall k :: k in files ==> (files[k] == f <==> of[k] == o)
    ensures SameShares(files[key := f], of[key := o])
  {}

  predicate Agrees(r: Record, o: Opening) {
    r.inode == o.inode && (r.inode.Other? ==> r.offset == o.offset)
  }

  // Each descriptor of m and v names what the one it comes from did in s and w.
  ghost predicate Follows(s: Table, w: World, m: Table, v: World, from: ((nat, nat)) -> (nat, nat)) {
    && m.files.Keys == v.of.Keys && m.tasks == v.tasks && v.opens == w.opens && |m.records| == |s.records|
    && (forall k :: k in m.files ==> k in v.of && from(k) in s.files && from(k) in w.of &&
                                     m.files[k] == s.files[from(k)] && v.of[k] == w.of[from(k)])
    && (forall f :: 0 <= f < |s.records| ==> m.records[f] == s.records[f].(count := m.records[f].count))
  }

  lemma FollowsShows(s: Table, w: World, m: Table, v: World, from: ((nat, nat)) -> (nat, nat))
    requires Shows(s, w) && Shaped(m) && Follows(s, w, m, v, from)
    ensures Shows(m, v)
  {
    forall j, k | j in m.files && k in m.files ensures m.files[j] == m.files[k] <==> v.of[j] == v.of[k] {
      assert from(j) in s.files && from(k) in s.files;
    }
    forall k | k in m.files ensures v.of[k] < |v.opens| && Agrees(m.records[m.files[k]], v.opens[v.of[k]]) {
      assert from(k) in s.files;
    }
  }

  lemma SameFree(s: Table, w: World, t: nat, d: nat)
    requires s.files.Keys == w.of.Keys && d <= TASK_FILE_NR
    ensures FreeFd(s.files, t, d) == FreeFd(w.of, t, d) && LowestFree(w.of, t, d, FreeFd(s.files, t, d))
  {
    var a, b := FreeFd(s.files, t, d), FreeFd(w.of, t, d);
    assert a < b ==> (t, a) in w.of;
    assert b < a ==> (t, b) in s.files;
  }

  // A free record is one that no descriptor names: an open never takes over another's.
  lemma FreeUnnamed(s: Table, f: nat)
    requires Inv(s) && f < |s.records| && s.records[f].count == 0
    ensures forall k :: k in s.files ==> s.files[k] != f
  {
    hide PipesCounted;
    assert Named(s.files, f) == {};
    forall k | k in s.files ensures s.files[k] != f {
      assert s.files[k] == f ==> k in Named(s.files, f);
    }
  }

  // Descriptor key, not in use before, comes to name record f, which nothing named.
  lemma NewShows(s: Table, w: World, m: Table, key: (nat, nat), f: nat, o: Opening)
    requires Shows(s, w) && Shaped(m) && key !in s.files && f < |s.records|
    requires m.files == s.files[key := f] && m.tasks == s.tasks && Agrees(m.records[f], o)
    requires forall k :: k in s.files ==> s.files[k] != f && m.records[s.files[k]] == s.records[s.files[k]]
    ensures Shows(m, World(w.of[key := |w.opens|], w.opens + [o], w.tasks))
  {
    hide SameShares, Agrees;
    SharesMore(s.files, w.of, key, f, |w.opens|);
  }

  lemma OpenedShows(s: Table, w: World, t: nat, f: nat, o: Opening, at: nat, pipes: map<nat, nat>)
    requires Inv(s) && Shows(s, w) && f < |s.records| && s.records[f].count == 0 && t in s.tasks
    requires FreeFd(s.files, t, 3) < TASK_FILE_NR && Agrees(Record(1, o.inode, at), o)
    ensures Shows(Opened(s, t, FreeFd(s.files, t, 3), f, o.inode, at).(pipes := pipes), Anew(w, t, o))
  {
    hide SameShares, Inv, FreeFd, Agrees;
    var d := FreeFd(s.files, t, 3);
    SameFree(s, w, t, 3);
    FreeUnnamed(s, f);
    NewShows(s, w, Opened(s, t, d, f, o.inode, at).(pipes := pipes), (t, d), f, o);
  }

  lemma PipeEndShows(s: Table, w: World, t: nat, i: nat)
    requires Inv(s) && Shows(s, w) && Room(s, t)
    ensures Shows(PipeEnd(s, t, i), Anew(w, t, Opening(Pipe(i), 0)))
  {
    var f := FreeRecord(s.records, FIRST_FILE);
    hide Inv, Shows;
    OpenedShows(s, w, t, f, Opening(Pipe(i), 0), s.records[f].offset, PipeEnd(s, t, i).pipes);
  }

  lemma CloseShows(s: Table, w: World, t: nat, d: nat)
    requires Inv(s) && Shows(s, w)
    ensures Shows(Close(s, t, d), w.(of := w.of - {(t, d)}))
  {
    hide SameShares, PipesCounted, Counted;
    CloseKeeps(s, t, d);
    FollowsShows(s, w, Close(s, t, d), w.(of := w.of - {(t, d)}), k => k);
  }

  lemma AgainShows(s: Table, w: World, t: nat, fd: nat, arg: nat)
    requires Shows(s, w) && t in s.tasks && arg <= TASK_FILE_NR
    ensures Shows(Duplicated(s, t, fd, arg), Again(w, t, fd, FreeFd(w.of, t, arg)))
  {
    hide SameShares, FreeFd;
    SameFree(s, w, t, arg);
    var d := FreeFd(s.files, t, arg);
    FollowsShows(s, w, Duplicated(s, t, fd, arg), Again(w, t, fd, d),
                 k => if k == (t, d) && k !in s.files then (t, fd) else k);
  }

  lemma SeekShows(s: Table, w: World, e: Event)
    requires Shows(s, w) && e.DoSeek? && Enabled(s, e)
    ensures Shows(Step(s, e), WorldStep(w, e))
  {}

  lemma {:induction false} InheritedRecords(s: Table, p: nat, c: nat, n: nat)
    requires Shaped(s)
    ensures forall f :: 0 <= f < |s.records| ==>
      Inherited(s, p, c, n).records[f] == s.records[f].(count := Inherited(s, p, c, n).records[f].count)
  {
    if n > 0 {
      InheritedRecords(s, p, c, n - 1);
    }
  }

  // The descriptor that k is a copy of, when t's child c is made.
  function Origin(t: nat, c: nat, k: (nat, nat)): (nat, nat) {
    if k.0 == c then (t, k.1) else k
  }

  lemma ForkNames(s: Table, w: World, t: nat, c: nat, k: (nat, nat))
    requires Shaped(s) && Known(w) && s.files.Keys == w.of.Keys && t in s.tasks && c !in s.tasks
    ensures var m, v, j := Inherited(s, t, c, TASK_FILE_NR), WorldStep(w, DoFork(t, c)), Origin(t, c, k);
      && (k in m.files <==> j in s.files) && (k in v.of <==> j in s.files)
      && (k in m.files ==> m.files[k] == s.files[j] && v.of[k] == w.of[j])
  {
    InheritedCopies(s, t, c, TASK_FILE_NR);
    hide Inherited;
    assert k == (k.0, k.1);
  }

  lemma ForkOpens(w: World, t: nat, c: nat)
    requires Known(w)
    ensures WorldStep(w, DoFork(t, c)).opens == w.opens && WorldStep(w, DoFork(t, c)).tasks == w.tasks + {c}
  {}

  lemma ForkFollows(s: Table, w: World, t: nat, c: nat)
    requires Shaped(s) && Known(w) && s.files.Keys == w.of.Keys && s.tasks == w.tasks
    requires t in s.tasks && c !in s.tasks
    ensures Follows(s, w, Inherited(s, t, c, TASK_FILE_NR), WorldStep(w, DoFork(t, c)), k => Origin(t, c, k))
  {
    hide Inherited, Origin, WorldStep;
    var m, v := Inherited(s, t, c, TASK_FILE_NR), WorldStep(w, DoFork(t, c));
    InheritedRecords(s, t, c, TASK_FILE_NR);
    InheritedCounts(s, t, c, TASK_FILE_NR, 0);
    ForkOpens(w, t, c);
    forall k
      ensures k in m.files <==> k in v.of
      ensures k in m.files ==> Origin(t, c, k) in s.files && Origin(t, c, k) in w.of
      ensures k in m.files ==> m.files[k] == s.files[Origin(t, c, k)] && v.of[k] == w.of[Origin(t, c, k)]
    {
      ForkNames(s, w, t, c, k);
    }
    assert m.files.Keys == v.of.Keys;
  }

  lemma ForkShows(s: Table, w: World, t: nat, c: nat)
    requires Inv(s) && Shows(s, w) && t in s.tasks && c !in s.tasks
    ensures Shows(Inherited(s, t, c, TASK_FILE_NR), WorldStep(w, DoFork(t, c)))
  {
    hide Inherited, WorldStep, SameShares, Follows, Counted, PipesCounted;
    InheritedKeeps(s, t, c, TASK_FILE_NR);
    ForkFollows(s, w, t, c);
    FollowsShows(s, w, Inherited(s, t, c, TASK_FILE_NR), WorldStep(w, DoFork(t, c)), k => Origin(t, c, k));
  }

  lemma {:induction false} ClosedBelowShows(s: Table, w: World, t: nat, n: nat)
    requires Inv(s) && Shows(s, w)
    ensures Shows(ClosedBelow(s, t, n), w.(of := map k | k in w.of && !(k.0 == t && k.1 < n) :: w.of[k]))
  {
    hide Inv, Shows;
    var v := w.(of := map k | k in w.of && !(k.0 == t && k.1 < n) :: w.of[k]);
    if n == 0 {
      assert v.of == w.of;
    } else {
      var u := w.(of := map k | k in w.of && !(k.0 == t && k.1 < n - 1) :: w.of[k]);
      ClosedBelowShows(s, w, t, n - 1);
      ClosedBelowKeeps(s, t, n - 1);
      CloseShows(ClosedBelow(s, t, n - 1), u, t, n - 1);
      assert v.of == u.of - {(t, n - 1)} by {
        assert forall k :: k == (t, n - 1) <==> k.0 == t && k.1 == n - 1;
      }
    }
  }

  lemma ExitNames(s: Table, w: World, t: nat)
    requires Shows(s, w)
    ensures WorldStep(w, DoExit(t))
         == World(map k | k in w.of && !(k.0 == t && k.1 < TASK_FILE_NR) :: w.of[k], w.opens, w.tasks - {t})
  {
    hide SameShares, Agrees;
    assert forall k :: k in w.of ==> k in s.files && k.1 < TASK_FILE_NR;
  }

  lemma ExitShows(s: Table, w: World, t: nat)
    requires Inv(s) && Shows(s, w)
    ensures Shows(Exit(s, t), WorldStep(w, DoExit(t)))
  {
    hide ClosedBelow, PipesCounted, Counted, SameShares, Agrees, WorldStep;
    ClosedBelowShows(s, w, t, TASK_FILE_NR);
    ExitKeeps(s, t);
    ExitNames(s, w, t);
  }

  // One call does to the descriptors what it does to open files.
  lemma StepShows(s: Table, w: World, e: Event)
    requires Inv(s) && Enabled(s, e) && Shows(s, w)
    ensures Shows(Step(s, e), WorldStep(w, e))
  {
    hide Inv, Shows, Shaped, Exit, Inherited;
    match e
    case DoOpen(t, nr, at) =>
      OpenedShows(s, w, t, FreeRecord(s.records, FIRST_FILE), Opening(Other(nr), at), at, s.pipes);
    case DoPipe(t, i) =>
      PipeEndShows(s, w, t, i);
      PipeEndKeeps(s, t, i);
      PipeEndShows(PipeEnd(s, t, i), Anew(w, t, Opening(Pipe(i), 0)), t, i);
    case DoClose(t, d) => CloseShows(s, w, t, d);
    case DoSeek(t, d, whence, far, size) => SeekShows(s, w, e);
    case DoDup(t, fd) => AgainShows(s, w, t, fd, 0);
    case DoDup2(t, fd, d) =>
      CloseShows(s, w, t, d);
      CloseKeeps(s, t, d);
      AgainShows(Close(s, t, d), w.(of := w.of - {(t, d)}), t, fd, d);
    case DoFork(t, c) => ForkShows(s, w, t, c);
    case DoExit(t) => ExitShows(s, w, t);
  }

  lemma ShowsKnown(s: Table, w: World)
    requires Shows(s, w)
    ensures Known(w)
  {}

  ghost function WorldRun(w: World, es: seq<Event>): World
    decreases |es|
  {
    if es == [] || !Known(w) then w else WorldRun(WorldStep(w, es[0]), es[1..])
  }

  // Over every run, with records taken, given back and taken again, descriptors share an
  // offset just when they come from the same open by dup, dup2 and fork.
  lemma {:induction false} RunShows(s: Table, w: World, es: seq<Event>)
    requires Inv(s) && Shows(s, w) && EnabledRun(s, es)
    ensures Shows(Run(s, es), WorldRun(w, es))
    decreases |es|
  {
    hide Inv, Shows, Enabled, Step, WorldStep;
    if es != [] {
      ShowsKnown(s, w);
      StepKeeps(s, es[0]);
      StepShows(s, w, es[0]);
      RunShows(Step(s, es[0]), WorldStep(w, es[0]), es[1..]);
    }
  }

  // A pipe inode is in use just while a descriptor names an end of it.
  lemma PipeHeld(s: Table, w: World, i: nat)
    requires Inv(s) && Shows(s, w)
    ensures i in s.pipes <==> exists k :: k in w.of && w.opens[w.of[k]].inode == Pipe(i)
  {
    PipeInUse(s, i);
    assert forall k :: k in w.of ==> s.records[s.files[k]].inode == w.opens[w.of[k]].inode;
  }

  // The two tasks at the start have the console's three files in common.
  lemma BootShows()
    ensures Inv(Boot()) && Shows(Boot(), World(Boot().files, seq(FIRST_FILE, _ => Opening(Other(0), 0)), {0, 1}))
  {
    BootKeeps();
  }
}
