// The current directory of a task: namei and sys_chdir of src/fs/namei.c. The inode number
// and the text in the pwd buffer name the same directory, over every run of calls.
module WorkingDirectory {
  import opened Directories
  import opened Volume
  import opened Paths
  import opened Wrappers

  // ------------------------------------------------------------------ namei

  // named and the last lookup of namei from directory d on; rest is what is left of the path.
  // allowed has the directories that may be passed through.
  function NameiFrom(n: Nodes, d: nat, rest: string, allowed: set<nat>): Option<nat>
    decreases |rest|
  {
    var c := Component(rest);
    ComponentPrefix(rest);
    if rest == "" then Some(d)
    else if d !in n || !n[d].isDir || Find(n, d, c).None? then None
    else
      FindFromSound(n[d].slots, c, 0);
      var x := n[d].slots[Find(n, d, c).value].nr;
      if |c| == |rest| then Some(x)
      else if x !in n || !n[x].isDir || x !in allowed then None
      else NameiFrom(n, x, rest[|c| + 1..], allowed)
  }

  // The task's root is the root of the device.
  function NameiFound(n: Nodes, d: nat, path: string, allowed: set<nat>): Option<nat> {
    if path == "" then None
    else if Absolute(path) then NameiFrom(n, ROOT, path[1..], allowed)
    else NameiFrom(n, d, path, allowed)
  }

  // The same for components, without the permissions.
  function WalkTo(n: Nodes, d: nat, cs: seq<string>): Option<nat>
    decreases |cs|
  {
    if cs == [] then Some(d)
    else if d !in n || !n[d].isDir || Find(n, d, cs[0]).None? then None
    else
      FindFromSound(n[d].slots, cs[0], 0);
      WalkTo(n, n[d].slots[Find(n, d, cs[0]).value].nr, cs[1..])
  }

  // A walk that has got to a directory the task may pass through.
  predicate MayPass(n: Nodes, at: Option<nat>, allowed: set<nat>) {
    at.Some? && at.value in n && n[at.value].isDir && at.value in allowed
  }

  predicate Trailing(rest: string) {
    rest != "" && IsSeparator(rest[|rest| - 1])
  }

  // The directories on the way may be passed through; so may the last where a separator
  // is behind it.
  ghost predicate Passes(n: Nodes, d: nat, rest: string, allowed: set<nat>) {
    var cs := Components(rest);
    forall k :: 1 <= k <= |cs| && (k < |cs| || Trailing(rest)) ==> MayPass(n, WalkTo(n, d, cs[..k]), allowed)
  }

  lemma WalkFirst(n: Nodes, d: nat, cs: seq<string>, k: nat)
    requires 1 <= k <= |cs| && d in n && n[d].isDir && Find(n, d, cs[0]).Some?
    ensures var i := Find(n, d, cs[0]).value; i < |n[d].slots|
    ensures WalkTo(n, d, cs[..k]) == WalkTo(n, n[d].slots[Find(n, d, cs[0]).value].nr, cs[1..][..k - 1])
  {
    FindFromSound(n[d].slots, cs[0], 0);
    assert cs[..k][1..] == cs[1..][..k - 1];
  }

  // namei finds what the components lead to, where the way there may be passed.
  lemma {:induction false} NameiIff(n: Nodes, d: nat, rest: string, allowed: set<nat>, e: nat)
    ensures NameiFrom(n, d, rest, allowed) == Some(e)
       <==> WalkTo(n, d, Components(rest)) == Some(e) && Passes(n, d, rest, allowed)
    decreases |rest|
  {
    hide Component, Passes;
    var c := Component(rest);
    ComponentPrefix(rest);
    if rest == "" {
      PassesEnd(n, d, rest, allowed);
    } else if d in n && n[d].isDir && Find(n, d, c).Some? {
      FindFromSound(n[d].slots, c, 0);
      var x := n[d].slots[Find(n, d, c).value].nr;
      if |c| == |rest| {
        PassesEnd(n, d, rest, allowed);
        assert [c][1..] == [];
      } else {
        var more := rest[|c| + 1..];
        assert Components(rest)[1..] == Components(more);
        NameiIff(n, x, more, allowed, e);
        PassesStep(n, d, rest, allowed);
      }
    }
  }

  lemma PassesEnd(n: Nodes, d: nat, rest: string, allowed: set<nat>)
    requires |Component(rest)| == |rest|
    ensures Passes(n, d, rest, allowed)
  {
    ComponentPrefix(rest);
  }

  lemma PassesStep(n: Nodes, d: nat, rest: string, allowed: set<nat>)
    requires |Component(rest)| < |rest| && d in n && n[d].isDir && Find(n, d, Component(rest)).Some?
    ensures var i := Find(n, d, Component(rest)).value; i < |n[d].slots|
    ensures var x := n[d].slots[Find(n, d, Component(rest)).value].nr;
      Passes(n, d, rest, allowed) <==>
        MayPass(n, Some(x), allowed) && Passes(n, x, rest[|Component(rest)| + 1..], allowed)
  {
    hide Component, MayPass;
    var c := Component(rest);
    ComponentPrefix(rest);
    FindFromSound(n[d].slots, c, 0);
    var x := n[d].slots[Find(n, d, c).value].nr;
    var more := rest[|c| + 1..];
    var cs := Components(rest);
    assert cs[0] == c && cs[1..] == Components(more);
    assert Trailing(rest) <==> more == "" || Trailing(more);
    forall k | 1 <= k <= |cs| ensures WalkTo(n, d, cs[..k]) == WalkTo(n, x, Components(more)[..k - 1]) {
      WalkFirst(n, d, cs, k);
    }
    assert WalkTo(n, d, cs[..1]) == Some(x);
    if Passes(n, d, rest, allowed) {
      assert MayPass(n, WalkTo(n, d, cs[..1]), allowed);
      forall k | 1 <= k <= |cs| - 1 && (k < |cs| - 1 || Trailing(more))
        ensures MayPass(n, WalkTo(n, x, Components(more)[..k]), allowed)
      {
        assert MayPass(n, WalkTo(n, d, cs[..k + 1]), allowed);
      }
    }
  }

  lemma {:induction false} WalkAppend(n: Nodes, d: nat, a: seq<string>, b: seq<string>, e: nat)
    requires WalkTo(n, d, a) == Some(e)
    ensures WalkTo(n, d, a + b) == WalkTo(n, e, b)
    decreases |a|
  {
    if a == [] {
      assert a + b == b;
    } else {
      FindFromSound(n[d].slots, a[0], 0);
      WalkAppend(n, n[d].slots[Find(n, d, a[0]).value].nr, a[1..], b, e);
      assert (a + b)[1..] == a[1..] + b;
    }
  }

  // ------------------------------------------------------- names in use

  // No name in use is empty.
  ghost predicate NamesFull(n: Nodes) {
    forall d, i :: d in n && 0 <= i < |n[d].slots| && n[d].slots[i].nr != 0 ==> n[d].slots[i].name != ""
  }

  lemma StepFull(n: Nodes, op: Op)
    requires Callable(n, op) && NamesFull(n)
    ensures NamesFull(Step(n, op))
  {
    FindFromSound(n[op.d].slots, op.name, 0);
    hide FreeFrom, FindFrom;
    assert op.name != "" ==> Cut(op.name) != "";
  }

  // So a path that resolves has no empty component.
  lemma {:induction false} ResolvedFull(n: Nodes, d: nat, cs: seq<string>)
    requires NamesFull(n) && WalkTo(n, d, cs).Some?
    ensures "" !in cs
    decreases |cs|
  {
    if cs != [] {
      FindFromSound(n[d].slots, cs[0], 0);
      ResolvedFull(n, n[d].slots[Find(n, d, cs[0]).value].nr, cs[1..]);
    }
  }

  // ---------------------------------------------- text and inode agree

  // st leads from the root to directory d, and has no "." and no "..", and nothing empty.
  ghost predicate Names(n: Nodes, st: seq<string>, d: nat) {
    WalkTo(n, ROOT, st) == Some(d) && d in n && n[d].isDir && Normal(st, false)
  }

  lemma RootIsDir(n: Nodes)
    requires Inv(n)
    ensures ROOT in n && n[ROOT].isDir
    ensures DirShape(ROOT, n[ROOT].slots) && n[ROOT].slots[1].nr == ROOT
  {
    NodeInGraph(n, ROOT);
    assert Closed(GraphOf(n).up);
    hide GraphOf, Linked, Placed, Counted, Rooted, UniqueNames, Dotted;
    UpsAreNodes(GraphOf(n));
  }

  lemma {:induction false} WalkInit(n: Nodes, d: nat, init: seq<string>, x: string)
    requires WalkTo(n, d, init + [x]).Some?
    ensures WalkTo(n, d, init).Some?
    ensures WalkTo(n, WalkTo(n, d, init).value, [x]) == WalkTo(n, d, init + [x])
    decreases |init|
  {
    if init == [] {
      assert init + [x] == [x];
    } else {
      FindFromSound(n[d].slots, init[0], 0);
      assert (init + [x])[1..] == init[1..] + [x];
      WalkInit(n, n[d].slots[Find(n, d, init[0]).value].nr, init[1..], x);
    }
  }

  // From a directory found by name ".." leads back.
  lemma BackUp(n: Nodes, p: nat, x: string)
    requires Inv(n) && p in n && n[p].isDir && Named(x) && Find(n, p, x).Some?
    ensures var i := Find(n, p, x).value; 2 <= i < |n[p].slots| && n[p].slots[i].name == x && n[p].slots[i].nr in n
    ensures var q := n[p].slots[Find(n, p, x).value].nr;
      q != p && (n[q].isDir ==> |n[q].slots| >= 2 && n[q].slots[1].nr == p)
  {
    FoundOrdinary(n, p, x);
    FindFromSound(n[p].slots, x, 0);
    var i := Find(n, p, x).value;
    var q := n[p].slots[i].nr;
    NodeInGraph(n, q);
    hide GraphOf, Tidy, Find, Closed, Placed, Counted, Rooted, Dotted;
    assert Ordinary(GraphOf(n), p, i, q);
  }

  lemma DotsOf(n: Nodes, d: nat)
    requires Inv(n) && d in n && n[d].isDir
    ensures |n[d].slots| >= 2 && n[d].slots[0].nr == d
    ensures Find(n, d, ".") == Some(0) && Find(n, d, "..") == Some(1)
  {
    DotsFound(n, d, ".");
    hide Tidy, Good;
    DotsAreDirs(n, d);
  }

  // One component on from a directory that st names.
  lemma GoNames(n: Nodes, st: seq<string>, d: nat, c: string)
    requires Inv(n) && Names(n, st, d) && c != "" && Find(n, d, c).Some?
    ensures var i := Find(n, d, c).value; i < |n[d].slots|
    ensures var e := n[d].slots[Find(n, d, c).value].nr; e in n && n[e].isDir ==> Names(n, Go(st, c), e)
  {
    hide Inv;
    FindFromSound(n[d].slots, c, 0);
    DotsOf(n, d);
    var e := n[d].slots[Find(n, d, c).value].nr;
    if e in n && n[e].isDir {
      if c == "." {
        assert e == d;
      } else if c == ".." {
        UpNames(n, st, d);
      } else {
        WalkAppend(n, ROOT, st, [c], d);
        assert [c][1..] == [];
      }
    }
  }

  lemma UpNames(n: Nodes, st: seq<string>, d: nat)
    requires Inv(n) && Names(n, st, d) && |n[d].slots| >= 2
    ensures n[d].slots[1].nr in n && n[n[d].slots[1].nr].isDir ==> Names(n, Go(st, ".."), n[d].slots[1].nr)
  {
    hide Inv;
    if st == [] {
      RootIsDir(n);
    } else {
      var init, x := st[..|st| - 1], st[|st| - 1];
      assert st == init + [x];
      WalkInit(n, ROOT, init, x);
      var p := WalkTo(n, ROOT, init).value;
      assert [x][1..] == [];
      BackUp(n, p, x);
    }
  }

  // sys_chdir: the text that abspath makes names the inode that namei found.
  lemma {:induction false} WalkNames(n: Nodes, st: seq<string>, d: nat, cs: seq<string>, e: nat)
    requires Inv(n) && NamesFull(n) && Names(n, st, d) && WalkTo(n, d, cs) == Some(e) && e in n && n[e].isDir
    ensures Names(n, GoAll(st, cs), e)
    decreases |cs|
  {
    if cs != [] {
      ResolvedFull(n, d, cs);
      assert cs[0] in cs;
      GoNames(n, st, d, cs[0]);
      var x := n[d].slots[Find(n, d, cs[0]).value].nr;
      if cs[1..] == [] {
        assert x == e;
      }
      WalkNames(n, Go(st, cs[0]), x, cs[1..], e);
    }
  }

  // ------------------------------------------- directory calls keep them together

  // rmdir leaves directory d alone while a task is in it: the inode is counted once more.
  predicate Spares(n: Nodes, op: Op, d: nat)
    requires op.d in n
  {
    FindFromSound(n[op.d].slots, op.name, 0);
    op.DoRmdir? && Find(n, op.d, op.name).Some? && n[op.d].slots[Find(n, op.d, op.name).value].nr == d ==> op.busy
  }

  lemma SparedStays(n: Nodes, op: Op, d: nat)
    requires Inv(n) && Callable(n, op) && d in n && n[d].isDir && Spares(n, op, d)
    ensures d in Step(n, op) && Step(n, op)[d].isDir
  {
    hide Inv, FreeFrom, FindFrom, CountInUse;
  }

  // Slot i of directory e is still there.
  predicate SlotStays(n: Nodes, m: Nodes, e: nat, i: nat) {
    && e in n && e in m && m[e].isDir == n[e].isDir
    && i < |n[e].slots| && i < |m[e].slots| && m[e].slots[i] == n[e].slots[i]
  }

  lemma AddedStays(n: Nodes, d: nat, name: string, c: nat, e: nat, i: nat)
    requires d in n && e in n && i < |n[e].slots| && n[e].slots[i].nr != 0
    ensures SlotStays(n, Added(n, d, name, c), e, i)
  {}

  lemma RmdirStays(n: Nodes, d: nat, name: string, busy: bool, allowed: bool, e: nat, i: nat)
    requires d in n && e in n && n[e].isDir && i < |n[e].slots| && CountInUse(n[e].slots) != 2
    requires n[e].slots[i].nr in Rmdir(n, d, name, busy, allowed)
    ensures SlotStays(n, Rmdir(n, d, name, busy, allowed), e, i)
  {
    FindFromSound(n[d].slots, name, 0);
    hide FindFrom, CountInUse;
  }

  lemma UnlinkStays(n: Nodes, d: nat, name: string, allowed: bool, e: nat, i: nat)
    requires d in n && e in n && n[e].isDir && i < |n[e].slots| && n[e].slots[i].nr in n && n[n[e].slots[i].nr].isDir
    ensures SlotStays(n, Unlink(n, d, name, allowed), e, i)
  {
    FindFromSound(n[d].slots, name, 0);
    hide FindFrom;
  }

  lemma NotEmpty(n: Nodes, e: nat, i: nat)
    requires Inv(n) && e in n && n[e].isDir && 2 <= i < |n[e].slots| && n[e].slots[i].nr in n
    ensures n[e].slots[i].nr != 0 && CountInUse(n[e].slots) != 2
  {
    hide Good, CountInUse;
    InvNames(n, n[e].slots[i].nr);
    EmptyDir(n, e);
  }

  // The entry of a directory that stays does, and so does the directory it is in.
  lemma EntryStays(n: Nodes, op: Op, e: nat, i: nat)
    requires Inv(n) && Callable(n, op) && e in n && n[e].isDir && 2 <= i < |n[e].slots|
    requires var y := n[e].slots[i].nr; y in n && n[y].isDir && y in Step(n, op)
    ensures SlotStays(n, Step(n, op), e, i)
  {
    hide Inv, CountInUse, Added, Rmdir, Unlink, Find;
    NotEmpty(n, e, i);
    match op
    case DoMkdir(d, name, c, _) => AddedStays(n, d, name, c, e, i);
    case DoRmdir(d, name, busy, allowed) => RmdirStays(n, d, name, busy, allowed, e, i);
    case DoLink(d, name, c, _) => AddedStays(n, d, name, c, e, i);
    case DoUnlink(d, name, allowed) => UnlinkStays(n, d, name, allowed, e, i);
    case DoCreate(d, name, c, _) => AddedStays(n, d, name, c, e, i);
  }

  lemma {:induction false} WalkStays(n: Nodes, op: Op, e: nat, cs: seq<string>, d: nat)
    requires Inv(n) && Callable(n, op) && Inv(Step(n, op)) && e in n && n[e].isDir && Normal(cs, false)
    requires WalkTo(n, e, cs) == Some(d) && d in n && n[d].isDir && d in Step(n, op) && Step(n, op)[d].isDir
    ensures e in Step(n, op) && Step(n, op)[e].isDir && WalkTo(Step(n, op), e, cs) == Some(d)
    decreases |cs|
  {
    hide Inv, Step, Callable;
    if cs != [] {
      var i := Find(n, e, cs[0]).value;
      BackUp(n, e, cs[0]);
      var y := n[e].slots[i].nr;
      InvNames(n, y);
      if cs[1..] == [] {
        assert y == d;
      }
      WalkStays(n, op, y, cs[1..], d);
      EntryStays(n, op, e, i);
      InvNames(Step(n, op), e);
      FoundAt(Step(n, op)[e].slots, i);
    }
  }

  lemma NamesStay(n: Nodes, op: Op, st: seq<string>, d: nat)
    requires Inv(n) && Enabled(n, op) && Names(n, st, d) && Spares(n, op, d)
    ensures Names(Step(n, op), st, d)
  {
    hide Inv, Step, Callable;
    RootIsDir(n);
    StepKeeps(n, op);
    SparedStays(n, op, d);
    WalkStays(n, op, ROOT, st, d);
  }

  // ------------------------------------------------- the text leads back to the inode

  lemma {:induction false} TextFront(x: string, rest: seq<string>)
    ensures Text([x] + rest) == "/" + x + Text(rest)
    decreases |rest|
  {
    var st := [x] + rest;
    if rest == [] {
      assert st == [x] && st[..0] == [];
    } else {
      var init, y := rest[..|rest| - 1], rest[|rest| - 1];
      assert st[..|st| - 1] == [x] + init && st[|st| - 1] == y;
      TextFront(x, init);
      assert Text(st) == "/" + x + Text(init) + y + "/";
      assert Text(rest) == Text(init) + y + "/";
    }
  }

  lemma TextRoot()
    ensures Text([]) == "/"
  {}

  lemma {:induction false} TextParts(st: seq<string>)
    requires Clean(st)
    ensures Components(Text(st)[1..]) == st
  {
    hide Text, Component;
    if st == [] {
      assert Text(st) == "/" by { TextRoot(); }
    } else {
      var x, rest := st[0], st[1..];
      assert st == [x] + rest;
      TextFront(x, rest);
      TextParts(rest);
      var path := Text(st)[1..];
      assert path == x + Text(rest) && path[..|x|] == x && path[|x|] == '/' && path[|x| + 1..] == Text(rest)[1..];
      FirstIsComponent(path, |x|);
    }
  }

  lemma {:induction false} WalkPrefix(n: Nodes, d: nat, cs: seq<string>, k: nat)
    requires WalkTo(n, d, cs).Some? && k <= |cs| && (k == |cs| ==> MayPass(n, WalkTo(n, d, cs), n.Keys))
    requires d in n && n[d].isDir
    ensures MayPass(n, WalkTo(n, d, cs[..k]), n.Keys)
    decreases k
  {
    if k > 0 {
      FindFromSound(n[d].slots, cs[0], 0);
      var x := n[d].slots[Find(n, d, cs[0]).value].nr;
      WalkFirst(n, d, cs, k);
      if |cs| == 1 {
        assert cs[1..] == [];
      } else {
        WalkPrefix(n, x, cs[1..], k - 1);
      }
    }
  }

  // Where every directory may be passed through namei finds what the components lead to.
  lemma NameiFinds(n: Nodes, d: nat, rest: string, allowed: set<nat>, e: nat)
    requires WalkTo(n, d, Components(rest)) == Some(e) && e in n && n[e].isDir && n.Keys <= allowed
    requires d in n && n[d].isDir
    ensures NameiFrom(n, d, rest, allowed) == Some(e)
  {
    hide NameiFrom, WalkTo, Components;
    var cs := Components(rest);
    forall k | 1 <= k <= |cs| ensures MayPass(n, WalkTo(n, d, cs[..k]), allowed) {
      WalkPrefix(n, d, cs, k);
    }
    NameiIff(n, d, rest, allowed, e);
  }

  // sys_getcwd's text, given back to namei by any task, leads to the current directory.
  lemma TextLeadsBack(n: Nodes, st: seq<string>, d: nat, from: nat, allowed: set<nat>)
    requires Inv(n) && Names(n, st, d) && Clean(st) && n.Keys <= allowed
    ensures NameiFound(n, from, Text(st), allowed) == Some(d)
  {
    TextParts(st);
    hide Component, Components, NameiFrom, WalkTo, Inv;
    RootIsDir(n);
    NameiFinds(n, ROOT, Text(st)[1..], allowed, d);
  }

  lemma {:induction false} ComponentsClean(path: string)
    requires NoEos(path)
    ensures Clean(Components(path))
    decreases |path|
  {
    var c := Component(path);
    ComponentPrefix(path);
    if path != "" && |c| < |path| {
      ComponentsClean(path[|c| + 1..]);
    }
  }

  lemma {:induction false} GoAllClean(st: seq<string>, cs: seq<string>)
    requires Clean(st) && Clean(cs)
    ensures Clean(GoAll(st, cs))
    decreases |cs|
  {
    if cs != [] {
      GoAllClean(Go(st, cs[0]), cs[1..]);
    }
  }

  lemma ResolveClean(st: seq<string>, path: string)
    requires Clean(st) && NoEos(path)
    ensures Clean(Resolve(st, path))
  {
    ComponentsClean(if Absolute(path) then path[1..] else path);
    GoAllClean(if Absolute(path) then [] else st, Parts(path));
  }

  // ---------------------------------------------------------------------- runs

  // A task's current directory: the components of its text, and its inode.
  datatype Place = Place(st: seq<string>, d: nat)
  datatype World = World(n: Nodes, at: map<nat, Place>)

  // sys_chdir
  function Moved(n: Nodes, p: Place, path: string, allowed: set<nat>): Place {
    var e := NameiFound(n, p.d, path, allowed);
    if e.None? || e.value !in n || !n[e.value].isDir || e.value == p.d then p
    else Place(Resolve(p.st, path), e.value)
  }

  datatype Event =
    | Fs(op: Op)
    | Chdir(t: nat, path: string, allowed: set<nat>)
    | Fork(t: nat, child: nat)
    | Exit(t: nat)

  ghost predicate Possible(w: World, ev: Event) {
    match ev
    case Fs(op) => Enabled(w.n, op) && forall t :: t in w.at ==> Spares(w.n, op, w.at[t].d)
    case Chdir(t, path, _) => t in w.at && NoEos(path)
    case Fork(t, child) => t in w.at && child !in w.at
    case Exit(t) => t in w.at
  }

  ghost function Next(w: World, ev: Event): World
    requires Possible(w, ev)
  {
    match ev
    case Fs(op) => w.(n := Step(w.n, op))
    case Chdir(t, path, allowed) => w.(at := w.at[t := Moved(w.n, w.at[t], path, allowed)])
    case Fork(t, child) => w.(at := w.at[child := w.at[t]])
    case Exit(t) => w.(at := w.at - {t})
  }

  ghost predicate Leads(n: Nodes, p: Place) {
    Names(n, p.st, p.d) && Clean(p.st)
  }

  ghost predicate WorldInv(w: World) {
    Inv(w.n) && NamesFull(w.n) && forall t :: t in w.at ==> Leads(w.n, w.at[t])
  }

  lemma MovedLeads(n: Nodes, p: Place, path: string, allowed: set<nat>)
    requires Inv(n) && NamesFull(n) && Leads(n, p) && NoEos(path)
    ensures Leads(n, Moved(n, p, path, allowed))
  {
    hide Inv, NamesFull, Clean, Normal, Components, NameiFrom, WalkTo, GoAll;
    if Moved(n, p, path, allowed) != p {
      var e := NameiFound(n, p.d, path, allowed).value;
      var start := if Absolute(path) then ROOT else p.d;
      NameiIff(n, start, if Absolute(path) then path[1..] else path, allowed, e);
      RootNamed(n);
      WalkNames(n, if Absolute(path) then [] else p.st, start, Parts(path), e);
      ResolveClean(p.st, path);
    }
  }

  lemma {:induction false} GoAllPushes(st: seq<string>, cs: seq<string>)
    requires Normal(cs, true)
    ensures GoAll(st, cs) == st + cs
    decreases |cs|
  {
    if cs == [] {
      assert st + cs == st;
    } else {
      GoAllPushes(st + [cs[0]], cs[1..]);
      assert st + [cs[0]] + cs[1..] == st + cs;
    }
  }

  // chdir to the text of a directory leads there, and leaves its text.
  lemma MovedByText(n: Nodes, p: Place, st: seq<string>, d: nat, allowed: set<nat>)
    requires Inv(n) && Names(n, st, d) && Clean(st) && n.Keys <= allowed
    ensures Moved(n, p, Text(st), allowed) == if d == p.d then p else Place(st, d)
  {
    hide Inv, NameiFound, Text, Components;
    TextLeadsBack(n, st, d, p.d, allowed);
    TextParts(st);
    GoAllPushes([], st);
    assert [] + st == st;
  }

  // Wherever a chdir goes, a chdir to the text from before leads back.
  lemma ThereAndBack(n: Nodes, p: Place, path: string, allowed: set<nat>)
    requires Inv(n) && NamesFull(n) && Leads(n, p) && NoEos(path)
    ensures Moved(n, Moved(n, p, path, allowed), Text(p.st), n.Keys) == p
  {
    hide Inv, NamesFull, Names, Clean, NameiFound, Text;
    MovedLeads(n, p, path, allowed);
    MovedByText(n, Moved(n, p, path, allowed), p.st, p.d, n.Keys);
  }

  lemma RootNamed(n: Nodes)
    requires Inv(n)
    ensures Names(n, [], ROOT)
  {
    hide Inv;
    RootIsDir(n);
  }

  lemma NextKeeps(w: World, ev: Event)
    requires WorldInv(w) && Possible(w, ev)
    ensures WorldInv(Next(w, ev))
  {
    hide Inv, NamesFull, Names, Clean, Enabled, Spares, Moved, Step;
    match ev
    case Fs(op) =>
      EnabledCallable(w.n, op);
      StepKeeps(w.n, op);
      StepFull(w.n, op);
      forall t | t in w.at ensures Names(Step(w.n, op), w.at[t].st, w.at[t].d) {
        assert Leads(w.n, w.at[t]);
        NamesStay(w.n, op, w.at[t].st, w.at[t].d);
      }
    case Chdir(t, path, allowed) => MovedLeads(w.n, w.at[t], path, allowed);
    case Fork(t, child) => assert Leads(w.n, w.at[t]);
    case Exit(t) =>
  }

  ghost predicate PossibleRun(w: World, evs: seq<Event>)
    decreases |evs|
  {
    evs == [] || (Possible(w, evs[0]) && PossibleRun(Next(w, evs[0]), evs[1..]))
  }

  ghost function After(w: World, evs: seq<Event>): World
    requires PossibleRun(w, evs)
    decreases |evs|
  {
    if evs == [] then w else After(Next(w, evs[0]), evs[1..])
  }

  // A new device with one task, whose text is "/".
  function Boot(t: nat): World {
    World(NewDevice(), map[t := Place([], ROOT)])
  }

  lemma {:induction false} AfterKeeps(w: World, evs: seq<Event>)
    requires WorldInv(w) && PossibleRun(w, evs)
    ensures WorldInv(After(w, evs))
    decreases |evs|
  {
    hide WorldInv, Possible, Next;
    if evs != [] {
      NextKeeps(w, evs[0]);
      AfterKeeps(Next(w, evs[0]), evs[1..]);
    }
  }

  lemma BootInv(t: nat)
    ensures WorldInv(Boot(t))
  {
    hide Inv, Names;
    NewDeviceGood();
    RootNamed(NewDevice());
  }

  // Over every run of directory calls, chdir, fork and exit by any tasks each task's text has
  // no ".", no ".." and nothing empty in it, and leads to the inode the task is in.
  lemma RunLeadsBack(t0: nat, evs: seq<Event>, t: nat, from: nat, allowed: set<nat>)
    requires PossibleRun(Boot(t0), evs)
    ensures var w := After(Boot(t0), evs);
      t in w.at && w.n.Keys <= allowed ==>
        Normal(w.at[t].st, false) && NameiFound(w.n, from, Text(w.at[t].st), allowed) == Some(w.at[t].d)
  {
    hide NameiFound, Inv, NamesFull, Boot;
    BootInv(t0);
    AfterKeeps(Boot(t0), evs);
    var w := After(Boot(t0), evs);
    if t in w.at && w.n.Keys <= allowed {
      assert Leads(w.n, w.at[t]);
      TextLeadsBack(w.n, w.at[t].st, w.at[t].d, from, allowed);
    }
  }

  // ------------------------------------------------------------- in source form

  // strrsep(path + from): the last separator there.
  method StrRSepFrom(path: string, from: nat) returns (r: Option<nat>)
    requires from <= |path|
    ensures r.None? ==> Plain(path[from..])
    ensures r.Some? ==> from <= r.value < |path| && IsSeparator(path[r.value]) && Plain(path[r.value + 1..])
  {
    r := None;
    var i := from;
    while i < |path|
      invariant from <= i <= |path|
      invariant r.Some? ==> from <= r.value < i && IsSeparator(path[r.value])
      invariant forall k :: (if r.Some? then r.value + 1 else from) <= k < i ==> !IsSeparator(path[k])
    {
      if IsSeparator(path[i]) {
        r := Some(i);
      }
      i := i + 1;
    }
  }

  // A component with a separator behind it: the walk goes on behind that.
  lemma OneStep(n: Nodes, d: nat, path: string, left: nat, right: nat, allowed: set<nat>)
    requires d in n && n[d].isDir && left < right <= |path| && IsSeparator(path[right - 1])
    ensures var c := Component(path[left..]); left + |c| < right && IsSeparator(path[left + |c|])
    ensures Find(n, d, Component(path[left..])).None? ==> NameiFrom(n, d, path[left..], allowed) == None
    ensures Find(n, d, Component(path[left..])).Some? ==>
      var c := Component(path[left..]);
      var i := Find(n, d, c).value;
      i < |n[d].slots| && n[d].slots[i].name == c && NameiFrom(n, d, path[left..], allowed)
      == var x := n[d].slots[i].nr;
         if x !in n || !n[x].isDir || x !in allowed then None else NameiFrom(n, x, path[left + |c| + 1..], allowed)
  {
    var rest := path[left..];
    var c := Component(rest);
    ComponentPrefix(rest);
    assert forall k :: 0 <= k < |c| ==> !IsSeparator(rest[k]) by { assert c == rest[..|c|]; }
    assert rest[right - 1 - left] == path[right - 1];
    assert |c| < |rest| && rest[|c|] == path[left + |c|];
    assert rest[|c| + 1..] == path[left + |c| + 1..];
    FindFromSound(n[d].slots, c, 0);
  }

  class TaskDirectory {
    const volume: Volume
    const pwd: array<char>
    var ipwd: nat
    ghost var st: seq<string>

    // The directories are as every run leaves them, and the buffer holds the text.
    ghost predicate Valid()
      reads this, volume, pwd
    {
      && Inv(volume.nodes) && NamesFull(volume.nodes) && PlainNames(volume.nodes)
      && Leads(volume.nodes, Place(st, ipwd)) && At(pwd[..], st, |Text(st)|)
    }

    // The first task that enters user mode: at the root, with a page for the text.
    constructor (volume: Volume)
      requires Inv(volume.nodes) && NamesFull(volume.nodes) && PlainNames(volume.nodes)
      ensures Valid() && this.volume == volume && fresh(pwd) && pwd.Length == 4096 && Place(st, ipwd) == Place([], ROOT)
    {
      hide Inv, NamesFull, PlainNames, Names;
      this.volume := volume;
      pwd := new char[4096](i => if i == 0 then '/' else EOS);
      ipwd := ROOT;
      st := [];
      new;
      RootNamed(volume.nodes);
      assert pwd[..][..1] == Text([]);
    }

    // The directory that path's last component is to be looked up in, and where that begins.
    method Named(path: string, allowed: set<nat>) returns (dir: Option<nat>, next: nat)
      requires Valid()
      ensures next <= |path|
      ensures dir.Some? ==> Plain(path[next..]) && dir.value in volume.nodes && volume.nodes[dir.value].isDir
      ensures NameiFound(volume.nodes, ipwd, path, allowed)
           == if dir.None? then None else NameiFrom(volume.nodes, dir.value, path[next..], allowed)
    {
      hide Inv, PlainNames, NamesFull, NameiFrom, At, Clean, Component;
      RootIsDir(volume.nodes);
      var inode;
      var left := 0;
      if path != "" && IsSeparator(path[0]) {
        inode := ROOT;
        left := 1;
      } else if path != "" {
        inode := ipwd;
        assert path[0..] == path;
      } else {
        return None, 0;
      }
      ghost var start := left;
      next := left;
      if left == |path| {
        return Some(inode), next;
      }
      var sep := StrRSepFrom(path, left);
      if sep.None? {
        return Some(inode), next;
      }
      var right := sep.value + 1;
      while true
        invariant left < right <= |path| && IsSeparator(path[right - 1]) && Plain(path[right..])
        invariant inode in volume.nodes && volume.nodes[inode].isDir
        invariant NameiFrom(volume.nodes, inode, path[left..], allowed)
               == NameiFound(volume.nodes, ipwd, path, allowed)
        decreases right - left
      {
        OneStep(volume.nodes, inode, path, left, right, allowed);
        var found := volume.FindEntry(inode, path[left..]);
        if found.None? {
          return None, left;
        }
        FindFromSound(volume.nodes[inode].slots, Component(path[left..]), 0);
        FoundInUse(volume.nodes, inode, Component(path[left..]));
        next := left + |volume.nodes[inode].slots[found.value].name| + 1;
        inode := volume.nodes[inode].slots[found.value].nr;
        if !volume.nodes[inode].isDir || inode !in allowed {
          return None, left;
        }
        if right == next {
          return Some(inode), next;
        }
        left := next;
      }
    }

    method Namei(path: string, allowed: set<nat>) returns (found: Option<nat>)
      requires Valid()
      ensures found == NameiFound(volume.nodes, ipwd, path, allowed)
      ensures found.Some? ==> found.value in volume.nodes
    {
      hide Inv, PlainNames, NamesFull, At, Clean;
      var dir, next := Named(path, allowed);
      if dir.None? {
        return None;
      }
      if next == |path| {
        return dir;
      }
      PlainComponent(path[next..]);
      var entry := volume.FindEntry(dir.value, path[next..]);
      if entry.None? {
        return None;
      }
      FindFromSound(volume.nodes[dir.value].slots, path[next..], 0);
      FoundInUse(volume.nodes, dir.value, path[next..]);
      found := Some(volume.nodes[dir.value].slots[entry.value].nr);
    }

    // sys_chdir; path holds p.
    method Chdir(path: array<char>, ghost p: string, allowed: set<nat>) returns (ok: bool)
      requires Valid() && path != pwd && Ahead(path[..], p, 0) && |Text(st)| + |p| + 2 <= pwd.Length
      modifies `ipwd, `st, pwd, path
      ensures Valid()
      ensures Place(st, ipwd) == Moved(volume.nodes, old(Place(st, ipwd)), p, allowed)
      ensures var e := NameiFound(volume.nodes, old(ipwd), p, allowed);
        && (ok <==> e.Some? && e.value in volume.nodes && volume.nodes[e.value].isDir && e.value != old(ipwd))
        && (ok ==> e == Some(ipwd) && st == Resolve(old(st), p))
        && (!ok ==> Place(st, ipwd) == old(Place(st, ipwd)) && pwd[..] == old(pwd[..]))
    {
      hide Inv, PlainNames, NamesFull, NameiFrom, At, Clean, Names, Text;
      assert path[0..|p|] == p;
      var len := StrLen(path, 0, p);
      var inode := Namei(path[..len], allowed);
      if inode.None? {
        return false;
      }
      if !volume.nodes[inode.value].isDir || inode.value == ipwd {
        return false;
      }
      MovedLeads(volume.nodes, Place(st, ipwd), p, allowed);
      AbsPath(pwd, path, st, p);
      st := Resolve(st, p);
      ipwd := inode.value;
      ok := true;
    }
  }
}
