// What the directory calls of src/fs/namei.c do to names: a map from directory and name to inode.
// Every run of calls does to the slots what the same run does to that map.
module Namespace {
  import opened Directories
  import opened Wrappers

  // names is what can be looked up; isDir has the inodes in use.
  datatype Space = Space(names: map<(nat, string), nat>, isDir: map<nat, bool>)

  predicate Named(n: Nodes, k: (nat, string)) {
    k.0 in n && Find(n, k.0, k.1).Some?
  }

  // What the entry found by name k names.
  function Target(n: Nodes, k: (nat, string)): nat
    requires Named(n, k)
  {
    FindFromSound(n[k.0].slots, k.1, 0);
    n[k.0].slots[Find(n, k.0, k.1).value].nr
  }

  ghost function NamesOf(n: Nodes): (r: map<(nat, string), nat>)
    ensures forall k :: k in r <==> Named(n, k)
    ensures forall k :: k in r ==> Named(n, k) && r[k] == Target(n, k)
  {
    var keys := set d, i | d in n && 0 <= i < |n[d].slots| :: (d, n[d].slots[i].name);
    forall k | Named(n, k) ensures k in keys {
      FindFromSound(n[k.0].slots, k.1, 0);
      assert k == (k.0, n[k.0].slots[Find(n, k.0, k.1).value].name);
    }
    map k | k in keys && Named(n, k) :: Target(n, k)
  }

  ghost function DirsOf(n: Nodes): (r: map<nat, bool>)
    ensures r.Keys == n.Keys && forall c :: c in r ==> r[c] == n[c].isDir
  {
    map c | c in n :: n[c].isDir
  }

  ghost function SpaceOf(n: Nodes): Space {
    Space(NamesOf(n), DirsOf(n))
  }

  // ------------------------------------------------------- the simple machine

  function Bound(s: Space, d: nat, name: string, c: nat): Space {
    s.(names := s.names[(d, Cut(name)) := c])
  }

  predicate Fresh(s: Space, d: nat, name: string, allowed: bool) {
    allowed && name != "" && (d, name) !in s.names
  }

  // Directory c holds no names but "." and "..".
  predicate Bare(s: Space, c: nat) {
    forall k :: k in s.names && k.0 == c ==> k.1 == "." || k.1 == ".."
  }

  predicate CanRmdir(s: Space, d: nat, name: string, busy: bool, allowed: bool) {
    allowed && name != "" && (d, name) in s.names &&
    var c := s.names[(d, name)];
    c != d && c in s.isDir && s.isDir[c] && !busy && Bare(s, c)
  }

  predicate CanUnlink(s: Space, d: nat, name: string, allowed: bool) {
    allowed && name != "" && (d, name) in s.names && s.names[(d, name)] in s.isDir && !s.isDir[s.names[(d, name)]]
  }

  predicate CanLink(s: Space, d: nat, name: string, c: nat, allowed: bool) {
    c in s.isDir && !s.isDir[c] && Fresh(s, d, name, allowed)
  }

  predicate Succeeds(s: Space, op: Op) {
    match op
    case DoMkdir(d, name, _, allowed) => Fresh(s, d, name, allowed)
    case DoRmdir(d, name, busy, allowed) => CanRmdir(s, d, name, busy, allowed)
    case DoLink(d, name, c, allowed) => CanLink(s, d, name, c, allowed)
    case DoUnlink(d, name, allowed) => CanUnlink(s, d, name, allowed)
    case DoCreate(d, name, _, allowed) => Fresh(s, d, name, allowed)
  }

  // A call that does not succeed changes nothing.
  ghost function SpaceStep(s: Space, op: Op): Space {
    if !Succeeds(s, op) then s
    else
      match op
      case DoMkdir(d, name, c, _) =>
        var m := Bound(s, d, name, c);
        Space(m.names[(c, ".") := c][(c, "..") := d], m.isDir[c := true])
      case DoRmdir(d, name, _, _) =>
        var c := s.names[(d, name)];
        Space(s.names - {(d, name), (c, "."), (c, "..")}, s.isDir - {c})
      case DoLink(d, name, c, _) => Bound(s, d, name, c)
      case DoUnlink(d, name, _) =>
        var c, names := s.names[(d, name)], s.names - {(d, name)};
        Space(names, if c in names.Values then s.isDir else s.isDir - {c})
      case DoCreate(d, name, c, _) =>
        var m := Bound(s, d, name, c);
        Space(m.names, m.isDir[c := false])
  }

  // ------------------------------------------------------------ one slot changes

  lemma FoundSame(a: seq<Slot>, b: seq<Slot>, i: nat, x: string)
    requires UniqueNames(a) && UniqueNames(b)
    requires i <= |a| && |b| == (if i < |a| then |a| else |a| + 1)
    requires forall j :: 0 <= j < |a| && j != i ==> b[j] == a[j]
    requires (i < |a| && a[i].nr != 0 ==> a[i].name != x) && (i < |b| && b[i].nr != 0 ==> b[i].name != x)
    ensures FindFrom(b, x, 0) == FindFrom(a, x, 0)
  {
    FindFromSound(a, x, 0);
    FindFromSound(b, x, 0);
    hide FindFrom;
  }

  lemma AddedNames(n: Nodes, d: nat, name: string, c: nat)
    requires d in n && c != 0 && UniqueNames(n[d].slots) && Find(n, d, Cut(name)).None?
    ensures NamesOf(Added(n, d, name, c)) == NamesOf(n)[(d, Cut(name)) := c]
  {
    var m, i := Added(n, d, name, c), FreeSlot(n, d);
    AddedNamesIff(n, d, name, c);
    hide FindFrom, Cut, FreeFrom;
    assert m[d].slots[i] == Slot(c, Cut(name));
    FoundAt(m[d].slots, i);
    forall k: (nat, string)
      ensures Named(m, k) <==> Named(n, k) || k == (d, Cut(name))
      ensures Named(m, k) ==> Target(m, k) == if k == (d, Cut(name)) then c else Target(n, k)
    {
      if k.0 == d && k.1 != Cut(name) {
        FoundSame(n[d].slots, m[d].slots, i, k.1);
        FindFromSound(n[d].slots, k.1, 0);
      }
    }
    hide Named, Target, Added;
  }

  lemma RemovedNames(n: Nodes, d: nat, i: nat)
    requires d in n && i < |n[d].slots| && n[d].slots[i].nr != 0 && UniqueNames(n[d].slots)
    ensures NamesOf(Removed(n, d, i)) == NamesOf(n) - {(d, n[d].slots[i].name)}
  {
    var m, x := Removed(n, d, i), n[d].slots[i].name;
    hide FindFrom;
    FindFromSound(m[d].slots, x, 0);
    forall k: (nat, string)
      ensures Named(m, k) <==> Named(n, k) && k != (d, x)
      ensures Named(m, k) ==> Target(m, k) == Target(n, k)
    {
      assert k == (k.0, k.1);
      if k.0 == d && k.1 != x {
        FoundSame(n[d].slots, m[d].slots, i, k.1);
        FindFromSound(n[d].slots, k.1, 0);
      }
    }
    hide Named, Target, Removed;
  }

  // Link counts are no names.
  lemma RelinkedNames(n: Nodes, c: nat, nlinks: nat)
    requires c in n
    ensures NamesOf(Relinked(n, c, nlinks)) == NamesOf(n)
  {
    var m := Relinked(n, c, nlinks);
    forall k: (nat, string)
      ensures Named(m, k) <==> Named(n, k)
      ensures Named(m, k) ==> Target(m, k) == Target(n, k)
    {}
    hide Named, Target, Relinked;
  }

  // An inode without names in it comes or goes.
  lemma FileNames(n: Nodes, c: nat, nlinks: nat)
    requires c !in n
    ensures NamesOf(n[c := Node(false, nlinks, [])]) == NamesOf(n)
  {
    var m := n[c := Node(false, nlinks, [])];
    forall k: (nat, string)
      ensures Named(m, k) <==> Named(n, k)
      ensures Named(m, k) ==> Target(m, k) == Target(n, k)
    {}
    hide Named, Target;
  }

  lemma GoneFileNames(n: Nodes, c: nat)
    requires c in n && n[c].slots == []
    ensures NamesOf(n - {c}) == NamesOf(n)
  {
    var m := n - {c};
    forall k: (nat, string)
      ensures Named(m, k) <==> Named(n, k)
      ensures Named(m, k) ==> Target(m, k) == Target(n, k)
    {}
    hide Named, Target;
  }

  lemma NewDirFinds(c: nat, d: nat, x: string)
    requires c != 0 && d != 0
    ensures FindFrom(NewDir(c, d).slots, x, 0) == if x == "." then Some(0) else if x == ".." then Some(1) else None
  {
    FindFromSound(NewDir(c, d).slots, x, 0);
  }

  lemma NewDirNames(n: Nodes, c: nat, d: nat)
    requires c !in n && c != 0 && d != 0
    ensures NamesOf(n[c := NewDir(c, d)]) == NamesOf(n)[(c, ".") := c][(c, "..") := d]
  {
    var m := n[c := NewDir(c, d)];
    hide FindFrom;
    forall k: (nat, string)
      ensures Named(m, k) <==> Named(n, k) || k == (c, ".") || k == (c, "..")
      ensures Named(m, k) ==> Target(m, k) == if k == (c, "..") then d else if k == (c, ".") then c else Target(n, k)
    {
      assert k == (k.0, k.1);
      NewDirFinds(c, d, k.1);
    }
    hide Named, Target;
  }

  lemma GoneDirNames(n: Nodes, c: nat)
    requires c in n && DirShape(c, n[c].slots) && c != 0 && forall i :: 2 <= i < |n[c].slots| ==> n[c].slots[i].nr == 0
    ensures NamesOf(n - {c}) == NamesOf(n) - {(c, "."), (c, "..")}
  {
    var m := n - {c};
    hide FindFrom;
    forall k: (nat, string)
      ensures Named(m, k) <==> Named(n, k) && k != (c, ".") && k != (c, "..")
      ensures Named(m, k) ==> Target(m, k) == Target(n, k)
    {
      assert k == (k.0, k.1);
      if k.0 == c {
        FindFromSound(n[c].slots, k.1, 0);
      }
    }
    hide Named, Target;
  }

  // ------------------------------------------------------------------- the calls

  // A name is there just when some entry in use bears it: no entry is hidden by another.
  lemma ValuesAreEntries(n: Nodes, c: nat)
    requires Tidy(n)
    ensures c in NamesOf(n).Values <==> EntriesOf(GraphOf(n).uses, c) != {}
  {
    var names, entries := NamesOf(n), EntriesOf(GraphOf(n).uses, c);
    hide FindFrom, NamesOf;
    if c in names.Values {
      var k :| k in names && names[k] == c;
      FindFromSound(n[k.0].slots, k.1, 0);
      assert InUse(n, (k.0, Find(n, k.0, k.1).value)) by { hide Tidy; TargetInUse(n, k); }
      assert (k.0, Find(n, k.0, k.1).value) in entries;
    }
    if e :| e in entries {
      assert InUse(n, e) && n[e.0].slots[e.1].nr == c;
      FoundAt(n[e.0].slots, e.1);
      assert (e.0, n[e.0].slots[e.1].name) in names && names[(e.0, n[e.0].slots[e.1].name)] == c;
    }
  }

  lemma TargetInUse(n: Nodes, k: (nat, string))
    requires Named(n, k)
    ensures InUse(n, (k.0, Find(n, k.0, k.1).value))
    ensures n[k.0].slots[Find(n, k.0, k.1).value].nr == Target(n, k)
  {
    FindFromSound(n[k.0].slots, k.1, 0);
  }

  lemma UsedIsNamed(n: Nodes, c: nat, i: nat)
    requires Inv(n) && c in n && n[c].isDir && 2 <= i < |n[c].slots| && n[c].slots[i].nr != 0
    ensures Named(n, (c, n[c].slots[i].name)) && n[c].slots[i].name != "." && n[c].slots[i].name != ".."
  {
    hide Good, GraphOf;
    DotsFound(n, c, ".");
    FoundAt(n[c].slots, i);
  }

  // is_empty, said of names.
  lemma BareIsEmpty(n: Nodes, c: nat)
    requires Inv(n) && c in n && n[c].isDir
    ensures Bare(SpaceOf(n), c) <==> CountInUse(n[c].slots) == 2
  {
    hide Inv, CountInUse, FindFrom;
    EmptyDirSlots(n, c);
    if Bare(SpaceOf(n), c) {
      forall i | 2 <= i < |n[c].slots| ensures n[c].slots[i].nr == 0 {
        if n[c].slots[i].nr != 0 {
          UsedIsNamed(n, c, i);
        }
      }
    }
    if CountInUse(n[c].slots) == 2 {
      forall k | k in NamesOf(n) && k.0 == c ensures k.1 == "." || k.1 == ".." {
        FindFromSound(n[c].slots, k.1, 0);
        BareNames(n, c, k.1);
      }
    }
  }

  lemma BareNames(n: Nodes, c: nat, x: string)
    requires Inv(n) && c in n && n[c].isDir && Find(n, c, x).Some? && Find(n, c, x).value < 2
    ensures x == "." || x == ".."
  {
    DotsFound(n, c, x);
  }

  lemma TidyAt(n: Nodes, d: nat)
    requires Inv(n) && d in n
    ensures d != 0 && UniqueNames(n[d].slots) && if n[d].isDir then DirShape(d, n[d].slots) else n[d].slots == []
  {
    hide GraphOf, Good;
  }

  lemma MkdirNames(n: Nodes, d: nat, name: string, c: nat, allowed: bool)
    requires Inv(n) && Enabled(n, DoMkdir(d, name, c, allowed))
    ensures SpaceOf(Mkdir(n, d, name, c, allowed)) == SpaceStep(SpaceOf(n), DoMkdir(d, name, c, allowed))
  {
    hide Inv, NamesOf, FreeSlot, Cut, UniqueNames;
    TidyAt(n, d);
    if allowed && name != "" && Find(n, d, name).None? {
      var m := Added(n, d, name, c);
      AddedNames(n, d, name, c);
      RelinkedNames(m, d, Inc(n[d].nlinks));
      NewDirNames(Relinked(m, d, Inc(n[d].nlinks)), c, d);
    }
  }

  lemma CreateNames(n: Nodes, d: nat, name: string, c: nat, allowed: bool)
    requires Inv(n) && Enabled(n, DoCreate(d, name, c, allowed))
    ensures SpaceOf(Create(n, d, name, c, allowed)) == SpaceStep(SpaceOf(n), DoCreate(d, name, c, allowed))
  {
    hide Inv, NamesOf, FreeSlot, Cut, UniqueNames, FindFrom, Written;
    TidyAt(n, d);
    if allowed && name != "" && Find(n, d, name).None? {
      AddedNames(n, d, name, c);
      FileNames(Added(n, d, name, c), c, 1);
    }
  }

  lemma LinkNames(n: Nodes, d: nat, name: string, c: nat, allowed: bool)
    requires Inv(n) && Enabled(n, DoLink(d, name, c, allowed))
    ensures SpaceOf(Link(n, d, name, c, allowed)) == SpaceStep(SpaceOf(n), DoLink(d, name, c, allowed))
  {
    hide Inv, NamesOf, FreeSlot, Cut, UniqueNames;
    TidyAt(n, d);
    TidyAt(n, c);
    if allowed && name != "" && !n[c].isDir && Find(n, d, name).None? {
      AddedNames(n, d, name, c);
      RelinkedNames(Added(n, d, name, c), c, Inc(n[c].nlinks));
    }
  }

  // After an unlink the inode is there just when some name for it is.
  lemma LeftByName(n: Nodes, c: nat)
    requires Inv(n) && (c in n ==> !n[c].isDir && n[c].nlinks != 0)
    ensures c in n <==> c in NamesOf(n).Values
  {
    hide NamesOf, Linked, Closed, Placed, Rooted, Dotted, UniqueNames;
    ValuesAreEntries(n, c);
    NodeInGraph(n, c);
    if c !in n {
      Unnamed(GraphOf(n), c);
    }
  }

  lemma UnlinkNames(n: Nodes, d: nat, name: string, allowed: bool)
    requires Inv(n) && Enabled(n, DoUnlink(d, name, allowed))
    ensures SpaceOf(Unlink(n, d, name, allowed)) == SpaceStep(SpaceOf(n), DoUnlink(d, name, allowed))
  {
    hide Inv, NamesOf, UniqueNames, FindFrom;
    TidyAt(n, d);
    if CanUnlink(SpaceOf(n), d, name, allowed) {
      FindFromSound(n[d].slots, name, 0);
      var i := Find(n, d, name).value;
      var c := n[d].slots[i].nr;
      TidyAt(n, c);
      RemovedNames(n, d, i);
      RelinkedNames(Removed(n, d, i), c, Dec(n[c].nlinks));
      var m := Relinked(Removed(n, d, i), c, Dec(n[c].nlinks));
      assert m[c].slots == [];
      GoneFileNames(m, c);
      UnlinkKeeps(n, d, name, allowed);
      LeftByName(Unlink(n, d, name, allowed), c);
    }
  }

  lemma RmdirNames(n: Nodes, d: nat, name: string, busy: bool, allowed: bool)
    requires Inv(n) && Enabled(n, DoRmdir(d, name, busy, allowed))
    ensures SpaceOf(Rmdir(n, d, name, busy, allowed)) == SpaceStep(SpaceOf(n), DoRmdir(d, name, busy, allowed))
  {
    hide Inv, NamesOf, UniqueNames, FindFrom, CountInUse, Bare;
    TidyAt(n, d);
    if allowed && name != "" && Find(n, d, name).Some? {
      FindFromSound(n[d].slots, name, 0);
      var i := Find(n, d, name).value;
      var c := n[d].slots[i].nr;
      if c in n && n[c].isDir {
        BareIsEmpty(n, c);
        if c != d && !busy && CountInUse(n[c].slots) == 2 {
          RmdirTakes(n, d, i, c);
        }
      }
    }
  }

  lemma RmdirTakes(n: Nodes, d: nat, i: nat, c: nat)
    requires Inv(n) && d in n && i < |n[d].slots| && n[d].slots[i].nr == c && c in n && n[c].isDir && c != d
    requires CountInUse(n[c].slots) == 2
    ensures NamesOf(Relinked(Removed(n, d, i), d, Dec(n[d].nlinks)) - {c})
         == NamesOf(n) - {(d, n[d].slots[i].name), (c, "."), (c, "..")}
  {
    hide Inv, NamesOf, UniqueNames, CountInUse;
    TidyAt(n, d);
    TidyAt(n, c);
    EmptyDirSlots(n, c);
    RemovedNames(n, d, i);
    RelinkedNames(Removed(n, d, i), d, Dec(n[d].nlinks));
    GoneDirNames(Relinked(Removed(n, d, i), d, Dec(n[d].nlinks)), c);
  }

  lemma EmptyDirSlots(n: Nodes, c: nat)
    requires Inv(n) && c in n && n[c].isDir
    ensures CountInUse(n[c].slots) == 2 <==> forall i :: 2 <= i < |n[c].slots| ==> n[c].slots[i].nr == 0
  {
    EmptyDir(n, c);
  }

  lemma StepIsNamed(n: Nodes, op: Op)
    requires Inv(n) && Enabled(n, op)
    ensures SpaceOf(Step(n, op)) == SpaceStep(SpaceOf(n), op)
  {
    hide Inv, SpaceOf, SpaceStep, Mkdir, Rmdir, Link, Unlink, Create;
    match op
    case DoMkdir(d, name, c, allowed) => MkdirNames(n, d, name, c, allowed);
    case DoRmdir(d, name, busy, allowed) => RmdirNames(n, d, name, busy, allowed);
    case DoLink(d, name, c, allowed) => LinkNames(n, d, name, c, allowed);
    case DoUnlink(d, name, allowed) => UnlinkNames(n, d, name, allowed);
    case DoCreate(d, name, c, allowed) => CreateNames(n, d, name, c, allowed);
  }

  ghost function SpaceRun(s: Space, ops: seq<Op>): Space
    decreases |ops|
  {
    if ops == [] then s else SpaceRun(SpaceStep(s, ops[0]), ops[1..])
  }

  // Over any run of calls every name finds what the same run on the map binds it to, and the
  // inodes in use are the ones it has.
  lemma {:induction false} RunIsNamed(n: Nodes, ops: seq<Op>)
    requires Inv(n) && EnabledRun(n, ops)
    ensures SpaceOf(Run(n, ops)) == SpaceRun(SpaceOf(n), ops)
    decreases |ops|
  {
    hide Inv, Enabled, Step, SpaceOf, SpaceStep;
    if ops != [] {
      EnabledCallable(n, ops[0]);
      StepKeeps(n, ops[0]);
      StepIsNamed(n, ops[0]);
      RunIsNamed(Step(n, ops[0]), ops[1..]);
    }
  }
}
