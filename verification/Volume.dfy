// src/fs/namei.c in its own form: loops over directory slots and assignments to
// entries and link counts. The caller has resolved the parent directory d; name is
// what is left of the path, its last component.
module Volume {
  import opened Directories
  import opened Namespace
  import opened Wrappers

  predicate IsSeparator(c: char) {
    c == '/' || c == '\\'
  }

  predicate Plain(s: string) {
    forall i :: 0 <= i < |s| ==> !IsSeparator(s[i])
  }

  // The path up to its first separator.
  function Component(path: string): (c: string)
    ensures Plain(c)
  {
    if path == "" || IsSeparator(path[0]) then "" else [path[0]] + Component(path[1..])
  }

  lemma {:induction false} ComponentPrefix(path: string)
    ensures Component(path) <= path
    ensures |Component(path)| < |path| ==> IsSeparator(path[|Component(path)|])
  {
    if path != "" && !IsSeparator(path[0]) {
      ComponentPrefix(path[1..]);
    }
  }

  lemma PlainComponent(path: string)
    requires Plain(path)
    ensures Component(path) == path
  {
    ComponentPrefix(path);
  }

  // What match_name promises: the entry is the path's first component, and the rest
  // begins behind the separator.
  method MatchName(path: string, entry: string) returns (next: Option<nat>)
    requires Plain(entry)
    ensures next.Some? <==> entry == Component(path)
    ensures next.Some? ==> next.value <= |path| && next.value == if |entry| < |path| then |entry| + 1 else |entry|
  {
    ComponentPrefix(path);
    var i := 0;
    while i < |path| && i < |entry| && path[i] == entry[i]
      invariant i <= |path| && i <= |entry| && path[..i] == entry[..i]
    {
      i := i + 1;
    }
    assert entry == Component(path) ==> i == |entry| && path[..i] == entry;
    if i < |entry| {
      return None;
    }
    assert entry <= path;
    if i < |path| && !IsSeparator(path[i]) {
      return None;
    }
    FirstIsComponent(path, i);
    next := Some(if i < |path| then i + 1 else i);
  }

  lemma {:induction false} FirstIsComponent(path: string, i: nat)
    requires i <= |path| && Plain(path[..i]) && (i < |path| ==> IsSeparator(path[i]))
    ensures Component(path) == path[..i]
  {
    if i > 0 {
      assert path[0] == path[..i][0];
      assert path[1..][..i - 1] == path[..i][1..];
      FirstIsComponent(path[1..], i - 1);
    }
  }

  // Every name in use was stored by add_entry, which refuses separators.
  ghost predicate PlainNames(n: Nodes) {
    forall d, i :: d in n && 0 <= i < |n[d].slots| ==> Plain(n[d].slots[i].name)
  }

  class Volume {
    var nodes: Nodes

    constructor ()
      ensures nodes == NewDevice()
    {
      nodes := NewDevice();
    }

    method FindEntry(d: nat, path: string) returns (found: Option<nat>)
      requires d in nodes && PlainNames(nodes)
      ensures found == Find(nodes, d, Component(path))
    {
      var i := 0;
      while i < |nodes[d].slots|
        invariant i <= |nodes[d].slots|
        invariant Find(nodes, d, Component(path)) == FindFrom(nodes[d].slots, Component(path), i)
      {
        var next := MatchName(path, nodes[d].slots[i].name);
        if next.Some? && nodes[d].slots[i].nr != 0 {
          return Some(i);
        }
        i := i + 1;
      }
      found := None;
    }

    // A slot for a name that is not there, cut to what fits: its nr stays 0 until the caller sets it.
    method AddEntry(d: nat, name: string) returns (index: nat)
      requires d in nodes && PlainNames(nodes) && Plain(name) && Find(nodes, d, name).None?
      modifies this
      ensures index == FreeFrom(old(nodes)[d].slots, 0)
      ensures nodes == Added(old(nodes), d, name, 0) && d in nodes && index < |nodes[d].slots|
    {
      PlainComponent(name);
      var found := FindEntry(d, name);
      assert found.None?;
      index := 0;
      while true
        invariant nodes == old(nodes) && index <= |nodes[d].slots|
        invariant FreeFrom(nodes[d].slots, 0) == FreeFrom(nodes[d].slots, index)
        decreases |nodes[d].slots| - index
      {
        if index == |nodes[d].slots| {
          nodes := nodes[d := nodes[d].(slots := nodes[d].slots + [Slot(0, "")])];
        }
        if nodes[d].slots[index].nr != 0 {
          index := index + 1;
          continue;
        }
        nodes := nodes[d := nodes[d].(slots := nodes[d].slots[index := Slot(0, Cut(name))])];
        assert nodes[d].slots == Written(old(nodes)[d].slots, index, Slot(0, Cut(name)));
        return;
      }
    }

    // entry->nr = c
    method SetNr(d: nat, index: nat, c: nat)
      requires d in nodes && index < |nodes[d].slots|
      modifies this
      ensures var slots := old(nodes)[d].slots;
        nodes == old(nodes)[d := old(nodes)[d].(slots := slots[index := slots[index].(nr := c)])]
    {
      nodes := nodes[d := nodes[d].(slots := nodes[d].slots[index := nodes[d].slots[index].(nr := c)])];
    }

    // add_entry and the assignment behind it.
    method Enter(d: nat, name: string, c: nat)
      requires d in nodes && PlainNames(nodes) && Plain(name) && Find(nodes, d, name).None?
      modifies this
      ensures nodes == Added(old(nodes), d, name, c)
    {
      var index := AddEntry(d, name);
      SetNr(d, index, c);
      assert nodes[d].slots == Written(old(nodes)[d].slots, index, Slot(c, Cut(name)));
    }

    // StepKeeps carries the invariant over each call.
    method Mkdir(d: nat, name: string, c: nat, allowed: bool) returns (ok: bool)
      requires d in nodes && c !in nodes && PlainNames(nodes) && Plain(name)
      modifies this
      ensures nodes == Directories.Mkdir(old(nodes), d, name, c, allowed)
      ensures ok <==> Fresh(SpaceOf(old(nodes)), d, name, allowed)
      ensures !ok ==> nodes == old(nodes)
    {
      PlainComponent(name);
      if name == "" || !allowed {
        return false;
      }
      var found := FindEntry(d, name);
      if found.Some? {
        return false;
      }
      Enter(d, name, c);
      nodes := nodes[d := nodes[d].(nlinks := Inc(nodes[d].nlinks))];
      nodes := nodes[c := Node(true, 2, [Slot(c, "."), Slot(d, "..")])];
      ok := true;
    }

    method Create(d: nat, name: string, c: nat, allowed: bool) returns (ok: bool)
      requires d in nodes && c !in nodes && PlainNames(nodes) && Plain(name)
      modifies this
      ensures nodes == Directories.Create(old(nodes), d, name, c, allowed)
      ensures ok <==> Fresh(SpaceOf(old(nodes)), d, name, allowed)
      ensures !ok ==> nodes == old(nodes)
    {
      PlainComponent(name);
      if name == "" {
        return false;
      }
      var found := FindEntry(d, name);
      if found.Some? || !allowed {
        return false;
      }
      Enter(d, name, c);
      nodes := nodes[c := Node(false, 1, [])];
      ok := true;
    }

    method Link(d: nat, name: string, c: nat, allowed: bool) returns (ok: bool)
      requires d in nodes && c in nodes && PlainNames(nodes) && Plain(name)
      modifies this
      ensures nodes == Directories.Link(old(nodes), d, name, c, allowed)
      ensures ok <==> CanLink(SpaceOf(old(nodes)), d, name, c, allowed)
      ensures !ok ==> nodes == old(nodes)
    {
      PlainComponent(name);
      if nodes[c].isDir || name == "" || !allowed {
        return false;
      }
      var found := FindEntry(d, name);
      if found.Some? {
        return false;
      }
      Enter(d, name, c);
      nodes := nodes[c := nodes[c].(nlinks := Inc(nodes[c].nlinks))];
      ok := true;
    }

    method Unlink(d: nat, name: string, allowed: bool) returns (ok: bool)
      requires Inv(nodes) && d in nodes && nodes[d].isDir && PlainNames(nodes) && Plain(name)
      modifies this
      ensures nodes == Directories.Unlink(old(nodes), d, name, allowed)
      ensures ok <==> CanUnlink(SpaceOf(old(nodes)), d, name, allowed)
      ensures !ok ==> nodes == old(nodes)
    {
      hide Inv;
      PlainComponent(name);
      if name == "" || !allowed {
        return false;
      }
      var found := FindEntry(d, name);
      if found.None? {
        return false;
      }
      FindFromSound(nodes[d].slots, name, 0);
      FoundInUse(nodes, d, name);
      var c := nodes[d].slots[found.value].nr;
      if nodes[c].isDir {
        return false;
      }
      SetNr(d, found.value, 0);
      nodes := nodes[c := nodes[c].(nlinks := Dec(nodes[c].nlinks))];
      if nodes[c].nlinks == 0 {
        nodes := nodes - {c};
      }
      assert d != c && nodes[d].slots[found.value].nr == 0;
      ok := true;
    }

    // is_empty: at most the entries "." and ".." are in use.
    method IsEmpty(c: nat) returns (empty: bool)
      requires c in nodes && |nodes[c].slots| >= 2
      ensures empty <==> CountInUse(nodes[c].slots) == 2
    {
      var count, i := 0, 0;
      while i < |nodes[c].slots|
        invariant i <= |nodes[c].slots| && count == CountInUse(nodes[c].slots[..i])
      {
        assert nodes[c].slots[..i + 1][..i] == nodes[c].slots[..i];
        if nodes[c].slots[i].nr != 0 {
          count := count + 1;
        }
        i := i + 1;
      }
      assert nodes[c].slots[..i] == nodes[c].slots;
      if count < 2 {
        return false;
      }
      empty := count == 2;
    }

    method Rmdir(d: nat, name: string, busy: bool, allowed: bool) returns (ok: bool)
      requires Inv(nodes) && d in nodes && nodes[d].isDir && nodes[d].nlinks < LINK_LIMIT
      requires PlainNames(nodes) && Plain(name)
      modifies this
      ensures nodes == Directories.Rmdir(old(nodes), d, name, busy, allowed)
      ensures ok <==> CanRmdir(SpaceOf(old(nodes)), d, name, busy, allowed)
      ensures !ok ==> nodes == old(nodes)
    {
      hide Inv, CountInUse, Bare;
      PlainComponent(name);
      if name == "" || !allowed {
        return false;
      }
      var found := FindEntry(d, name);
      if found.None? {
        return false;
      }
      FindFromSound(nodes[d].slots, name, 0);
      RmdirAsserts(nodes, d, name);
      var c := nodes[d].slots[found.value].nr;
      if c == d || !nodes[c].isDir || busy {
        return false;
      }
      DirHasDots(nodes, c);
      BareIsEmpty(nodes, c);
      var empty := IsEmpty(c);
      if !empty {
        return false;
      }
      assert nodes[c].nlinks == 2;
      nodes := nodes[d := nodes[d].(nlinks := Dec(nodes[d].nlinks))];
      assert nodes[d].nlinks > 0;
      SetNr(d, found.value, 0);
      nodes := nodes - {c};
      assert nodes[d].slots[found.value].nr == 0;
      ok := true;
    }
  }

  // No call puts a separator into a name.
  lemma StepPlain(n: Nodes, op: Op)
    requires Callable(n, op) && PlainNames(n) && Plain(op.name)
    ensures PlainNames(Step(n, op))
  {
    FindFromSound(n[op.d].slots, op.name, 0);
    hide Plain, FreeFrom, FindFrom;
    assert Plain(".") && Plain("..") && Plain(Cut(op.name)) by { DotsPlain(); }
  }

  lemma DotsPlain()
    ensures Plain(".") && Plain("..")
  {}

  lemma FoundInUse(n: Nodes, d: nat, name: string)
    requires Inv(n) && d in n && n[d].isDir && Find(n, d, name).Some?
    ensures var i := Find(n, d, name).value; i < |n[d].slots| && n[d].slots[i].nr in n
  {
    RmdirAsserts(n, d, name);
  }

  lemma DirHasDots(n: Nodes, c: nat)
    requires Inv(n) && c in n && n[c].isDir
    ensures |n[c].slots| >= 2
  {
    hide Good;
  }
}
