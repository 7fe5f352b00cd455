// Directories and link counts: the inodes of one device, what each call of
// src/fs/namei.c does to them, and what every call keeps. The state is a map of
// inodes with their slots; what the tree and the counts depend on is drawn from it
// as a graph, each call is shown to change the graph in a simple way, and each such
// change is shown to keep the graph good. The loops that do these things to the
// slots are in Volume.dfy.
module Directories {
  import opened Wrappers

  const ROOT := 1
  const LINK_LIMIT := 256          // nlinks is a u8
  const NAME_LEN := 14             // with the '\0' behind the name

  // A directory entry; nr is 0 when the slot is not in use, and the name stays behind.
  datatype Slot = Slot(nr: nat, name: string)
  datatype Node = Node(isDir: bool, nlinks: nat, slots: seq<Slot>)
  type Nodes = map<nat, Node>

  // ------------------------------------------------------------- lookup

  // find_entry from slot i on.
  function FindFrom(slots: seq<Slot>, name: string, i: nat): Option<nat>
    decreases |slots| - i
  {
    if i >= |slots| then None
    else if slots[i].nr != 0 && slots[i].name == name then Some(i)
    else FindFrom(slots, name, i + 1)
  }

  function Find(n: Nodes, d: nat, name: string): Option<nat>
    requires d in n
  {
    FindFrom(n[d].slots, name, 0)
  }

  lemma {:induction false} FindFromSound(slots: seq<Slot>, name: string, i: nat)
    ensures var r := FindFrom(slots, name, i);
      if r.Some? then i <= r.value < |slots| && slots[r.value].nr != 0 && slots[r.value].name == name
      else forall k :: i <= k < |slots| ==> slots[k].nr == 0 || slots[k].name != name
    decreases |slots| - i
  {
    if i < |slots| {
      FindFromSound(slots, name, i + 1);
    }
  }

  // Where add_entry puts a name: the first slot not in use, else a new one.
  function FreeFrom(slots: seq<Slot>, i: nat): (r: nat)
    requires i <= |slots|
    ensures i <= r <= |slots| && (r < |slots| ==> slots[r].nr == 0)
    ensures forall k :: i <= k < r ==> slots[k].nr != 0
    decreases |slots| - i
  {
    if i == |slots| || slots[i].nr == 0 then i else FreeFrom(slots, i + 1)
  }

  function Written(slots: seq<Slot>, i: nat, s: Slot): seq<Slot>
    requires i <= |slots|
  {
    if i < |slots| then slots[i := s] else slots + [s]
  }

  function FreeSlot(n: Nodes, d: nat): nat
    requires d in n
  {
    FreeFrom(n[d].slots, 0)
  }

  // --------------------------------------------------------------- state

  predicate DirShape(d: nat, slots: seq<Slot>) {
    |slots| >= 2 && slots[0] == Slot(d, ".") && slots[1].nr != 0 && slots[1].name == ".."
  }

  ghost predicate Shaped(n: Nodes) {
    forall d :: d in n ==> d != 0 && if n[d].isDir then DirShape(d, n[d].slots) else n[d].slots == []
  }

  ghost predicate UniqueNames(slots: seq<Slot>) {
    forall i, j :: 0 <= i < j < |slots| && slots[i].nr != 0 && slots[j].nr != 0 ==> slots[i].name != slots[j].name
  }

  // An entry in use is the one found by its name.
  lemma FoundAt(slots: seq<Slot>, i: nat)
    requires UniqueNames(slots) && i < |slots| && slots[i].nr != 0
    ensures FindFrom(slots, slots[i].name, 0) == Some(i)
  {
    FindFromSound(slots, slots[i].name, 0);
  }

  // What counts for the shape of the tree: each directory's "..", the slots in use
  // with what they name, and the link counts.
  datatype Graph = Graph(up: map<nat, nat>, uses: map<(nat, nat), nat>, links: map<nat, nat>)

  predicate InUse(n: Nodes, k: (nat, nat)) {
    k.0 in n && k.1 < |n[k.0].slots| && n[k.0].slots[k.1].nr != 0
  }

  ghost function Cells(n: Nodes): (r: set<(nat, nat)>)
    ensures forall k :: k in r <==> InUse(n, k)
  {
    var r := set d, i | d in n && 0 <= i < |n[d].slots| && InUse(n, (d, i)) :: (d, i);
    assert forall k :: InUse(n, k) ==> k == (k.0, k.1);
    r
  }

  predicate HasUp(n: Nodes, d: nat) {
    d in n && n[d].isDir && |n[d].slots| >= 2
  }

  ghost function Ups(n: Nodes): (r: map<nat, nat>)
    ensures forall d :: d in r <==> HasUp(n, d)
    ensures forall d :: d in r ==> HasUp(n, d) && r[d] == n[d].slots[1].nr
  {
    map d | d in n && HasUp(n, d) :: n[d].slots[1].nr
  }

  ghost function Uses(n: Nodes): (r: map<(nat, nat), nat>)
    ensures forall k :: k in r <==> InUse(n, k)
    ensures forall k :: k in r ==> InUse(n, k) && r[k] == n[k.0].slots[k.1].nr
  {
    map k | k in Cells(n) :: n[k.0].slots[k.1].nr
  }

  ghost function LinksOf(n: Nodes): (r: map<nat, nat>)
    ensures forall c :: c in r <==> c in n
    ensures forall c :: c in r ==> r[c] == n[c].nlinks
  {
    map c | c in n :: n[c].nlinks
  }

  ghost function GraphOf(n: Nodes): Graph {
    Graph(Ups(n), Uses(n), LinksOf(n))
  }

  // From d, ".." leads to the root in at most k steps.
  predicate Climbs(up: map<nat, nat>, d: nat, k: nat)
    decreases k
  {
    d == ROOT || (k > 0 && d in up && Climbs(up, up[d], k - 1))
  }

  ghost predicate Reaches(up: map<nat, nat>, d: nat) {
    exists k: nat :: Climbs(up, d, k)
  }

  ghost predicate Rooted(up: map<nat, nat>) {
    forall d {:trigger Reaches(up, d)} :: d in up ==> Reaches(up, d)
  }

  function Subdirs(up: map<nat, nat>, d: nat): set<nat> {
    set c | c in up && c != ROOT && up[c] == d
  }

  function EntriesOf(uses: map<(nat, nat), nat>, c: nat): set<(nat, nat)> {
    set k | k in uses && uses[k] == c
  }

  predicate ParentIsDir(up: map<nat, nat>, d: nat) {
    d in up && up[d] in up
  }

  ghost predicate Closed(up: map<nat, nat>) {
    ROOT in up && up[ROOT] == ROOT && forall d {:trigger ParentIsDir(up, d)} :: d in up ==> ParentIsDir(up, d)
  }

  // Slots 0 and 1 of a directory name itself and its parent; only directories have slots.
  ghost predicate Dotted(g: Graph) {
    && (forall d :: d in g.up ==> d in g.links)
    && (forall d :: d in g.up ==>
          (d, 0) in g.uses && g.uses[(d, 0)] == d && (d, 1) in g.uses && g.uses[(d, 1)] == g.up[d])
    && (forall k :: k in g.uses ==> k.0 in g.up)
  }

  // Entry (d, i) is neither "." nor "..", and names c.
  predicate Ordinary(g: Graph, d: nat, i: nat, c: nat) {
    2 <= i && (d, i) in g.uses && g.uses[(d, i)] == c
  }

  // The other entries name inodes in use; a directory only in its parent, and once.
  ghost predicate Linked(g: Graph) {
    && (forall d, i, c :: Ordinary(g, d, i, c) ==> c in g.links && (c in g.up ==> c != ROOT && g.up[c] == d))
    && (forall d, i, j, c :: Ordinary(g, d, i, c) && Ordinary(g, d, j, c) && c in g.up ==> i == j)
  }

  ghost predicate HasEntry(g: Graph, c: nat) {
    c in g.up && exists i: nat :: Ordinary(g, g.up[c], i, c)
  }

  // Each directory but the root has its entry.
  ghost predicate Placed(g: Graph) {
    forall c {:trigger HasEntry(g, c)} :: c in g.up && c != ROOT ==> HasEntry(g, c)
  }

  ghost predicate Counted(g: Graph) {
    forall c :: c in g.links ==>
      g.links[c] == if c in g.up then 2 + |Subdirs(g.up, c)| else |EntriesOf(g.uses, c)|
  }

  ghost predicate Good(g: Graph) {
    Closed(g.up) && Dotted(g) && Linked(g) && Placed(g) && Rooted(g.up) && Counted(g)
  }

  // The nodes' side of the invariant.
  ghost predicate Tidy(n: Nodes) {
    Shaped(n) && forall d :: d in n ==> UniqueNames(n[d].slots)
  }

  ghost predicate Inv(n: Nodes) {
    Tidy(n) && Good(GraphOf(n))
  }

  // ---------------------------------------------------------- operations

  function Inc(nlinks: nat): nat {
    (nlinks + 1) % LINK_LIMIT
  }

  function Dec(nlinks: nat): nat {
    (nlinks + LINK_LIMIT - 1) % LINK_LIMIT
  }

  // strncpy into the entry: what does not fit is cut off.
  function Cut(name: string): (r: string)
    ensures r <= name && |r| < NAME_LEN
    ensures |name| < NAME_LEN ==> r == name
  {
    if |name| < NAME_LEN then name else name[..NAME_LEN - 1]
  }

  // add_entry, then entry->nr = c.
  function Added(n: Nodes, d: nat, name: string, c: nat): Nodes
    requires d in n
  {
    n[d := n[d].(slots := Written(n[d].slots, FreeSlot(n, d), Slot(c, Cut(name))))]
  }

  // entry->nr = 0
  function Removed(n: Nodes, d: nat, i: nat): Nodes
    requires d in n && i < |n[d].slots|
  {
    n[d := n[d].(slots := n[d].slots[i := n[d].slots[i].(nr := 0)])]
  }

  function Relinked(n: Nodes, c: nat, nlinks: nat): Nodes
    requires c in n
  {
    n[c := n[c].(nlinks := nlinks)]
  }

  function NewDir(c: nat, d: nat): Node {
    Node(true, 2, [Slot(c, "."), Slot(d, "..")])
  }

  function Mkdir(n: Nodes, d: nat, name: string, c: nat, allowed: bool): Nodes
    requires d in n
  {
    if !allowed || name == "" || Find(n, d, name).Some? then n
    else Relinked(Added(n, d, name, c), d, Inc(n[d].nlinks))[c := NewDir(c, d)]
  }

  // The number of slots in use: what is_empty compares with 2.
  function CountInUse(slots: seq<Slot>): nat {
    if slots == [] then 0 else CountInUse(slots[..|slots| - 1]) + if slots[|slots| - 1].nr != 0 then 1 else 0
  }

  // busy says that another task has the directory open.
  function Rmdir(n: Nodes, d: nat, name: string, busy: bool, allowed: bool): Nodes
    requires d in n
  {
    if !allowed || name == "" || Find(n, d, name).None? then n
    else
      var i := Find(n, d, name).value;
      FindFromSound(n[d].slots, name, 0);
      var c := n[d].slots[i].nr;
      if c == d || c !in n || !n[c].isDir || busy || CountInUse(n[c].slots) != 2 then n
      else Relinked(Removed(n, d, i), d, Dec(n[d].nlinks)) - {c}
  }

  function Link(n: Nodes, d: nat, name: string, c: nat, allowed: bool): Nodes
    requires d in n && c in n
  {
    if !allowed || name == "" || n[c].isDir || Find(n, d, name).Some? then n
    else Relinked(Added(n, d, name, c), c, Inc(n[c].nlinks))
  }

  function Unlink(n: Nodes, d: nat, name: string, allowed: bool): Nodes
    requires d in n
  {
    if !allowed || name == "" || Find(n, d, name).None? then n
    else
      var i := Find(n, d, name).value;
      FindFromSound(n[d].slots, name, 0);
      var c := n[d].slots[i].nr;
      if c !in n || n[c].isDir then n
      else
        var m := Relinked(Removed(n, d, i), c, Dec(n[c].nlinks));
        if m[c].nlinks == 0 then m - {c} else m
  }

  function Create(n: Nodes, d: nat, name: string, c: nat, allowed: bool): Nodes
    requires d in n
  {
    if !allowed || name == "" || Find(n, d, name).Some? then n
    else Added(n, d, name, c)[c := Node(false, 1, [])]
  }

  // ------------------------------------------------- what each one does to the graph

  lemma AddedGraph(n: Nodes, d: nat, name: string, c: nat)
    requires Shaped(n) && d in n && n[d].isDir && c != 0
    ensures var i := FreeSlot(n, d);
      2 <= i && (d, i) !in GraphOf(n).uses
      && GraphOf(Added(n, d, name, c)) == GraphOf(n).(uses := GraphOf(n).uses[(d, i) := c])
  {
    assert n[d].slots[0].nr != 0 && n[d].slots[1].nr != 0;
    hide Shaped;
    SlotChanged(n, d, FreeSlot(n, d), Slot(c, Cut(name)));
  }

  // Writing one slot with index 2 or more leaves the rest of the graph alone.
  lemma SlotChanged(n: Nodes, d: nat, i: nat, s: Slot)
    requires d in n && 2 <= i <= |n[d].slots|
    ensures var m := n[d := n[d].(slots := Written(n[d].slots, i, s))];
      GraphOf(m) == GraphOf(n).(uses := if s.nr != 0 then Uses(n)[(d, i) := s.nr] else Uses(n) - {(d, i)})
  {
    SlotUses(n, d, i, s);
    SlotUps(n, d, i, s);
    hide Ups, Uses, Written;
  }

  lemma SlotUses(n: Nodes, d: nat, i: nat, s: Slot)
    requires d in n && 2 <= i <= |n[d].slots|
    ensures var m := n[d := n[d].(slots := Written(n[d].slots, i, s))];
      Uses(m) == if s.nr != 0 then Uses(n)[(d, i) := s.nr] else Uses(n) - {(d, i)}
  {
    hide Uses;
    var m := n[d := n[d].(slots := Written(n[d].slots, i, s))];
    forall k ensures InUse(m, k) <==> if k == (d, i) then s.nr != 0 else InUse(n, k) {
      assert k == (k.0, k.1);
    }
  }

  lemma SlotUps(n: Nodes, d: nat, i: nat, s: Slot)
    requires d in n && 2 <= i <= |n[d].slots|
    ensures var m := n[d := n[d].(slots := Written(n[d].slots, i, s))]; Ups(m) == Ups(n)
  {
    hide Ups;
    var m := n[d := n[d].(slots := Written(n[d].slots, i, s))];
    forall e ensures HasUp(m, e) == HasUp(n, e) {}
  }

  // The name is new, but what is stored of it is not.
  predicate Clashes(n: Nodes, d: nat, name: string)
    requires d in n
  {
    Find(n, d, name).None? && Find(n, d, Cut(name)).Some?
  }

  // Adding a name keeps the names unique just when what is stored of it is new.
  lemma AddedNamesIff(n: Nodes, d: nat, name: string, c: nat)
    requires d in n && UniqueNames(n[d].slots) && c != 0
    ensures UniqueNames(Added(n, d, name, c)[d].slots) <==> Find(n, d, Cut(name)).None?
  {
    FindFromSound(n[d].slots, Cut(name), 0);
    var slots, i := Added(n, d, name, c)[d].slots, FreeSlot(n, d);
    assert slots[i] == Slot(c, Cut(name));
    if Find(n, d, Cut(name)).Some? {
      var j := Find(n, d, Cut(name)).value;
      assert slots[j] == n[d].slots[j] && i != j;
    }
  }

  lemma RemovedGraph(n: Nodes, d: nat, i: nat)
    requires d in n && 2 <= i < |n[d].slots|
    ensures GraphOf(Removed(n, d, i)) == GraphOf(n).(uses := GraphOf(n).uses - {(d, i)})
  {
    SlotChanged(n, d, i, n[d].slots[i].(nr := 0));
  }

  lemma RelinkedGraph(n: Nodes, c: nat, nlinks: nat)
    requires c in n
    ensures GraphOf(Relinked(n, c, nlinks)) == GraphOf(n).(links := GraphOf(n).links[c := nlinks])
  {
    hide Ups, Uses, LinksOf;
    var m := Relinked(n, c, nlinks);
    assert Uses(m) == Uses(n) by {
      forall k ensures InUse(m, k) <==> InUse(n, k) {}
    }
    assert Ups(m) == Ups(n) by {
      forall e ensures HasUp(m, e) == HasUp(n, e) {}
    }
    assert LinksOf(m) == LinksOf(n)[c := nlinks];
  }

  // ------------------------------------------------ each one keeps the graph good

  lemma EntryAdded(uses: map<(nat, nat), nat>, k: (nat, nat), c: nat, x: nat)
    requires k !in uses
    ensures EntriesOf(uses[k := c], x) == if x == c then EntriesOf(uses, x) + {k} else EntriesOf(uses, x)
    ensures k !in EntriesOf(uses, x)
  {}

  lemma EntryAddedAll(uses: map<(nat, nat), nat>, k: (nat, nat), c: nat)
    requires k !in uses
    ensures |EntriesOf(uses[k := c], c)| == |EntriesOf(uses, c)| + 1
    ensures forall x :: x != c ==> EntriesOf(uses[k := c], x) == EntriesOf(uses, x)
  {
    EntryAdded(uses, k, c, c);
    forall x | x != c ensures EntriesOf(uses[k := c], x) == EntriesOf(uses, x) {
      EntryAdded(uses, k, c, x);
    }
  }

  // Taking an entry out of use.
  lemma EntryRemoved(uses: map<(nat, nat), nat>, k: (nat, nat), c: nat)
    requires k in uses && uses[k] == c
    ensures |EntriesOf(uses, c)| == |EntriesOf(uses - {k}, c)| + 1
    ensures forall x :: x != c ==> EntriesOf(uses - {k}, x) == EntriesOf(uses, x)
  {
    var u := uses - {k};
    assert u[k := c] == uses;
    forall x ensures EntriesOf(uses, x) == if x == c then EntriesOf(u, x) + {k} else EntriesOf(u, x) {
      EntryAdded(u, k, c, x);
    }
    EntryAdded(u, k, c, c);
    hide EntriesOf;
  }

  lemma SubdirAdded(up: map<nat, nat>, c: nat, d: nat, x: nat)
    requires c !in up && c != ROOT
    ensures Subdirs(up[c := d], x) == if x == d then Subdirs(up, x) + {c} else Subdirs(up, x)
    ensures c !in Subdirs(up, x)
  {}

  lemma {:induction false} ClimbsAdded(up: map<nat, nat>, c: nat, d: nat, e: nat, k: nat)
    requires c !in up && Climbs(up, e, k)
    ensures Climbs(up[c := d], e, k)
    decreases k
  {
    if e != ROOT {
      ClimbsAdded(up, c, d, up[e], k - 1);
    }
  }

  // Without a directory that is nobody's parent the climb goes as before.
  lemma {:induction false} ClimbsRemoved(up: map<nat, nat>, c: nat, e: nat, k: nat)
    requires Subdirs(up, c) == {} && c != ROOT && e != c && Climbs(up, e, k)
    ensures Climbs(up - {c}, e, k)
    decreases k
  {
    if e != ROOT {
      assert e !in Subdirs(up, c);
      ClimbsRemoved(up, c, up[e], k - 1);
    }
  }

  function Entered(g: Graph, d: nat, i: nat, c: nat, nlinks: nat): Graph {
    g.(uses := g.uses[(d, i) := c], links := g.links[c := nlinks])
  }

  lemma EnteredDotted(g: Graph, d: nat, i: nat, c: nat, nlinks: nat)
    requires Dotted(g) && d in g.up && 2 <= i && c !in g.up
    ensures Dotted(Entered(g, d, i, c, nlinks))
  {}

  lemma EnteredLinked(g: Graph, d: nat, i: nat, c: nat, nlinks: nat)
    requires Linked(g) && Placed(g) && 2 <= i && (d, i) !in g.uses && c !in g.up
    ensures Linked(Entered(g, d, i, c, nlinks))
    ensures Placed(Entered(g, d, i, c, nlinks))
  {
    var h := Entered(g, d, i, c, nlinks);
    forall e, j, x ensures Ordinary(h, e, j, x) <==> Ordinary(g, e, j, x) || (e == d && j == i && x == c) {}
    hide Ordinary;
    assert Linked(h) by { hide Placed; }
    hide Linked;
    forall x | x in h.up && x != ROOT ensures HasEntry(h, x) {
      assert HasEntry(g, x);
      var j: nat :| Ordinary(g, g.up[x], j, x);
      assert Ordinary(h, h.up[x], j, x);
    }
  }

  lemma EnteredCounted(g: Graph, d: nat, i: nat, c: nat, nlinks: nat)
    requires Counted(g) && (d, i) !in g.uses && c !in g.up
    requires nlinks == 1 + if c in g.links then g.links[c] else 0
    requires c !in g.links ==> EntriesOf(g.uses, c) == {}
    ensures Counted(Entered(g, d, i, c, nlinks))
  {
    hide EntriesOf, Subdirs;
    EntryAddedAll(g.uses, (d, i), c);
  }

  // A new entry for a file, or for a new file.
  lemma EnteredGood(g: Graph, d: nat, i: nat, c: nat, nlinks: nat)
    requires Good(g) && d in g.up && 2 <= i && (d, i) !in g.uses && c !in g.up
    requires nlinks == 1 + if c in g.links then g.links[c] else 0
    ensures Good(Entered(g, d, i, c, nlinks))
  {
    hide Linked, Rooted, Counted, Dotted, Closed, Placed, Ordinary;
    if c !in g.links {
      Unnamed(g, c);
    }
    EnteredDotted(g, d, i, c, nlinks);
    EnteredLinked(g, d, i, c, nlinks);
    EnteredCounted(g, d, i, c, nlinks);
  }

  // No entry names an inode that is not in use.
  lemma Unnamed(g: Graph, c: nat)
    requires Closed(g.up) && Dotted(g) && Linked(g) && c !in g.links
    ensures EntriesOf(g.uses, c) == {}
  {
    hide Closed;
    forall k | k in g.uses ensures g.uses[k] != c {
      assert k == (k.0, k.1);
      if k.1 >= 2 {
        assert Ordinary(g, k.0, k.1, g.uses[k]);
      } else {
        ParentIn(g.up, k.0);
      }
    }
  }

  lemma ParentIn(up: map<nat, nat>, d: nat)
    requires Closed(up) && d in up
    ensures up[d] in up
  {
    assert ParentIsDir(up, d);
  }

  function Left(g: Graph, d: nat, i: nat, c: nat): Graph
    requires c in g.links && g.links[c] > 0
  {
    var h := g.(uses := g.uses - {(d, i)}, links := g.links[c := g.links[c] - 1]);
    if h.links[c] == 0 then h.(links := h.links - {c}) else h
  }

  lemma LeftCounted(g: Graph, d: nat, i: nat, c: nat)
    requires Counted(g) && (d, i) in g.uses && g.uses[(d, i)] == c && c !in g.up && c in g.links
    ensures g.links[c] > 0 && Counted(Left(g, d, i, c))
    ensures c !in Left(g, d, i, c).links <==> EntriesOf(Left(g, d, i, c).uses, c) == {}
  {
    hide EntriesOf, Subdirs;
    EntryRemoved(g.uses, (d, i), c);
    assert |EntriesOf(Left(g, d, i, c).uses, c)| == 0 ==> EntriesOf(Left(g, d, i, c).uses, c) == {};
  }

  lemma LeftDotted(g: Graph, d: nat, i: nat, c: nat)
    requires Dotted(g) && 2 <= i && c !in g.up && c in g.links && g.links[c] > 0
    ensures Dotted(Left(g, d, i, c))
  {}

  lemma LeftLinked(g: Graph, d: nat, i: nat, c: nat)
    requires Linked(g) && Placed(g) && Ordinary(g, d, i, c) && c !in g.up && c in g.links && g.links[c] > 0
    requires c !in Left(g, d, i, c).links <==> EntriesOf(Left(g, d, i, c).uses, c) == {}
    ensures Linked(Left(g, d, i, c))
    ensures Placed(Left(g, d, i, c))
  {
    var h := Left(g, d, i, c);
    forall e, j, x ensures Ordinary(h, e, j, x) <==> Ordinary(g, e, j, x) && !(e == d && j == i) {}
    forall e: nat, j: nat | Ordinary(h, e, j, c) ensures c in h.links {
      assert (e, j) in EntriesOf(h.uses, c);
    }
    hide Ordinary, EntriesOf;
    assert Linked(h) by { hide Placed; }
    hide Linked;
    forall x | x in h.up && x != ROOT ensures HasEntry(h, x) {
      assert HasEntry(g, x);
      var j: nat :| Ordinary(g, g.up[x], j, x);
      assert x != c;
      assert Ordinary(h, h.up[x], j, x);
    }
  }

  // An entry of a file goes; with the last one the file goes.
  lemma LeftGood(g: Graph, d: nat, i: nat, c: nat)
    requires Good(g) && Ordinary(g, d, i, c) && c !in g.up
    ensures c in g.links && g.links[c] > 0 && Good(Left(g, d, i, c))
    ensures c !in Left(g, d, i, c).links <==> EntriesOf(Left(g, d, i, c).uses, c) == {}
  {
    assert c in g.links by { hide Closed, Rooted, Placed; }
    hide Linked, Rooted, Counted, Dotted, Closed, Placed;
    LeftCounted(g, d, i, c);
    LeftDotted(g, d, i, c);
    LeftLinked(g, d, i, c);
  }

  function Grown(g: Graph, d: nat, i: nat, c: nat): Graph
    requires d in g.links
  {
    Graph(g.up[c := d], g.uses[(d, i) := c][(c, 0) := c][(c, 1) := d], g.links[d := g.links[d] + 1][c := 2])
  }

  lemma GrownDotted(g: Graph, d: nat, i: nat, c: nat)
    requires Dotted(g) && d in g.up && 2 <= i && c !in g.links
    ensures d in g.links && Dotted(Grown(g, d, i, c))
  {}

  lemma GrownLinked(g: Graph, d: nat, i: nat, c: nat)
    requires Linked(g) && Placed(g) && 2 <= i && (d, i) !in g.uses && c !in g.up && c != ROOT && d in g.links && c != d
    requires forall x :: x in g.up ==> x in g.links
    requires forall e, j, x :: Ordinary(g, e, j, x) ==> x != c
    ensures Linked(Grown(g, d, i, c))
    ensures Placed(Grown(g, d, i, c))
  {
    var h := Grown(g, d, i, c);
    forall e, j, x ensures Ordinary(h, e, j, x) <==> Ordinary(g, e, j, x) || (e == d && j == i && x == c) {}
    hide Ordinary;
    assert Ordinary(h, d, i, c);
    assert Linked(h) by { hide Placed; }
    hide Linked;
    forall x | x in h.up && x != ROOT ensures HasEntry(h, x) {
      if x != c {
        assert HasEntry(g, x);
        var j: nat :| Ordinary(g, g.up[x], j, x);
        assert Ordinary(h, h.up[x], j, x);
      }
    }
  }

  // The facts about a new directory's number that its counts rest on.
  ghost predicate Unheard(g: Graph, d: nat, i: nat, c: nat) {
    && (d, i) !in g.uses && (c, 0) !in g.uses && (c, 1) !in g.uses && c != d && c !in g.up && c != ROOT && d in g.links
    && (forall x :: x in g.up ==> x in g.links) && (forall x :: x in g.up ==> g.up[x] != c)
  }

  lemma NewIsUnheard(g: Graph, d: nat, i: nat, c: nat)
    requires Closed(g.up) && Dotted(g) && d in g.up && (d, i) !in g.uses && c !in g.links
    ensures Unheard(g, d, i, c)
  {
    RootIn(g);
    assert (c, 0) !in g.uses && (c, 1) !in g.uses && c != d && c !in g.up && d in g.links by { hide Closed; }
    assert forall x :: x in g.up ==> x in g.links by { hide Closed; }
    forall x | x in g.up ensures g.up[x] != c {
      ParentIn(g.up, x);
    }
    hide Closed, Dotted;
  }

  lemma UnheardOrdinary(g: Graph, d: nat, i: nat, c: nat)
    requires Linked(g) && c !in g.links && Unheard(g, d, i, c)
    ensures forall e, j, x :: Ordinary(g, e, j, x) ==> x != c
  {
    hide Ordinary;
  }

  lemma GrownCounted(g: Graph, d: nat, i: nat, c: nat)
    requires Counted(g) && Unheard(g, d, i, c) && d in g.up
    ensures Counted(Grown(g, d, i, c))
  {
    GrownSubdirs(g.up, c, d);
    GrownEntries(g.uses, d, i, c);
    hide EntriesOf, Subdirs;
  }

  lemma GrownEntries(uses: map<(nat, nat), nat>, d: nat, i: nat, c: nat)
    requires (d, i) !in uses && (c, 0) !in uses && (c, 1) !in uses && c != d
    ensures forall x :: x != c && x != d ==>
      EntriesOf(uses[(d, i) := c][(c, 0) := c][(c, 1) := d], x) == EntriesOf(uses, x)
  {}

  lemma GrownSubdirs(up: map<nat, nat>, c: nat, d: nat)
    requires c !in up && c != ROOT && d in up && forall x :: x in up ==> up[x] != c
    ensures Subdirs(up[c := d], c) == {}
    ensures |Subdirs(up[c := d], d)| == |Subdirs(up, d)| + 1
    ensures forall x :: x != d && x != c ==> Subdirs(up[c := d], x) == Subdirs(up, x)
  {
    assert Subdirs(up[c := d], c) == {};
    SubdirAdded(up, c, d, d);
    forall x | x != d && x != c ensures Subdirs(up[c := d], x) == Subdirs(up, x) {
      SubdirAdded(up, c, d, x);
    }
  }

  lemma GrownRooted(up: map<nat, nat>, c: nat, d: nat)
    requires Rooted(up) && c !in up && d in up
    ensures Rooted(up[c := d])
  {
    var m := up[c := d];
    forall e | e in m ensures Reaches(m, e) {
      var from := if e == c then d else e;
      assert Reaches(up, from);
      var k: nat :| Climbs(up, from, k);
      ClimbsAdded(up, c, d, from, k);
      assert Climbs(m, e, if e == c then k + 1 else k);
    }
  }

  lemma GrownClosed(up: map<nat, nat>, c: nat, d: nat)
    requires Closed(up) && c !in up && d in up
    ensures Closed(up[c := d])
  {
    var m := up[c := d];
    forall e | e in m ensures ParentIsDir(m, e) {
      assert e != c ==> ParentIsDir(up, e);
    }
  }

  lemma RootIn(g: Graph)
    requires Closed(g.up) && Dotted(g)
    ensures ROOT in g.up && ROOT in g.links && g.up[ROOT] == ROOT
  {}

  // A new directory.
  lemma GrownGood(g: Graph, d: nat, i: nat, c: nat)
    requires Good(g) && d in g.up && 2 <= i && (d, i) !in g.uses && c !in g.links
    ensures d in g.links && Good(Grown(g, d, i, c))
  {
    hide Linked, Rooted, Counted, Dotted, Placed, Closed;
    NewIsUnheard(g, d, i, c);
    GrownClosed(g.up, c, d);
    GrownDotted(g, d, i, c);
    UnheardOrdinary(g, d, i, c);
    GrownLinked(g, d, i, c);
    GrownCounted(g, d, i, c);
    GrownRooted(g.up, c, d);
  }

  function Shrunk(g: Graph, d: nat, i: nat, c: nat): Graph
    requires d in g.links && g.links[d] > 0
  {
    Graph(g.up - {c}, g.uses - {(d, i), (c, 0), (c, 1)}, g.links[d := g.links[d] - 1] - {c})
  }

  // No slot of directory c but "." and ".." is in use.
  ghost predicate Empty(g: Graph, c: nat) {
    forall i :: 2 <= i ==> (c, i) !in g.uses
  }

  lemma EmptyHasNoSubdirs(g: Graph, c: nat)
    requires Placed(g) && Counted(g) && Empty(g, c) && c in g.up && c in g.links
    ensures Subdirs(g.up, c) == {} && g.links[c] == 2
  {
    forall e ensures e !in Subdirs(g.up, c) {
      assert e in g.up && e != ROOT ==> HasEntry(g, e);
      assert forall j :: !Ordinary(g, c, j, e);
    }
    assert Subdirs(g.up, c) == {};
  }

  lemma ShrunkOrdinary(g: Graph, d: nat, i: nat, c: nat)
    requires Ordinary(g, d, i, c) && Empty(g, c) && c != d && d in g.links && g.links[d] > 0
    ensures forall e, j, x ::
      Ordinary(Shrunk(g, d, i, c), e, j, x) <==> Ordinary(g, e, j, x) && !(e == d && j == i)
    ensures forall j, x :: !Ordinary(g, c, j, x)
  {}

  lemma ShrunkDotted(g: Graph, d: nat, i: nat, c: nat)
    requires Dotted(g) && 2 <= i && c in g.up && Empty(g, c) && c != d && d in g.links && g.links[d] > 0
    ensures Dotted(Shrunk(g, d, i, c))
  {
    var h := Shrunk(g, d, i, c);
    forall k | k in h.uses ensures k.0 in h.up {
      assert k == (k.0, k.1) && k in g.uses;
      assert k.0 == c ==> k.1 < 2;
    }
    hide Empty;
    forall e | e in h.up
      ensures (e, 0) in h.uses && h.uses[(e, 0)] == e && (e, 1) in h.uses && h.uses[(e, 1)] == h.up[e]
    {
      assert e in g.up && e != c;
    }
  }

  lemma ShrunkLinked(g: Graph, d: nat, i: nat, c: nat)
    requires Linked(g) && Placed(g) && Ordinary(g, d, i, c) && c in g.up && Empty(g, c) && c != d
    requires Subdirs(g.up, c) == {} && d in g.links && g.links[d] > 0
    ensures Linked(Shrunk(g, d, i, c)) && Placed(Shrunk(g, d, i, c))
  {
    var h := Shrunk(g, d, i, c);
    ShrunkOrdinary(g, d, i, c);
    hide Ordinary, Empty;
    assert g.up[c] == d;
    assert Linked(h) by {
      hide Placed;
      assert forall e, j, x :: Ordinary(h, e, j, x) && x in g.up ==> x != c;
    }
    hide Linked;
    forall x | x in h.up && x != ROOT ensures HasEntry(h, x) {
      assert HasEntry(g, x);
      var j: nat :| Ordinary(g, g.up[x], j, x);
      assert x != c;
      assert Ordinary(h, h.up[x], j, x);
    }
  }

  lemma ShrunkCounted(g: Graph, d: nat, i: nat, c: nat)
    requires Counted(g) && c in g.up && c != d && c != ROOT && g.up[c] == d && d in g.up && d in g.links
    requires (d, i) in g.uses && g.uses[(d, i)] == c && (c, 0) in g.uses && g.uses[(c, 0)] == c
    requires (c, 1) in g.uses && g.uses[(c, 1)] == d
    ensures g.links[d] > 2 && Counted(Shrunk(g, d, i, c))
  {
    ShrunkSubdirs(g.up, c, d);
    ShrunkEntries(g.uses, d, i, c);
    hide EntriesOf, Subdirs;
  }

  lemma ShrunkSubdirs(up: map<nat, nat>, c: nat, d: nat)
    requires c in up && up[c] == d && c != ROOT && c != d
    ensures |Subdirs(up, d)| == |Subdirs(up - {c}, d)| + 1
    ensures forall x :: x != d ==> Subdirs(up - {c}, x) == Subdirs(up, x)
  {
    var less := up - {c};
    assert less[c := d] == up;
    SubdirAdded(less, c, d, d);
    forall x | x != d ensures Subdirs(less, x) == Subdirs(up, x) {
      SubdirAdded(less, c, d, x);
    }
  }

  lemma ShrunkEntries(uses: map<(nat, nat), nat>, d: nat, i: nat, c: nat)
    requires (d, i) in uses && uses[(d, i)] == c && (c, 0) in uses && uses[(c, 0)] == c
    requires (c, 1) in uses && uses[(c, 1)] == d
    ensures forall x :: x != c && x != d ==> EntriesOf(uses - {(d, i), (c, 0), (c, 1)}, x) == EntriesOf(uses, x)
  {}

  lemma ShrunkRooted(up: map<nat, nat>, c: nat)
    requires Rooted(up) && Closed(up) && Subdirs(up, c) == {} && c != ROOT
    ensures Rooted(up - {c}) && Closed(up - {c})
  {
    var m := up - {c};
    forall e | e in m ensures Reaches(m, e) {
      assert Reaches(up, e);
      var k: nat :| Climbs(up, e, k);
      ClimbsRemoved(up, c, e, k);
    }
    hide Rooted;
    forall e | e in m ensures ParentIsDir(m, e) {
      assert ParentIsDir(up, e) && e !in Subdirs(up, c);
    }
  }

  // An empty directory goes: it had link count 2, as rmdir asserts.
  lemma ShrunkGood(g: Graph, d: nat, i: nat, c: nat)
    requires Good(g) && Ordinary(g, d, i, c) && c in g.up && Empty(g, c)
    ensures c != d && c in g.links && g.links[c] == 2 && d in g.links && g.links[d] > 2 && Good(Shrunk(g, d, i, c))
  {
    assert c in g.links && c != ROOT && g.up[c] == d && c != d && d in g.up && d in g.links by {
      hide Rooted, Placed, Closed;
    }
    assert (c, 0) in g.uses && g.uses[(c, 0)] == c && (c, 1) in g.uses && g.uses[(c, 1)] == d by {
      hide Rooted, Placed, Closed, Linked, Ordinary;
    }
    hide Linked, Rooted, Counted, Dotted, Placed, Closed;
    EmptyHasNoSubdirs(g, c);
    ShrunkCounted(g, d, i, c);
    ShrunkLinked(g, d, i, c);
    ShrunkDotted(g, d, i, c);
    ShrunkRooted(g.up, c);
  }

  // A directory's link count, too, is the number of entries naming it: ".", its own
  // entry (for the root, its ".."), and each subdirectory's "..".
  lemma DirLinksAreEntries(g: Graph, d: nat)
    requires Good(g) && d in g.up
    ensures d in g.links && g.links[d] == |EntriesOf(g.uses, d)|
  {
    hide Closed, Rooted, Placed, Linked, Subdirs, EntriesOf;
    assert d in g.links;
    hide Dotted;
    RootIn(g);
    var dots := set c | c in Subdirs(g.up, d) :: (c, 1);
    var i := OwnEntry(g, d);
    NamedBy(g, d, i, dots);
    NotDots(g, d, i, dots);
    DotsSize(Subdirs(g.up, d), dots);
    TwoMore(dots, (d, 0), (g.up[d], i));
  }

  lemma OwnEntry(g: Graph, d: nat) returns (i: nat)
    requires Closed(g.up) && Placed(g) && d in g.up
    ensures if d == ROOT then i == 1 && g.up[d] == ROOT else Ordinary(g, g.up[d], i, d)
  {
    if d == ROOT {
      i := 1;
    } else {
      assert HasEntry(g, d);
      i :| Ordinary(g, g.up[d], i, d);
    }
  }

  lemma TwoMore<T>(s: set<T>, x: T, y: T)
    requires x !in s && y !in s && x != y
    ensures |s + {x, y}| == |s| + 2
  {
    assert s + {x, y} == s + {x} + {y};
  }

  lemma NamedBy(g: Graph, d: nat, i: nat, dots: set<(nat, nat)>)
    requires Dotted(g) && Linked(g) && d in g.up && ROOT in g.up && g.up[ROOT] == ROOT
    requires if d == ROOT then i == 1 else Ordinary(g, g.up[d], i, d)
    requires dots == set c | c in Subdirs(g.up, d) :: (c, 1)
    ensures EntriesOf(g.uses, d) == dots + {(d, 0), (g.up[d], i)}
  {
    forall k | k in g.uses && g.uses[k] == d ensures k in dots + {(d, 0), (g.up[d], i)} {
      EntryOfDir(g, d, i, k.0, k.1);
    }
    hide Linked;
    forall c | c in Subdirs(g.up, d) ensures (c, 1) in g.uses && g.uses[(c, 1)] == d {}
  }

  lemma NotDots(g: Graph, d: nat, i: nat, dots: set<(nat, nat)>)
    requires d in g.up && dots == set c | c in Subdirs(g.up, d) :: (c, 1)
    requires if d == ROOT then i == 1 && g.up[d] == ROOT else Ordinary(g, g.up[d], i, d)
    ensures (d, 0) !in dots && (g.up[d], i) !in dots && i != 0
  {}

  lemma EntryOfDir(g: Graph, d: nat, i: nat, e: nat, j: nat)
    requires Dotted(g) && Linked(g) && d in g.up && (e, j) in g.uses && g.uses[(e, j)] == d
    requires ROOT in g.up && g.up[ROOT] == ROOT
    requires if d == ROOT then i == 1 else Ordinary(g, g.up[d], i, d)
    ensures (e, j) == (d, 0) || (e, j) == (g.up[d], i) || (j == 1 && e in Subdirs(g.up, d))
  {
    if j >= 2 {
      assert Ordinary(g, e, j, d);
    }
  }

  lemma {:induction false} DotsSize(subs: set<nat>, dots: set<(nat, nat)>)
    requires dots == set c | c in subs :: (c, 1)
    ensures |dots| == |subs|
  {
    if subs != {} {
      var c :| c in subs;
      var fewer := set x | x in subs - {c} :: (x, 1);
      DotsSize(subs - {c}, fewer);
      assert dots == fewer + {(c, 1)};
    }
  }

  // ---------------------------------------------------------- the calls keep it

  function Sprouted(g: Graph, c: nat, d: nat): Graph {
    Graph(g.up[c := d], g.uses[(c, 0) := c][(c, 1) := d], g.links[c := 2])
  }

  lemma NewDirGraph(n: Nodes, c: nat, d: nat)
    requires c !in n && c != 0 && d != 0
    ensures GraphOf(n[c := NewDir(c, d)]) == Sprouted(GraphOf(n), c, d)
  {
    hide Ups, Uses, LinksOf, Cells;
    NewDirUses(n, c, d);
    var m := n[c := NewDir(c, d)];
    assert Ups(m) == Ups(n)[c := d] by {
      forall e ensures HasUp(m, e) <==> HasUp(n, e) || e == c {}
    }
    assert LinksOf(m) == LinksOf(n)[c := 2];
  }

  lemma NewDirUses(n: Nodes, c: nat, d: nat)
    requires c !in n && c != 0 && d != 0
    ensures Uses(n[c := NewDir(c, d)]) == Uses(n)[(c, 0) := c][(c, 1) := d]
  {
    hide Uses, Cells;
    var m := n[c := NewDir(c, d)];
    forall k ensures InUse(m, k) <==> InUse(n, k) || k == (c, 0) || k == (c, 1) {
      assert k == (k.0, k.1);
    }
  }

  lemma NewFileGraph(n: Nodes, c: nat, nlinks: nat)
    requires c !in n
    ensures GraphOf(n[c := Node(false, nlinks, [])]) == GraphOf(n).(links := GraphOf(n).links[c := nlinks])
  {
    hide Ups, Uses, LinksOf;
    var m := n[c := Node(false, nlinks, [])];
    assert Uses(m) == Uses(n) by {
      forall k ensures InUse(m, k) <==> InUse(n, k) {}
    }
    assert Ups(m) == Ups(n) by {
      forall e ensures HasUp(m, e) <==> HasUp(n, e) {}
    }
    assert LinksOf(m) == LinksOf(n)[c := nlinks];
  }

  lemma GoneDirGraph(n: Nodes, c: nat)
    requires c in n && forall i :: 2 <= i < |n[c].slots| ==> n[c].slots[i].nr == 0
    ensures GraphOf(n - {c})
         == Graph(GraphOf(n).up - {c}, GraphOf(n).uses - {(c, 0), (c, 1)}, GraphOf(n).links - {c})
  {
    hide Ups, Uses, LinksOf;
    var m := n - {c};
    assert Uses(m) == Uses(n) - {(c, 0), (c, 1)} by {
      forall k ensures InUse(m, k) <==> InUse(n, k) && k != (c, 0) && k != (c, 1) {
        assert k == (k.0, k.1);
      }
    }
    assert Ups(m) == Ups(n) - {c} by {
      forall e ensures HasUp(m, e) <==> HasUp(n, e) && e != c {}
    }
    assert LinksOf(m) == LinksOf(n) - {c};
  }

  lemma GoneFileGraph(n: Nodes, c: nat)
    requires c in n && n[c].slots == []
    ensures GraphOf(n - {c}) == GraphOf(n).(links := GraphOf(n).links - {c})
  {
    hide Ups, Uses, LinksOf;
    var m := n - {c};
    assert Uses(m) == Uses(n) by {
      forall k ensures InUse(m, k) <==> InUse(n, k) {}
    }
    assert Ups(m) == Ups(n) by {
      forall e ensures HasUp(m, e) <==> HasUp(n, e) {}
    }
    assert LinksOf(m) == LinksOf(n) - {c};
  }

  lemma AddedTidy(n: Nodes, d: nat, name: string, c: nat)
    requires Tidy(n) && d in n && n[d].isDir && c != 0 && Find(n, d, Cut(name)).None?
    ensures Tidy(Added(n, d, name, c))
  {
    AddedNamesIff(n, d, name, c);
    assert n[d].slots[0].nr != 0 && n[d].slots[1].nr != 0;
    hide UniqueNames;
  }

  lemma RemovedTidy(n: Nodes, d: nat, i: nat)
    requires Tidy(n) && d in n && n[d].isDir && 2 <= i < |n[d].slots|
    ensures Tidy(Removed(n, d, i))
  {
    assert UniqueNames(n[d].slots);
    assert UniqueNames(n[d].slots[i := n[d].slots[i].(nr := 0)]);
    hide UniqueNames;
  }

  // "." and ".." are always found.
  lemma DotsFound(n: Nodes, d: nat, name: string)
    requires Tidy(n) && d in n && n[d].isDir
    ensures Find(n, d, ".") == Some(0) && Find(n, d, "..") == Some(1)
    ensures Find(n, d, name).Some? && Find(n, d, name).value < 2 ==> name == "." || name == ".."
  {
    assert DirShape(d, n[d].slots) && UniqueNames(n[d].slots);
    FindFromSound(n[d].slots, ".", 0);
    FindFromSound(n[d].slots, "..", 0);
    FindFromSound(n[d].slots, name, 0);
  }

  lemma {:induction false} InUseTwo(slots: seq<Slot>)
    requires |slots| >= 2 && slots[0].nr != 0 && slots[1].nr != 0
    ensures CountInUse(slots) >= 2
    ensures CountInUse(slots) == 2 <==> forall i :: 2 <= i < |slots| ==> slots[i].nr == 0
    decreases |slots|
  {
    var init := slots[..|slots| - 1];
    if |slots| > 2 {
      InUseTwo(init);
      assert forall i :: 2 <= i < |init| ==> slots[i] == init[i];
    } else {
      assert init == [slots[0]] && slots[..1][..0] == [];
      assert CountInUse(init) == 1;
    }
  }

  // An inode, seen in the graph.
  lemma NodeInGraph(n: Nodes, c: nat)
    requires Tidy(n)
    ensures c in GraphOf(n).links <==> c in n
    ensures c in n ==> c != 0 && GraphOf(n).links[c] == n[c].nlinks && (c in GraphOf(n).up <==> n[c].isDir)
    ensures c in n && n[c].isDir ==> |n[c].slots| >= 2 && n[c].slots[0].nr == c && n[c].slots[1].nr == GraphOf(n).up[c]
  {
    hide UniqueNames;
  }

  lemma MkdirGraph(n: Nodes, d: nat, name: string, c: nat)
    requires Tidy(n) && d in n && n[d].isDir && n[d].nlinks < LINK_LIMIT - 1 && c != 0 && c !in n
    requires Find(n, d, name).None? && name != ""
    ensures var g, i := GraphOf(n), FreeSlot(n, d);
      2 <= i && (d, i) !in g.uses && d in g.links && GraphOf(Mkdir(n, d, name, c, true)) == Grown(g, d, i, c)
  {
    hide GraphOf, FreeSlot, Find, UniqueNames;
    NodeInGraph(n, d);
    AddedGraph(n, d, name, c);
    hide Tidy, Shaped;
    var m := Added(n, d, name, c);
    RelinkedGraph(m, d, Inc(n[d].nlinks));
    NewDirGraph(Relinked(m, d, Inc(n[d].nlinks)), c, d);
  }

  lemma MkdirTidy(n: Nodes, d: nat, name: string, c: nat)
    requires Tidy(n) && d in n && n[d].isDir && d != 0 && c != 0 && c !in n && Find(n, d, Cut(name)).None?
    ensures Tidy(Mkdir(n, d, name, c, true))
  {
    AddedTidy(n, d, name, c);
  }

  lemma MkdirKeeps(n: Nodes, d: nat, name: string, c: nat, allowed: bool)
    requires Inv(n) && d in n && n[d].isDir && n[d].nlinks < LINK_LIMIT - 1 && c != 0 && c !in n
    requires !Clashes(n, d, name)
    ensures Inv(Mkdir(n, d, name, c, allowed))
  {
    hide Good, Tidy, GraphOf;
    if allowed && name != "" && Find(n, d, name).None? {
      NodeInGraph(n, d);
      NodeInGraph(n, c);
      MkdirGraph(n, d, name, c);
      MkdirTidy(n, d, name, c);
      GrownGood(GraphOf(n), d, FreeSlot(n, d), c);
    }
  }

  lemma CreateKeeps(n: Nodes, d: nat, name: string, c: nat, allowed: bool)
    requires Inv(n) && d in n && n[d].isDir && c != 0 && c !in n
    requires !Clashes(n, d, name)
    ensures Inv(Create(n, d, name, c, allowed))
  {
    hide Good, GraphOf, FreeSlot, Find;
    if allowed && name != "" && Find(n, d, name).None? {
      NodeInGraph(n, d);
      NodeInGraph(n, c);
      UpsAreNodes(GraphOf(n));
      AddedGraph(n, d, name, c);
      AddedTidy(n, d, name, c);
      NewFileGraph(Added(n, d, name, c), c, 1);
      EnteredGood(GraphOf(n), d, FreeSlot(n, d), c, 1);
      hide UniqueNames;
    }
  }

  lemma UpsAreNodes(g: Graph)
    requires Good(g)
    ensures forall d :: d in g.up ==> d in g.links
  {
    hide Closed, Linked, Placed, Counted, Rooted;
  }

  lemma LinkKeeps(n: Nodes, d: nat, name: string, c: nat, allowed: bool)
    requires Inv(n) && d in n && n[d].isDir && c in n && n[c].nlinks < LINK_LIMIT - 1
    requires !Clashes(n, d, name)
    ensures Inv(Link(n, d, name, c, allowed))
  {
    hide Good, GraphOf, FreeSlot, Find;
    if allowed && name != "" && !n[c].isDir && Find(n, d, name).None? {
      NodeInGraph(n, d);
      NodeInGraph(n, c);
      AddedGraph(n, d, name, c);
      AddedTidy(n, d, name, c);
      RelinkedGraph(Added(n, d, name, c), c, Inc(n[c].nlinks));
      EnteredGood(GraphOf(n), d, FreeSlot(n, d), c, n[c].nlinks + 1);
      hide UniqueNames;
    }
  }

  lemma UnlinkGraph(n: Nodes, d: nat, i: nat, c: nat)
    requires Tidy(n) && d in n && 2 <= i < |n[d].slots| && c in n && 0 < n[c].nlinks < LINK_LIMIT && !n[c].isDir &&
      d != c
    ensures var m := Relinked(Removed(n, d, i), c, Dec(n[c].nlinks));
      c in GraphOf(n).links && GraphOf(n).links[c] > 0
      && GraphOf(if m[c].nlinks == 0 then m - {c} else m) == Left(GraphOf(n), d, i, c)
  {
    hide GraphOf, UniqueNames;
    NodeInGraph(n, c);
    assert n[c].slots == [];
    hide Tidy, Shaped;
    RemovedGraph(n, d, i);
    var r := Removed(n, d, i);
    RelinkedGraph(r, c, Dec(n[c].nlinks));
    var m := Relinked(r, c, Dec(n[c].nlinks));
    if m[c].nlinks == 0 {
      GoneFileGraph(m, c);
    }
  }

  // What the entry found by name is, in the graph.
  lemma FoundOrdinary(n: Nodes, d: nat, name: string)
    requires Inv(n) && d in n && n[d].isDir && Find(n, d, name).Some? && name != "." && name != ".."
    ensures var i := Find(n, d, name).value;
      2 <= i < |n[d].slots| && Ordinary(GraphOf(n), d, i, n[d].slots[i].nr)
    ensures var c := n[d].slots[Find(n, d, name).value].nr; c in n && c != 0 && c != d
  {
    DotsFound(n, d, name);
    FindFromSound(n[d].slots, name, 0);
    hide Tidy, Good;
    var i := Find(n, d, name).value;
    var c := n[d].slots[i].nr;
    assert InUse(n, (d, i));
    NamedInGraph(GraphOf(n), d, i, c);
  }

  lemma NamedInGraph(g: Graph, d: nat, i: nat, c: nat)
    requires Good(g) && Ordinary(g, d, i, c)
    ensures c in g.links && c != d && (c in g.up ==> g.up[c] == d && c != ROOT)
  {
    hide Closed, Counted, Placed, Dotted;
    assert c in g.links && (c in g.up ==> g.up[c] == d && c != ROOT);
    hide Linked;
    if c == d && c in g.up {
      NoLoop(g.up, c);
    }
    hide Rooted;
    assert c !in g.up ==> c != d by { OnlyDirs(g, d, i); }
  }

  lemma OnlyDirs(g: Graph, d: nat, i: nat)
    requires Dotted(g) && (d, i) in g.uses
    ensures d in g.up
  {}

  // A directory other than the root is not its own parent.
  lemma NoLoop(up: map<nat, nat>, c: nat)
    requires Rooted(up) && c in up && up[c] == c
    ensures c == ROOT
  {
    assert Reaches(up, c);
    var k: nat :| Climbs(up, c, k);
    LoopClimbs(up, c, k);
  }

  lemma {:induction false} LoopClimbs(up: map<nat, nat>, c: nat, k: nat)
    requires c in up && up[c] == c && Climbs(up, c, k)
    ensures c == ROOT
    decreases k
  {
    if c != ROOT {
      LoopClimbs(up, c, k - 1);
    }
  }

  lemma UnlinkKeeps(n: Nodes, d: nat, name: string, allowed: bool)
    requires Inv(n) && d in n && n[d].isDir && forall c :: c in n ==> n[c].nlinks < LINK_LIMIT
    ensures Inv(Unlink(n, d, name, allowed))
  {
    hide Good, GraphOf, Tidy, Find;
    if allowed && name != "" && Find(n, d, name).Some? {
      if name == "." || name == ".." {
        DotsFound(n, d, name);
        DotsAreDirs(n, d);
      } else {
        FoundOrdinary(n, d, name);
        var i := Find(n, d, name).value;
        var c := n[d].slots[i].nr;
        NodeInGraph(n, c);
        if !n[c].isDir {
          LeftGood(GraphOf(n), d, i, c);
          UnlinkGraph(n, d, i, c);
          RemovedTidy(n, d, i);
          UnlinkTidy(Removed(n, d, i), c, Dec(n[c].nlinks));
        }
      }
    }
  }

  lemma UnlinkTidy(n: Nodes, c: nat, nlinks: nat)
    requires Tidy(n) && c in n
    ensures Tidy(Relinked(n, c, nlinks)) && Tidy(Relinked(n, c, nlinks) - {c})
  {
    hide UniqueNames;
  }

  lemma DotsAreDirs(n: Nodes, d: nat)
    requires Inv(n) && d in n && n[d].isDir
    ensures |n[d].slots| >= 2 && n[d].slots[0].nr == d && n[d].slots[1].nr in n && n[n[d].slots[1].nr].isDir
  {
    NodeInGraph(n, d);
    hide Tidy, GraphOf;
    ParentIn(GraphOf(n).up, d);
    UpsAreNodes(GraphOf(n));
    NodeInGraph(n, n[d].slots[1].nr);
  }

  // Only "." and ".." in use, said of the slots and of the graph.
  lemma EmptyDir(n: Nodes, c: nat)
    requires Tidy(n) && c in n && n[c].isDir
    ensures CountInUse(n[c].slots) == 2 <==> Empty(GraphOf(n), c)
    ensures CountInUse(n[c].slots) == 2 <==> forall i :: 2 <= i < |n[c].slots| ==> n[c].slots[i].nr == 0
  {
    assert DirShape(c, n[c].slots);
    hide Tidy;
    InUseTwo(n[c].slots);
    if Empty(GraphOf(n), c) {
      forall i | 2 <= i < |n[c].slots| ensures n[c].slots[i].nr == 0 {
        assert !InUse(n, (c, i));
      }
    }
    if CountInUse(n[c].slots) == 2 {
      forall i: nat | 2 <= i ensures (c, i) !in Uses(n) {
        assert !InUse(n, (c, i));
      }
    }
  }

  // A directory that has a subdirectory, or is itself the root, is not an empty other one.
  lemma ParentNotEmpty(n: Nodes, d: nat)
    requires Inv(n) && d in n && n[d].isDir
    ensures |n[d].slots| >= 2 && n[d].slots[1].nr in n
    ensures n[d].slots[1].nr != d ==> CountInUse(n[n[d].slots[1].nr].slots) != 2
  {
    DotsAreDirs(n, d);
    var p := n[d].slots[1].nr;
    NodeInGraph(n, d);
    EmptyDir(n, p);
    if p != d {
      hide Tidy, GraphOf;
      OwnNotRoot(GraphOf(n), d);
    }
  }

  lemma OwnNotRoot(g: Graph, d: nat)
    requires Good(g) && d in g.up && g.up[d] != d
    ensures !Empty(g, g.up[d])
  {
    hide Linked, Counted, Rooted, Dotted;
    assert d != ROOT;
    assert HasEntry(g, d);
    var i :| Ordinary(g, g.up[d], i, d);
  }

  // rmdir takes only an ordinary entry of an empty directory, whose link count is 2.
  lemma RmdirAsserts(n: Nodes, d: nat, name: string)
    requires Inv(n) && d in n && n[d].isDir && Find(n, d, name).Some?
    ensures var i := Find(n, d, name).value; i < |n[d].slots| && n[d].slots[i].nr in n
    ensures var i := Find(n, d, name).value; var c := n[d].slots[i].nr;
      (c != d && n[c].isDir && CountInUse(n[c].slots) == 2) ==>
        name != "." && name != ".." && n[c].nlinks == 2 && n[d].nlinks > 2
  {
    hide Good, GraphOf, Tidy, Find;
    DotsFound(n, d, name);
    DotsAreDirs(n, d);
    ParentNotEmpty(n, d);
    if name != "." && name != ".." {
      FoundOrdinary(n, d, name);
      var i := Find(n, d, name).value;
      var c := n[d].slots[i].nr;
      NodeInGraph(n, c);
      NodeInGraph(n, d);
      if n[c].isDir && CountInUse(n[c].slots) == 2 {
        EmptyDir(n, c);
        ShrunkGood(GraphOf(n), d, i, c);
      }
    }
  }

  lemma RmdirGraph(n: Nodes, d: nat, i: nat, c: nat)
    requires Tidy(n) && d in n && 2 <= i < |n[d].slots| && c in n && n[c].isDir && d != c &&
      0 < n[d].nlinks < LINK_LIMIT
    requires CountInUse(n[c].slots) == 2
    ensures d in GraphOf(n).links && GraphOf(n).links[d] > 0
    ensures GraphOf(Relinked(Removed(n, d, i), d, Dec(n[d].nlinks)) - {c}) == Shrunk(GraphOf(n), d, i, c)
  {
    hide GraphOf, Tidy;
    NodeInGraph(n, d);
    EmptyDir(n, c);
    RemovedGraph(n, d, i);
    var r := Removed(n, d, i);
    RelinkedGraph(r, d, Dec(n[d].nlinks));
    GoneDirGraph(Relinked(r, d, Dec(n[d].nlinks)), c);
    ThreeGone(GraphOf(n).uses, (d, i), (c, 0), (c, 1));
  }

  lemma ThreeGone(uses: map<(nat, nat), nat>, a: (nat, nat), b: (nat, nat), c: (nat, nat))
    ensures uses - {a} - {b, c} == uses - {a, b, c}
  {}

  lemma RmdirKeeps(n: Nodes, d: nat, name: string, busy: bool, allowed: bool)
    requires Inv(n) && d in n && n[d].isDir && forall c :: c in n ==> n[c].nlinks < LINK_LIMIT
    ensures Inv(Rmdir(n, d, name, busy, allowed))
  {
    hide Good, GraphOf, Tidy, Find;
    if allowed && name != "" && Find(n, d, name).Some? {
      RmdirAsserts(n, d, name);
      var i := Find(n, d, name).value;
      var c := n[d].slots[i].nr;
      if c != d && n[c].isDir && !busy && CountInUse(n[c].slots) == 2 {
        FoundOrdinary(n, d, name);
        NodeInGraph(n, c);
        EmptyDir(n, c);
        ShrunkGood(GraphOf(n), d, i, c);
        RmdirGraph(n, d, i, c);
        RemovedTidy(n, d, i);
        RmdirTidy(Removed(n, d, i), d, Dec(n[d].nlinks), c);
      }
    }
  }

  lemma RmdirTidy(n: Nodes, d: nat, nlinks: nat, c: nat)
    requires Tidy(n) && d in n
    ensures Tidy(Relinked(n, d, nlinks) - {c})
  {
    hide UniqueNames;
  }

  // ------------------------------------------------------------------- runs

  datatype Op =
    | DoMkdir(d: nat, name: string, c: nat, allowed: bool)
    | DoRmdir(d: nat, name: string, busy: bool, allowed: bool)
    | DoLink(d: nat, name: string, c: nat, allowed: bool)
    | DoUnlink(d: nat, name: string, allowed: bool)
    | DoCreate(d: nat, name: string, c: nat, allowed: bool)

  // The parent was resolved to a directory; ialloc hands out a number that is not
  // in use; no link count is about to wrap.
  ghost predicate Callable(n: Nodes, op: Op) {
    && op.d in n && n[op.d].isDir && (forall x :: x in n ==> n[x].nlinks < LINK_LIMIT - 1)
    && (op.DoMkdir? || op.DoCreate? ==> op.c != 0 && op.c !in n)
    && (op.DoLink? ==> op.c in n)
  }

  // The call adds a name of which something is cut off, and what is left is there already.
  predicate Doubles(n: Nodes, op: Op)
    requires op.d in n && (op.DoLink? ==> op.c in n)
  {
    && (op.DoMkdir? || op.DoCreate? || (op.DoLink? && !n[op.c].isDir))
    && op.allowed && op.name != "" && Clashes(n, op.d, op.name)
  }

  ghost predicate Enabled(n: Nodes, op: Op) {
    Callable(n, op) && !Doubles(n, op)
  }

  lemma EnabledCallable(n: Nodes, op: Op)
    requires Enabled(n, op)
    ensures Callable(n, op)
  {}

  ghost function Step(n: Nodes, op: Op): Nodes
    requires Callable(n, op)
  {
    match op
    case DoMkdir(d, name, c, allowed) => Mkdir(n, d, name, c, allowed)
    case DoRmdir(d, name, busy, allowed) => Rmdir(n, d, name, busy, allowed)
    case DoLink(d, name, c, allowed) => Link(n, d, name, c, allowed)
    case DoUnlink(d, name, allowed) => Unlink(n, d, name, allowed)
    case DoCreate(d, name, c, allowed) => Create(n, d, name, c, allowed)
  }

  lemma StepKeeps(n: Nodes, op: Op)
    requires Inv(n) && Enabled(n, op)
    ensures Inv(Step(n, op))
  {
    hide Inv, Rmdir, Unlink, Find;
    match op
    case DoMkdir(d, name, c, allowed) =>
      if allowed && name != "" && Find(n, d, name).None? { MkdirKeeps(n, d, name, c, allowed); }
    case DoRmdir(d, name, busy, allowed) => RmdirKeeps(n, d, name, busy, allowed);
    case DoLink(d, name, c, allowed) =>
      if allowed && name != "" && Find(n, d, name).None? && !n[c].isDir { LinkKeeps(n, d, name, c, allowed); }
    case DoUnlink(d, name, allowed) => UnlinkKeeps(n, d, name, allowed);
    case DoCreate(d, name, c, allowed) =>
      if allowed && name != "" && Find(n, d, name).None? { CreateKeeps(n, d, name, c, allowed); }
  }

  lemma InvNames(n: Nodes, d: nat)
    requires Inv(n) && d in n
    ensures d != 0 && UniqueNames(n[d].slots)
  {
    hide GraphOf, Good;
  }

  // A directory with the slots of the adding has two entries of one name.
  lemma DoubledNames(n: Nodes, d: nat, name: string, c: nat, m: Nodes)
    requires Inv(n) && d in n && Clashes(n, d, name) && c != 0
    requires d in m && m[d].slots == Added(n, d, name, c)[d].slots
    ensures !Inv(m)
  {
    hide Inv, Added, UniqueNames, Find;
    InvNames(n, d);
    AddedNamesIff(n, d, name, c);
    if Inv(m) {
      InvNames(m, d);
    }
  }

  // A call keeps the invariant just when it does not add a name, cut short, that is there already.
  lemma StepKeepsIff(n: Nodes, op: Op)
    requires Inv(n) && Callable(n, op)
    ensures Inv(Step(n, op)) <==> !Doubles(n, op)
  {
    hide Inv, Find, Written, FreeSlot, Cut;
    if Doubles(n, op) {
      if op.DoLink? {
        InvNames(n, op.c);
      }
      DoubledNames(n, op.d, op.name, op.c, Step(n, op));
    } else {
      StepKeeps(n, op);
    }
  }

  // A name of at most 13 characters never does that; a longer one does the second time: its
  // directory has two entries of one name.
  lemma LongNameTwice(n: Nodes, d: nat, name: string, c: nat, c': nat)
    requires Inv(n) && Enabled(n, DoMkdir(d, name, c, true)) && Find(n, d, name).None? && |name| >= NAME_LEN
    requires n[d].nlinks < LINK_LIMIT - 2 && c' != 0 && c' !in n && c' != c
    ensures var m := Mkdir(n, d, name, c, true);
      Inv(m) && Callable(m, DoMkdir(d, name, c', true)) && !Inv(Mkdir(m, d, name, c', true))
  {
    hide Inv, UniqueNames, Written, FindFrom, Cut;
    var m := Mkdir(n, d, name, c, true);
    StepKeeps(n, DoMkdir(d, name, c, true));
    LongNameLost(n[d].slots, FreeSlot(n, d), name, c);
    StepKeepsIff(m, DoMkdir(d, name, c', true));
  }

  lemma LongNameLost(slots: seq<Slot>, i: nat, name: string, c: nat)
    requires |name| >= NAME_LEN && FindFrom(slots, name, 0).None? && i <= |slots| && c != 0
    ensures var r := Written(slots, i, Slot(c, Cut(name)));
      FindFrom(r, name, 0).None? && FindFrom(r, Cut(name), 0).Some?
  {
    var r := Written(slots, i, Slot(c, Cut(name)));
    FindFromSound(slots, name, 0);
    FindFromSound(r, name, 0);
    FindFromSound(r, Cut(name), 0);
    assert r[i] == Slot(c, Cut(name));
  }

  // n is reached from the root directory alone by a run of calls.
  ghost predicate EnabledRun(n: Nodes, ops: seq<Op>)
    decreases |ops|
  {
    ops == [] || (Enabled(n, ops[0]) && EnabledRun(Step(n, ops[0]), ops[1..]))
  }

  ghost function Run(n: Nodes, ops: seq<Op>): Nodes
    requires EnabledRun(n, ops)
    decreases |ops|
  {
    if ops == [] then n else Run(Step(n, ops[0]), ops[1..])
  }

  // What mkfs leaves: the root directory, naming itself twice.
  function NewDevice(): Nodes {
    map[ROOT := NewDir(ROOT, ROOT)]
  }

  lemma NewDeviceGraph()
    ensures GraphOf(NewDevice())
         == Graph(map[ROOT := ROOT], map[(ROOT, 0) := ROOT, (ROOT, 1) := ROOT], map[ROOT := 2])
  {
    hide Ups, Uses, LinksOf, Cells;
    var n := NewDevice();
    forall k ensures InUse(n, k) <==> k == (ROOT, 0) || k == (ROOT, 1) {
      assert k == (k.0, k.1);
    }
    assert Uses(n) == map[(ROOT, 0) := ROOT, (ROOT, 1) := ROOT];
    assert Ups(n) == map[ROOT := ROOT];
    assert LinksOf(n) == map[ROOT := 2];
  }

  lemma NewDeviceGood()
    ensures Inv(NewDevice())
  {
    hide GraphOf, Tidy, Linked, Placed, Closed, Dotted, Counted, Rooted, NewDevice;
    NewDeviceGraph();
    NewDeviceTidy();
    NothingOrdinary(GraphOf(NewDevice()));
    JustTheRoot(GraphOf(NewDevice()));
  }

  lemma NewDeviceTidy()
    ensures Tidy(NewDevice())
  {}

  lemma JustTheRoot(g: Graph)
    requires g == Graph(map[ROOT := ROOT], map[(ROOT, 0) := ROOT, (ROOT, 1) := ROOT], map[ROOT := 2])
    ensures Closed(g.up) && Dotted(g) && Counted(g) && Rooted(g.up)
  {
    assert Closed(g.up) && Rooted(g.up) by {
      assert Climbs(g.up, ROOT, 0);
    }
    assert Subdirs(g.up, ROOT) == {};
    hide Climbs, Rooted, Closed;
  }

  lemma NothingOrdinary(g: Graph)
    requires g.up == map[ROOT := ROOT] && g.uses == map[(ROOT, 0) := ROOT, (ROOT, 1) := ROOT]
    ensures Linked(g) && Placed(g)
  {
    forall d, i, c ensures !Ordinary(g, d, i, c) {}
    LinkedIfNone(g);
  }

  lemma LinkedIfNone(g: Graph)
    requires forall d, i, c :: !Ordinary(g, d, i, c)
    ensures Linked(g)
  {
    hide Ordinary;
  }

  lemma {:induction false} RunKeepsFrom(n: Nodes, ops: seq<Op>)
    requires Inv(n) && EnabledRun(n, ops)
    ensures Inv(Run(n, ops))
    decreases |ops|
  {
    hide Inv, Callable, Doubles, Step;
    if ops != [] {
      StepKeeps(n, ops[0]);
      RunKeepsFrom(Step(n, ops[0]), ops[1..]);
    }
  }

  // Every link count is the number of entries that name the inode.
  ghost predicate CountsAreEntries(n: Nodes) {
    forall c :: c in n ==> n[c].nlinks == |EntriesOf(GraphOf(n).uses, c)|
  }

  // A directory's is 2 and one for each subdirectory.
  ghost predicate CountsAreSubdirs(n: Nodes) {
    forall c :: c in n && n[c].isDir ==> n[c].nlinks == 2 + |Subdirs(GraphOf(n).up, c)|
  }

  // After any run of calls names are unique, the directories form a tree below the
  // root, and the link counts are exact.
  lemma RunKeeps(ops: seq<Op>)
    requires EnabledRun(NewDevice(), ops)
    ensures var n := Run(NewDevice(), ops);
      Inv(n) && Tidy(n) && Rooted(GraphOf(n).up) && CountsAreEntries(n) && CountsAreSubdirs(n)
  {
    hide *;
    NewDeviceGood();
    RunKeepsFrom(NewDevice(), ops);
    InvMeans(Run(NewDevice(), ops));
  }

  lemma InvMeans(n: Nodes)
    requires Inv(n)
    ensures Tidy(n) && Rooted(GraphOf(n).up) && CountsAreEntries(n) && CountsAreSubdirs(n)
  {
    hide Tidy, GraphOf, Linked, Closed, Placed, Dotted, EntriesOf, Subdirs, Rooted;
    forall c | c in n ensures n[c].nlinks == |EntriesOf(GraphOf(n).uses, c)| {
      CountsMean(n, c);
    }
    forall c | c in n && n[c].isDir ensures n[c].nlinks == 2 + |Subdirs(GraphOf(n).up, c)| {
      NodeInGraph(n, c);
    }
  }

  lemma CountsMean(n: Nodes, c: nat)
    requires Inv(n) && c in n
    ensures n[c].nlinks == |EntriesOf(GraphOf(n).uses, c)|
  {
    hide Tidy, GraphOf, Linked, Closed, Placed, Rooted, Dotted;
    NodeInGraph(n, c);
    if c in GraphOf(n).up {
      DirLinksAreEntries(GraphOf(n), c);
    }
  }
}
