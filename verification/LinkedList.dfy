// src/lib/list.c: a doubly linked list between two sentinels, whose operations are those of
// Lists on the sequence of nodes. The other modules hold their lists as such sequences.
module LinkedList {
  import opened Lists

  class Node {
    var prev: Node?
    var next: Node?
    const key: int

    constructor (key: int)
      ensures this.key == key && prev == null && next == null
    {
      this.key, prev, next := key, null, null;
    }
  }

  // In no list: what list_remove leaves, and list_insert_sort asserts.
  predicate Loose(node: Node)
    reads node
  {
    node.prev == null && node.next == null
  }

  function KeyOf(): Node -> int {
    (n: Node) => n.key
  }

  class List {
    const head: Node
    const tail: Node
    ghost var all: seq<Node>         // head, the nodes, tail

    ghost function Nodes(): seq<Node>
      reads this
      requires |all| >= 2
    {
      all[1..|all| - 1]
    }

    ghost predicate Valid()
      reads this, all
    {
      && |all| >= 2 && all[0] == head && all[|all| - 1] == tail && NoDup(all)
      && head.prev == null && tail.next == null
      && (forall i :: 0 <= i < |all| - 1 ==> all[i].next == all[i + 1])
      && (forall i :: 0 < i < |all| ==> all[i].prev == all[i - 1])
    }

    // list_init
    constructor ()
      ensures Valid() && Nodes() == [] && fresh(all)
    {
      var h := new Node(0);
      var t := new Node(0);
      h.next, t.prev := t, h;
      head, tail := h, t;
      all := [h, t];
    }

    // The node at place i has neighbours, and they have it.
    lemma Around(i: nat)
      requires Valid() && 0 < i < |all| - 1
      ensures all[i].prev == all[i - 1] && all[i].next == all[i + 1]
      ensures all[i - 1].next == all[i] && all[i + 1].prev == all[i]
    {}

    // list_insert_before: node comes to stand at place i.
    method InsertBefore(anchor: Node, node: Node, ghost i: nat)
      requires Valid() && 0 < i < |all| && anchor == all[i] && node !in all
      modifies this, all[i - 1], anchor, node
      ensures Valid() && all == old(all[..i] + [node] + all[i..])
    {
      ghost var was := all;
      Spliced(was, i, node);
      assert anchor.prev == all[i - 1];
      node.prev := anchor.prev;
      node.next := anchor;
      anchor.prev.next := node;
      anchor.prev := node;
      all := all[..i] + [node] + all[i..];
      assert forall j :: 0 <= j < |was| - 1 && j != i - 1 ==> was[j].next == was[j + 1];
      assert forall j :: 0 < j < |was| && j != i ==> was[j].prev == was[j - 1];
    }

    // list_insert_after: node comes to stand behind place i.
    method InsertAfter(anchor: Node, node: Node, ghost i: nat)
      requires Valid() && i < |all| - 1 && anchor == all[i] && node !in all
      modifies this, anchor, all[i + 1], node
      ensures Valid() && all == old(all[..i + 1] + [node] + all[i + 1..])
    {
      assert anchor.next == all[i + 1];
      node.prev := anchor;
      node.next := anchor.next;
      anchor.next.prev := node;
      anchor.next := node;
      all := all[..i + 1] + [node] + all[i + 1..];
    }

    // list_remove
    method Remove(node: Node, ghost i: nat)
      requires Valid() && 0 < i < |all| - 1 && node == all[i]
      modifies this, all[i - 1], node, all[i + 1]
      ensures Valid() && all == old(all[..i] + all[i + 1..]) && Loose(node)
    {
      Around(i);
      node.prev.next := node.next;
      node.next.prev := node.prev;
      node.next := null;
      node.prev := null;
      all := all[..i] + all[i + 1..];
    }

    // list_search
    method Search(node: Node) returns (found: bool)
      requires Valid() && node != head && node != tail
      ensures found <==> node in Nodes()
    {
      var next := head.next;
      ghost var i := 1;
      while next != tail
        invariant 1 <= i < |all| && next == all[i] && node !in all[1..i]
        decreases |all| - i
      {
        if next == node {
          assert Nodes()[i - 1] == node;
          return true;
        }
        assert all[1..i + 1] == all[1..i] + [all[i]];
        next := next.next;
        i := i + 1;
      }
      assert i == |all| - 1;
      found := false;
    }

    // list_size
    method Size() returns (size: nat)
      requires Valid()
      ensures size == |Nodes()|
    {
      var next := head.next;
      size := 0;
      while next != tail
        invariant size + 1 < |all| && next == all[size + 1]
        decreases |all| - size
      {
        next := next.next;
        size := size + 1;
      }
      assert size + 1 == |all| - 1;
    }

    // list_empty
    method IsEmpty() returns (empty: bool)
      requires Valid()
      ensures empty <==> Nodes() == []
    {
      empty := head.next == tail;
      assert empty ==> all[1] == all[|all| - 1];
    }

    // list_push
    method Push(node: Node)
      requires Valid() && node !in all
      modifies this, all, node
      ensures Valid() && Nodes() == [node] + old(Nodes())
    {
      ghost var before := Nodes();
      var there := Search(node);
      assert !there;
      InsertedBetween(all, 1, node);
      assert before[..0] + [node] + before[0..] == [node] + before;
      InsertAfter(head, node, 0);
    }

    // list_pushback
    method PushBack(node: Node)
      requires Valid() && node !in all
      modifies this, all, node
      ensures Valid() && Nodes() == old(Nodes()) + [node]
    {
      ghost var before := Nodes();
      var there := Search(node);
      assert !there;
      InsertedBetween(all, |all| - 1, node);
      assert before[..|before|] + [node] + before[|before|..] == before + [node];
      InsertBefore(tail, node, |all| - 1);
    }

    // list_pop
    method Pop() returns (node: Node)
      requires Valid() && Nodes() != []
      modifies this, all
      ensures Valid() && [node] + Nodes() == old(Nodes()) && Loose(node)
    {
      ghost var before := Nodes();
      assert all[0].next == all[1];
      node := head.next;
      RemovedBetween(all, 1);
      assert before == [node] + (before[..0] + before[1..]);
      Remove(node, 1);
    }

    // list_popback
    method PopBack() returns (node: Node)
      requires Valid() && Nodes() != []
      modifies this, all
      ensures Valid() && Nodes() + [node] == old(Nodes()) && Loose(node)
    {
      ghost var before := Nodes();
      assert all[|all| - 1].prev == all[|all| - 2];
      node := tail.prev;
      RemovedBetween(all, |all| - 2);
      assert before == before[..|before| - 1] + before[|before|..] + [node];
      Remove(node, |all| - 2);
    }

    // The loop of list_insert_sort: the first node with a greater key, or the end.
    method FirstGreater(key: int) returns (anchor: Node, ghost i: nat)
      requires Valid()
      ensures 0 < i < |all| && anchor == all[i] && Rank(Nodes(), KeyOf(), key) == i - 1
    {
      ghost var nodes := Nodes();
      anchor := tail;
      var ptr := head.next;
      i := 1;
      assert all[1..|all| - 1] == nodes;
      while ptr != tail
        invariant 1 <= i < |all| && ptr == all[i] && anchor == tail
        invariant Rank(nodes, KeyOf(), key) == i - 1 + Rank(all[i..|all| - 1], KeyOf(), key)
        decreases |all| - i
      {
        assert all[i..|all| - 1][0] == ptr && all[i..|all| - 1][1..] == all[i + 1..|all| - 1];
        if ptr.key > key {
          anchor := ptr;
          return;
        }
        ptr := ptr.next;
        i := i + 1;
      }
      assert i == |all| - 1 && all[i..|all| - 1] == [];
    }

    // list_insert_sort: before the first node with a greater key.
    method InsertSort(node: Node)
      requires Valid() && node !in all && Loose(node)
      modifies this, all, node
      ensures Valid() && Nodes() == Inserted(old(Nodes()), node, KeyOf())
    {
      ghost var i;
      var anchor;
      anchor, i := FirstGreater(node.key);
      assert node.prev == null && node.next == null;
      InsertedBetween(all, i, node);
      InsertBefore(anchor, node, i);
    }
  }

  lemma Spliced(all: seq<Node>, i: nat, node: Node)
    requires NoDup(all) && node !in all && 0 < i < |all|
    ensures var t := all[..i] + [node] + all[i..];
      && NoDup(t) && |t| == |all| + 1 && t[i] == node
      && (forall j :: 0 <= j < i ==> t[j] == all[j]) && forall j :: i < j < |t| ==> t[j] == all[j - 1]
  {}

  // Between the sentinels the node stands at the same place, counted without the first.
  lemma InsertedBetween(all: seq<Node>, i: nat, node: Node)
    requires 0 < i < |all|
    ensures var s, t := all[1..|all| - 1], all[..i] + [node] + all[i..];
      t[1..|t| - 1] == s[..i - 1] + [node] + s[i - 1..]
  {}

  lemma RemovedBetween(all: seq<Node>, i: nat)
    requires 0 < i < |all| - 1
    ensures var s, t := all[1..|all| - 1], all[..i] + all[i + 1..];
      t[1..|t| - 1] == s[..i - 1] + s[i..]
  {}
}
