// Whose child a task is: over every run of src/kernel/task.c a task's parent is the nearest of
// its ancestors by birth that has not died.
module Ancestors {
  import opened Lists
  import opened Processes
  import opened Wrappers

  // Each task's ancestors by birth that are alive, the nearest first.
  type Lines = map<nat, seq<nat>>

  // A child's line begins with the task that forks it; whoever dies leaves all lines.
  function LinesStep(t: Table, a: Lines, e: Event): Lines
    requires Enabled(t, e)
  {
    match e
    case DoFork(p) => if p in a then a[FreeFrom(t, 0) := [p] + a[p]] else a
    case DoExit(p, _) => Fewer(a, p)
    case DoWait(p, pid) =>
      var dead := DeadFrom(t, p, pid, 2);
      if dead.Some? then a - {dead.value} else a
    case DoBlock(_) => a
    case DoWake(_) => a
  }

  predicate Heads(t: Table, a: Lines, i: nat)
    requires Has(t, i) && i in a
  {
    i == 0 || (t[i].value.ppid in a && a[i] == [t[i].value.ppid] + a[t[i].value.ppid])
  }

  ghost predicate Follows(t: Table, a: Lines) {
    && (forall i: nat :: i in a <==> Has(t, i)) && Has(t, 0) && a[0] == []
    && (forall i: nat :: Has(t, i) && i in a ==> Heads(t, a, i))
  }

  // The rest of a line is the line of whoever is on it.
  lemma {:induction false} LineTail(t: Table, a: Lines, i: nat, k: nat)
    requires Follows(t, a) && Has(t, i) && i in a && k < |a[i]|
    ensures a[i][k] in a && a[a[i][k]] == a[i][k + 1..]
    decreases k
  {
    assert Heads(t, a, i);
    var p := t[i].value.ppid;
    if k > 0 {
      assert a[i][k] == a[p][k - 1] && a[i][k + 1..] == a[p][k..];
      LineTail(t, a, p, k - 1);
    }
  }

  lemma NotOwnAncestor(t: Table, a: Lines, i: nat)
    requires Follows(t, a) && Has(t, i) && i in a
    ensures i !in a[i]
  {
    if k :| 0 <= k < |a[i]| && a[i][k] == i {
      LineTail(t, a, i, k);
    }
  }

  // Nobody dead is on a line.
  lemma {:induction false} LineAlive(t: Table, a: Lines, i: nat, k: nat)
    requires Inv(t) && Follows(t, a) && Has(t, i) && i in a && k < |a[i]|
    ensures Alive(t, a[i][k])
    decreases k
  {
    assert Heads(t, a, i) && ParentAlive(t, i);
    if k > 0 {
      assert a[i][k] == a[t[i].value.ppid][k - 1];
      LineAlive(t, a, t[i].value.ppid, k - 1);
    }
  }

  lemma ForkFollows(t: Table, a: Lines, p: nat)
    requires Inv(t) && Follows(t, a) && Enabled(t, DoFork(p))
    ensures Follows(Fork(t, p), LinesStep(t, a, DoFork(p)))
  {
    var m, b := Fork(t, p), LinesStep(t, a, DoFork(p));
    assert Has(t, p);
    forall i: nat | Has(m, i) && i in b ensures Heads(m, b, i) {
      if i != FreeFrom(t, 0) {
        assert Heads(t, a, i) && ParentAlive(t, i);
      }
    }
  }

  lemma ExitFollows(t: Table, a: Lines, p: nat, status: int)
    requires Inv(t) && Follows(t, a) && Enabled(t, DoExit(p, status))
    ensures Follows(Exit(t, p, status), LinesStep(t, a, DoExit(p, status)))
  {
    hide Exit, Inv, Without, Heads;
    var m := Exit(t, p, status);
    RootedSlots(t);
    ExitSlots(t, p, status);
    assert Has(t, p) && Has(t, 0);
    NotOwnAncestor(t, a, p);
    assert Heads(t, a, p);
    WithoutAbsent(a[0], p);
    forall i: nat | Has(m, i) ensures i in a && Heads(m, Fewer(a, p), i) {
      assert Has(t, i) && Heads(t, a, i);
      ExitHeads(t, m, a, p, i);
    }
    FewerFollows(t, m, a, p);
  }

  function Fewer(a: Lines, p: nat): Lines {
    map i | i in a :: Without(a[i], p)
  }

  lemma FewerFollows(t: Table, m: Table, a: Lines, p: nat)
    requires Follows(t, a) && Without(a[0], p) == [] && forall i: nat :: Has(m, i) <==> Has(t, i)
    requires forall i: nat :: Has(m, i) ==> i in a && Heads(m, Fewer(a, p), i)
    ensures Follows(m, Fewer(a, p))
  {
    hide Without, Heads, Has;
  }

  lemma RootedSlots(t: Table)
    requires Inv(t)
    ensures Has(t, 1) && t[1].value.ppid == 0
  {}

  // A child of p comes to be one of p's parent.
  lemma ExitHeads(t: Table, m: Table, a: Lines, p: nat, i: nat)
    requires Has(t, p) && Has(t, i) && Has(m, i) && p in a && i in a && p != 0
    requires Heads(t, a, p) && Heads(t, a, i) && p !in a[p]
    requires m[i].value.ppid == ParentAfter(t, p, i) && (i != 0 && t[i].value.ppid == p ==> i >= 2)
    ensures Heads(m, Fewer(a, p), i)
  {
    hide Without;
    if i != 0 {
      var b := Fewer(a, p);
      var q, r := t[i].value.ppid, t[p].value.ppid;
      LineWithout(q, a[q], p);
      if q == p {
        assert r == a[p][0] && forall x :: x in a[r] ==> x in a[p];
        WithoutAbsent(a[r], p);
        assert b[i] == a[p] && b[r] == a[r];
      } else {
        assert b[i] == [q] + b[q];
      }
    }
  }

  lemma LineWithout(q: nat, s: seq<nat>, p: nat)
    ensures Without([q] + s, p) == if q == p then s else [q] + Without(s, p)
  {
    assert ([q] + s)[1..] == s;
  }

  lemma CollectFollows(t: Table, a: Lines, c: nat)
    requires Inv(t) && Follows(t, a) && Has(t, c) && !Alive(t, c) && c >= 2
    ensures Follows(t[c := None], a - {c})
  {
    var m, b := t[c := None], a - {c};
    forall i: nat | Has(m, i) && i in b ensures Heads(m, b, i) {
      assert Has(t, i) && Heads(t, a, i) && ParentAlive(t, i);
    }
  }

  lemma StateFollows(t: Table, a: Lines, p: nat, s: State)
    requires Follows(t, a) && Has(t, p)
    ensures Follows(WithState(t, p, s), a)
  {
    var m := WithState(t, p, s);
    forall i: nat | Has(m, i) && i in a ensures Heads(m, a, i) {
      assert Has(t, i) && Heads(t, a, i);
    }
  }

  lemma StepFollows(t: Table, a: Lines, e: Event)
    requires Inv(t) && Follows(t, a) && Enabled(t, e)
    ensures Follows(Step(t, e), LinesStep(t, a, e))
  {
    hide Inv, Follows, Fork, Exit;
    match e
    case DoFork(p) => ForkFollows(t, a, p);
    case DoExit(p, status) => ExitFollows(t, a, p, status);
    case DoWait(p, pid) =>
      var dead := DeadFrom(t, p, pid, 2);
      if dead.Some? {
        CollectFollows(t, a, dead.value);
      } else if AnyFrom(t, p, pid, 2) {
        StateFollows(t, a, p, Waiting(pid));
      }
    case DoBlock(p) => StateFollows(t, a, p, Blocked);
    case DoWake(p) => StateFollows(t, a, p, Ready);
  }

  ghost function LinesRun(t: Table, a: Lines, es: seq<Event>): Lines
    requires EnabledRun(t, es)
    decreases |es|
  {
    if es == [] then a else LinesRun(Step(t, es[0]), LinesStep(t, a, es[0]), es[1..])
  }

  // Over every run each task but idle has its nearest living ancestor by birth as its parent, and
  // nobody on a line is dead.
  lemma {:induction false} NearestAncestor(t: Table, a: Lines, es: seq<Event>, i: nat)
    requires Inv(t) && Follows(t, a) && EnabledRun(t, es)
    ensures var m, b := Run(t, es), LinesRun(t, a, es);
      && Follows(m, b)
      && (Has(m, i) && i != 0 ==> i in b && b[i] != [] && m[i].value.ppid == b[i][0])
      && (Has(m, i) ==> i in b && forall k :: 0 <= k < |b[i]| ==> Alive(m, b[i][k]))
    decreases |es|
  {
    if es == [] {
      if Has(t, i) {
        assert Heads(t, a, i);
        forall k | 0 <= k < |a[i]| ensures Alive(t, a[i][k]) {
          LineAlive(t, a, i, k);
        }
      }
    } else {
      hide Inv, Follows, Step, Enabled;
      StepFollows(t, a, es[0]);
      StepKeeps(t, es[0]);
      NearestAncestor(Step(t, es[0]), LinesStep(t, a, es[0]), es[1..], i);
    }
  }

  // At boot: idle, and init below it.
  lemma BootFollows()
    ensures Follows(Boot(), map[0 := [], 1 := [0]])
  {
    var t, a: Lines := Boot(), map[0 := [], 1 := [0]];
    assert Heads(t, a, 0) && Heads(t, a, 1);
  }
}
