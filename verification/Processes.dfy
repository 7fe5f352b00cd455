// Fork, exit and wait: the task table of src/kernel/task.c. A task's pid is its slot.
module Processes {
  import opened Wrappers

  const TASK_NR := 64

  // Blocked is any state that is neither ready nor running nor waiting for a child.
  datatype State = Ready | Blocked | Waiting(pid: int) | Died(status: int)
  datatype Task = Task(ppid: nat, state: State)
  type Table = seq<Option<Task>>

  predicate Alive(t: Table, i: nat) {
    i < |t| && t[i].Some? && !t[i].value.state.Died?
  }

  predicate IsReady(t: Table, i: nat) {
    i < |t| && t[i].Some? && t[i].value.state.Ready?
  }

  // Task c is a child of p that waitpid(pid) is about.
  predicate Matches(t: Table, p: nat, pid: int, c: nat) {
    2 <= c < |t| && t[c].Some? && t[c].value.ppid == p && (pid == -1 || pid == c)
  }

  predicate DeadMatch(t: Table, p: nat, pid: int, c: nat) {
    Matches(t, p, pid, c) && t[c].value.state.Died?
  }

  // ----------------------------------------------------------- invariant

  // From task i, parents lead to the idle task in at most k steps.
  predicate Climbs(t: Table, i: nat, k: nat)
    decreases k
  {
    i == 0 || (k > 0 && i < |t| && t[i].Some? && Climbs(t, t[i].value.ppid, k - 1))
  }

  // Slots 0 and 1 are the idle and the init task, both children of idle, and never free.
  predicate Rooted(t: Table) {
    |t| == TASK_NR && Alive(t, 0) && t[0].value.ppid == 0 && t[1].Some? && t[1].value.ppid == 0
  }

  predicate Has(t: Table, i: nat) {
    i < |t| && t[i].Some?
  }

  predicate ParentAlive(t: Table, i: nat)
    requires Has(t, i)
  {
    Alive(t, t[i].value.ppid)
  }

  // Nobody's parent is dead.
  ghost predicate Parented(t: Table) {
    forall i: nat :: Has(t, i) ==> ParentAlive(t, i)
  }

  // The parents form a tree below the idle task.
  ghost predicate Tree(t: Table) {
    forall i: nat :: Has(t, i) ==> exists k: nat :: Climbs(t, i, k)
  }

  predicate Waits(t: Table, p: nat) {
    Has(t, p) && t[p].value.state.Waiting?
  }

  // A task waiting in waitpid has a child to wait for, and none it could have collected.
  ghost predicate Patient(t: Table, p: nat)
    requires Waits(t, p)
  {
    && (exists c: nat :: Matches(t, p, t[p].value.state.pid, c))
    && (forall c: nat :: !DeadMatch(t, p, t[p].value.state.pid, c))
  }

  ghost predicate NoneMissed(t: Table) {
    forall p: nat :: Waits(t, p) ==> Patient(t, p)
  }

  ghost predicate Inv(t: Table) {
    Rooted(t) && Parented(t) && Tree(t) && NoneMissed(t)
  }

  // ---------------------------------------------------------- operations

  function WithState(t: Table, i: nat, s: State): Table
    requires i < |t| && t[i].Some?
  {
    t[i := Some(t[i].value.(state := s))]
  }

  // get_free_task
  function FreeFrom(t: Table, i: nat): (r: nat)
    requires i <= |t|
    ensures i <= r <= |t| && (r < |t| ==> t[r].None?) && forall j :: i <= j < r ==> t[j].Some?
    decreases |t| - i
  {
    if i == |t| || t[i].None? then i else FreeFrom(t, i + 1)
  }

  function Fork(t: Table, p: nat): Table
    requires FreeFrom(t, 0) < |t|
  {
    t[FreeFrom(t, 0) := Some(Task(p, Ready))]
  }

  // The children of p in slots below n, but not in 0 and 1, go to parent q.
  function Reparented(t: Table, p: nat, q: nat, n: nat): (r: Table)
    requires n <= |t|
    ensures |r| == |t|
  {
    seq(|t|, i requires 0 <= i < |t| =>
      if 2 <= i < n && t[i].Some? && t[i].value.ppid == p then Some(t[i].value.(ppid := q)) else t[i])
  }

  // The end of task_exit: a parent that waits for this child is woken.
  function Notified(t: Table, p: nat, q: nat): Table
    requires q < |t| && t[q].Some?
  {
    var s := t[q].value.state;
    if s.Waiting? && (s.pid == -1 || s.pid == p) then WithState(t, q, Ready) else t
  }

  function Exit(t: Table, p: nat, status: int): Table
    requires Alive(t, p) && Alive(t, t[p].value.ppid) && t[p].value.ppid != p
  {
    var q := t[p].value.ppid;
    var d := Reparented(WithState(t, p, Died(status)), p, q, |t|);
    Notified(d, p, q)
  }

  // The first dead child that matches, from slot i on.
  function DeadFrom(t: Table, p: nat, pid: int, i: nat): (r: Option<nat>)
    requires i <= |t|
    ensures r.Some? ==> i <= r.value && DeadMatch(t, p, pid, r.value)
    ensures forall c: nat :: i <= c && (r.None? || c < r.value) ==> !DeadMatch(t, p, pid, c)
    decreases |t| - i
  {
    if i == |t| then None else if DeadMatch(t, p, pid, i) then Some(i) else DeadFrom(t, p, pid, i + 1)
  }

  predicate AnyFrom(t: Table, p: nat, pid: int, i: nat)
    requires i <= |t|
    decreases |t| - i
  {
    i < |t| && (Matches(t, p, pid, i) || AnyFrom(t, p, pid, i + 1))
  }

  lemma {:induction false} AnyFromIff(t: Table, p: nat, pid: int, i: nat)
    requires i <= |t|
    ensures AnyFrom(t, p, pid, i) <==> exists c: nat :: i <= c && Matches(t, p, pid, c)
    decreases |t| - i
  {
    if i < |t| {
      AnyFromIff(t, p, pid, i + 1);
    }
  }

  // One round of task_waitpid: collect, or block, or give up.
  function Wait(t: Table, p: nat, pid: int): Table
    requires IsReady(t, p) && |t| >= 2
  {
    var dead := DeadFrom(t, p, pid, 2);
    if dead.Some? then t[dead.value := None]
    else if AnyFrom(t, p, pid, 2) then WithState(t, p, Waiting(pid))
    else t
  }

  // ------------------------------------------------------ what they keep

  lemma {:induction false} ClimbsFork(t: Table, c: nat, task: Task, i: nat, k: nat)
    requires c < |t| && t[c].None? && Climbs(t, i, k)
    ensures Climbs(t[c := Some(task)], i, k)
    decreases k
  {
    if i != 0 {
      ClimbsFork(t, c, task, t[i].value.ppid, k - 1);
    }
  }

  lemma TreeFork(t: Table, c: nat, p: nat)
    requires Tree(t) && c < |t| && t[c].None? && Has(t, p)
    ensures Tree(t[c := Some(Task(p, Ready))])
  {
    var m := t[c := Some(Task(p, Ready))];
    forall i: nat | Has(m, i) ensures exists k: nat :: Climbs(m, i, k) {
      var from := if i == c then p else i;
      assert Has(t, from);
      var k: nat :| Climbs(t, from, k);
      ClimbsFork(t, c, Task(p, Ready), from, k);
      assert Climbs(m, i, if i == c then k + 1 else k);
    }
  }

  // Waiting goes on as before when no child that matched is gone and none that matches is newly dead.
  lemma StillPatient(t: Table, m: Table, p: nat)
    requires Waits(t, p) && Patient(t, p) && Waits(m, p) && m[p].value.state == t[p].value.state
    requires forall c: nat :: Matches(t, p, t[p].value.state.pid, c) ==> Matches(m, p, t[p].value.state.pid, c)
    requires forall c: nat :: DeadMatch(m, p, t[p].value.state.pid, c) ==> DeadMatch(t, p, t[p].value.state.pid, c)
    ensures Patient(m, p)
  {
    var c: nat :| Matches(t, p, t[p].value.state.pid, c);
    assert Matches(m, p, t[p].value.state.pid, c);
  }

  lemma ForkKeeps(t: Table, p: nat)
    requires Inv(t) && IsReady(t, p) && FreeFrom(t, 0) < |t|
    ensures Inv(Fork(t, p))
  {
    var c := FreeFrom(t, 0);
    var m := Fork(t, p);
    TreeFork(t, c, p);
    hide Tree;
    forall i: nat | Has(m, i) ensures ParentAlive(m, i) {
      assert i != c ==> Has(t, i) && ParentAlive(t, i);
    }
    forall q: nat | Waits(m, q) ensures Patient(m, q) {
      assert Waits(t, q);
      StillPatient(t, m, q);
    }
  }

  // Whose child j is after task p has exited.
  function ParentAfter(t: Table, p: nat, j: nat): nat
    requires Has(t, p) && Has(t, j)
  {
    if j >= 2 && t[j].value.ppid == p then t[p].value.ppid else t[j].value.ppid
  }

  lemma {:induction false} ClimbsExit(t: Table, m: Table, p: nat, i: nat, k: nat)
    requires |m| == |t| && p < |t| && t[p].Some? && p != 0 && Climbs(t, i, k)
    requires forall j: nat :: Has(t, j) && j != 0 ==> Has(m, j) && m[j].value.ppid == ParentAfter(t, p, j)
    ensures Climbs(m, i, k)
    decreases k
  {
    if i != 0 {
      ClimbsExit(t, m, p, t[i].value.ppid, k - 1);
      if i >= 2 && t[i].value.ppid == p {
        ClimbsExit(t, m, p, t[p].value.ppid, k - 2);
        ClimbsMore(m, t[p].value.ppid, k - 2, k - 1);
      }
    }
  }

  lemma {:induction false} ClimbsMore(t: Table, i: nat, k: nat, n: nat)
    requires Climbs(t, i, k) && k <= n
    ensures Climbs(t, i, n)
    decreases k
  {
    if i != 0 {
      ClimbsMore(t, t[i].value.ppid, k - 1, n - 1);
    }
  }

  // A task other than idle is not its own parent.
  lemma {:induction false} NoLoop(t: Table, i: nat, k: nat)
    requires Climbs(t, i, k) && i < |t| && t[i].Some? && t[i].value.ppid == i
    ensures i == 0
    decreases k
  {
    if i != 0 {
      NoLoop(t, i, k - 1);
    }
  }

  lemma ExitsParent(t: Table, p: nat)
    requires Inv(t) && Alive(t, p) && p != 0
    ensures t[p].value.ppid != p && Alive(t, t[p].value.ppid)
  {
    assert Has(t, p);
    assert ParentAlive(t, p);
    var k: nat :| Climbs(t, p, k);
    if t[p].value.ppid == p {
      NoLoop(t, p, k);
    }
  }

  // What exit does to each slot: no state changes but the task's own and that of a parent that
  // waits for it.
  ghost predicate Exited(t: Table, m: Table, p: nat, status: int)
    requires Alive(t, p)
  {
    var q := t[p].value.ppid;
    && |m| == |t| && q != p && Alive(t, q)
    && (forall j: nat :: Has(m, j) <==> Has(t, j))
    && (forall j: nat :: Has(t, j) ==> m[j].value.ppid == ParentAfter(t, p, j))
    && (forall j: nat :: Has(t, j) && j != p && j != q ==> m[j].value.state == t[j].value.state)
    && Has(m, p) && m[p].value.state == Died(status) && Has(m, q)
    && m[q].value.state == if WaitsFor(t, q, p) then Ready else t[q].value.state
  }

  // Task q is in waitpid, for child p or for any.
  predicate WaitsFor(t: Table, q: nat, p: nat) {
    Waits(t, q) && (t[q].value.state.pid == -1 || t[q].value.state.pid == p)
  }

  lemma ExitSlots(t: Table, p: nat, status: int)
    requires |t| == TASK_NR && Alive(t, p) && Alive(t, t[p].value.ppid) && t[p].value.ppid != p
    ensures Exited(t, Exit(t, p, status), p, status)
  {}

  lemma TreeExit(t: Table, m: Table, p: nat, status: int)
    requires Tree(t) && Alive(t, p) && p != 0 && Exited(t, m, p, status)
    ensures Tree(m)
  {
    forall i: nat | Has(m, i) ensures exists k: nat :: Climbs(m, i, k) {
      assert Has(t, i);
      var k: nat :| Climbs(t, i, k);
      ClimbsExit(t, m, p, i, k);
    }
  }

  // Reparenting leaves nobody with a dead parent.
  lemma ParentedExit(t: Table, m: Table, p: nat, status: int)
    requires Rooted(t) && Parented(t) && Alive(t, p) && p != 0 && Exited(t, m, p, status)
    ensures Parented(m)
  {
    forall i: nat | Has(m, i) ensures ParentAlive(m, i) {
      assert Has(t, i) && ParentAlive(t, i);
      assert m[i].value.ppid != p;
      assert Has(t, m[i].value.ppid);
    }
  }

  lemma NoneMissedExit(t: Table, m: Table, p: nat, status: int)
    requires NoneMissed(t) && Parented(t) && Alive(t, p) && p != 0 && Exited(t, m, p, status)
    ensures NoneMissed(m)
  {
    forall q: nat | Waits(m, q) ensures Patient(m, q) {
      assert Waits(t, q) && Patient(t, q) && m[q].value.state == t[q].value.state;
      var w := t[q].value.state.pid;
      var e: nat :| Matches(t, q, w, e);
      assert Has(t, e);
      assert Matches(m, q, w, e) by {
        assert e != p && q != p;
      }
      forall c: nat ensures !DeadMatch(m, q, w, c) {
        assert !DeadMatch(t, q, w, c) && (Has(m, c) <==> Has(t, c));
      }
    }
  }

  lemma ExitKeeps(t: Table, p: nat, status: int)
    requires Inv(t) && Alive(t, p) && p != 0
    ensures t[p].value.ppid != p && Alive(t, t[p].value.ppid) && Inv(Exit(t, p, status))
  {
    ExitsParent(t, p);
    ExitSlots(t, p, status);
    hide Exit;
    var m := Exit(t, p, status);
    TreeExit(t, m, p, status);
    hide Tree;
    ParentedExit(t, m, p, status);
    NoneMissedExit(t, m, p, status);
    hide NoneMissed, Parented;
    assert Has(t, 0) && Has(t, 1);
    assert Rooted(m);
  }

  lemma {:induction false} ClimbsCollect(t: Table, c: nat, i: nat, k: nat)
    requires Parented(t) && Has(t, c) && !Alive(t, c) && i != c && Climbs(t, i, k)
    ensures Climbs(t[c := None], i, k)
    decreases k
  {
    if i != 0 {
      assert ParentAlive(t, i);
      ClimbsCollect(t, c, t[i].value.ppid, k - 1);
    }
  }

  // Collecting a dead child leaves nobody without a parent and no waiter behind.
  lemma CollectKeeps(t: Table, p: nat, pid: int, c: nat)
    requires Inv(t) && IsReady(t, p) && DeadMatch(t, p, pid, c)
    ensures Inv(t[c := None])
  {
    var m := t[c := None];
    forall i: nat | Has(m, i) ensures exists k: nat :: Climbs(m, i, k) {
      assert Has(t, i);
      var k: nat :| Climbs(t, i, k);
      ClimbsCollect(t, c, i, k);
    }
    hide Tree, Climbs;
    forall i: nat | Has(m, i) ensures ParentAlive(m, i) {
      assert Has(t, i) && ParentAlive(t, i);
    }
    hide Parented;
    forall q: nat | Waits(m, q) ensures Patient(m, q) {
      assert Waits(t, q);
      StillPatient(t, m, q);
    }
  }

  // A change of state that kills nobody.
  lemma StateTree(t: Table, i: nat, s: State)
    requires Tree(t) && Has(t, i)
    ensures Tree(WithState(t, i, s))
  {
    var m := WithState(t, i, s);
    forall j: nat | Has(m, j) ensures exists k: nat :: Climbs(m, j, k) {
      assert Has(t, j);
      var k: nat :| Climbs(t, j, k);
      ClimbsState(t, i, s, j, k);
    }
  }

  lemma {:induction false} ClimbsState(t: Table, i: nat, s: State, j: nat, k: nat)
    requires Has(t, i) && Climbs(t, j, k)
    ensures Climbs(WithState(t, i, s), j, k)
    decreases k
  {
    if j != 0 {
      ClimbsState(t, i, s, t[j].value.ppid, k - 1);
    }
  }

  lemma StateKeeps(t: Table, p: nat, s: State)
    requires Inv(t) && Alive(t, p) && !s.Died?
    requires s.Waiting? ==> AnyFrom(t, p, s.pid, 2) && DeadFrom(t, p, s.pid, 2).None?
    ensures Inv(WithState(t, p, s))
  {
    var m := WithState(t, p, s);
    StateTree(t, p, s);
    hide Tree;
    forall i: nat | Has(m, i) ensures ParentAlive(m, i) {
      assert Has(t, i) && ParentAlive(t, i);
    }
    hide Parented;
    forall q: nat | Waits(m, q) ensures Patient(m, q) {
      if q == p {
        AnyFromIff(t, p, s.pid, 2);
        var c: nat :| 2 <= c && Matches(t, p, s.pid, c);
        assert Matches(m, p, s.pid, c);
        forall c: nat ensures !DeadMatch(m, p, s.pid, c) {
          assert !DeadMatch(t, p, s.pid, c);
        }
      } else {
        assert Waits(t, q);
        StillPatient(t, m, q);
      }
    }
  }

  // What a round of waitpid does: it takes the first dead child away, or waits for one of
  // those that live, or has none.
  lemma WaitDoes(t: Table, p: nat, pid: int)
    requires Inv(t) && IsReady(t, p)
    ensures forall c: nat :: DeadMatch(t, p, pid, c) && (forall b: nat :: b < c ==> !DeadMatch(t, p, pid, b)) ==>
      Wait(t, p, pid) == t[c := None]
    ensures (exists c: nat :: Matches(t, p, pid, c)) && (forall c: nat :: !DeadMatch(t, p, pid, c)) ==>
      Wait(t, p, pid) == t[p := Some(t[p].value.(state := Waiting(pid)))]
    ensures (forall c: nat :: !Matches(t, p, pid, c)) ==> Wait(t, p, pid) == t
  {
    hide Parented, Tree, NoneMissed;
    AnyFromIff(t, p, pid, 2);
    var dead := DeadFrom(t, p, pid, 2);
    forall c: nat | DeadMatch(t, p, pid, c) && forall b: nat :: b < c ==> !DeadMatch(t, p, pid, b)
      ensures dead == Some(c)
    {
      assert c >= 2 && dead.Some?;
    }
  }

  // A parent that waits for this child, or for any, is woken by its exit and then gets a
  // child: this one if it asked for it.
  lemma ExitThenWait(t: Table, p: nat, status: int)
    requires Inv(t) && Enabled(t, DoExit(p, status)) && p >= 2
    requires var q := t[p].value.ppid; Waits(t, q) && Matches(t, q, t[q].value.state.pid, p)
    ensures var (m, q) := (Exit(t, p, status), t[p].value.ppid); var pid := t[q].value.state.pid;
      && Inv(m) && IsReady(m, q) && DeadMatch(m, q, pid, p) && m[p].value.state == Died(status)
      && DeadFrom(m, q, pid, 2).Some? && (pid == p ==> Wait(m, q, pid) == m[p := None])
  {
    hide Parented, Tree, NoneMissed;
    ExitKeeps(t, p, status);
    ExitSlots(t, p, status);
    var m, q := Exit(t, p, status), t[p].value.ppid;
    var pid := t[q].value.state.pid;
    assert DeadMatch(m, q, pid, p);
  }

  // ------------------------------------------------------------------ runs

  datatype Event =
    | DoFork(p: nat)
    | DoExit(p: nat, status: int)
    | DoWait(p: nat, pid: int)       // one round: from the call, or from waking, to block or return
    | DoBlock(p: nat)
    | DoWake(p: nat)                 // by a signal, a timer or whatever was waited for

  predicate Enabled(t: Table, e: Event) {
    |t| == TASK_NR &&
    match e
    case DoFork(p) => IsReady(t, p) && FreeFrom(t, 0) < |t|
    case DoExit(p, _) => IsReady(t, p) && p != 0 && t[p].value.ppid != p && Alive(t, t[p].value.ppid)
    case DoWait(p, _) => IsReady(t, p)
    case DoBlock(p) => IsReady(t, p)
    case DoWake(p) => Alive(t, p)
  }

  function Step(t: Table, e: Event): Table
    requires Enabled(t, e)
  {
    match e
    case DoFork(p) => Fork(t, p)
    case DoExit(p, status) => Exit(t, p, status)
    case DoWait(p, pid) => Wait(t, p, pid)
    case DoBlock(p) => WithState(t, p, Blocked)
    case DoWake(p) => WithState(t, p, Ready)
  }

  lemma StepKeeps(t: Table, e: Event)
    requires Inv(t) && Enabled(t, e)
    ensures Inv(Step(t, e))
  {
    hide Inv;
    match e
    case DoFork(p) => ForkKeeps(t, p);
    case DoExit(p, status) => ExitKeeps(t, p, status);
    case DoWait(p, pid) =>
      var dead := DeadFrom(t, p, pid, 2);
      if dead.Some? {
        CollectKeeps(t, p, pid, dead.value);
      } else if AnyFrom(t, p, pid, 2) {
        StateKeeps(t, p, Waiting(pid));
      }
    case DoBlock(p) => StateKeeps(t, p, Blocked);
    case DoWake(p) => StateKeeps(t, p, Ready);
  }

  // In a good state exit finds its parent: the panic of task_tell_fater and the
  // dereference of task_table[ppid] are safe.
  lemma ExitEnabled(t: Table, p: nat, status: int)
    requires Inv(t) && IsReady(t, p) && p != 0
    ensures Enabled(t, DoExit(p, status))
  {
    ExitsParent(t, p);
  }

  ghost predicate EnabledRun(t: Table, es: seq<Event>)
    decreases |es|
  {
    es == [] || (Enabled(t, es[0]) && EnabledRun(Step(t, es[0]), es[1..]))
  }

  ghost function Run(t: Table, es: seq<Event>): Table
    requires EnabledRun(t, es)
    decreases |es|
  {
    if es == [] then t else Run(Step(t, es[0]), es[1..])
  }

  lemma {:induction false} RunKeeps(t: Table, es: seq<Event>)
    requires Inv(t) && EnabledRun(t, es)
    ensures Inv(Run(t, es))
    decreases |es|
  {
    if es != [] {
      StepKeeps(t, es[0]);
      RunKeeps(Step(t, es[0]), es[1..]);
    }
  }

  // What task_init leaves: idle and init.
  function Boot(): Table {
    [Some(Task(0, Ready)), Some(Task(0, Ready))] + seq(TASK_NR - 2, i => None)
  }

  lemma BootKeeps()
    ensures Inv(Boot())
  {
    var t := Boot();
    assert Climbs(t, 0, 0) && Climbs(t, 1, 1);
  }

  // ------------------------------------------------ each death is collected once

  function Dies(t: Table, e: Event, c: nat): nat
    requires Enabled(t, e)
  {
    if e.DoExit? && e.p == c then 1 else 0
  }

  function Collects(t: Table, e: Event, c: nat): nat
    requires Enabled(t, e)
  {
    if e.DoWait? && DeadFrom(t, e.p, e.pid, 2) == Some(c) then 1 else 0
  }

  function Zombie(t: Table, c: nat): nat {
    if Has(t, c) && !Alive(t, c) then 1 else 0
  }

  ghost function Deaths(t: Table, es: seq<Event>, c: nat): nat
    requires EnabledRun(t, es)
    decreases |es|
  {
    if es == [] then 0 else Dies(t, es[0], c) + Deaths(Step(t, es[0]), es[1..], c)
  }

  ghost function Collected(t: Table, es: seq<Event>, c: nat): nat
    requires EnabledRun(t, es)
    decreases |es|
  {
    if es == [] then 0 else Collects(t, es[0], c) + Collected(Step(t, es[0]), es[1..], c)
  }

  lemma ZombieStep(t: Table, e: Event, c: nat)
    requires Inv(t) && Enabled(t, e)
    ensures Zombie(Step(t, e), c) == Zombie(t, c) + Dies(t, e, c) - Collects(t, e, c)
  {
    hide Inv;
    match e
    case DoFork(p) =>
    case DoExit(p, status) =>
      ExitSlots(t, p, status);
      hide Exit;
      assert Has(t, p) && Has(t, t[p].value.ppid);
      assert Has(t, c) <==> Has(Exit(t, p, status), c);
    case DoWait(p, pid) =>
    case DoBlock(p) =>
    case DoWake(p) =>
  }

  // Over a run, a slot's deaths and collections alternate: at most one death is uncollected,
  // and nothing is collected that has not died.
  lemma {:induction false} CollectedOnce(t: Table, es: seq<Event>, c: nat)
    requires Inv(t) && EnabledRun(t, es)
    ensures Collected(t, es, c) + Zombie(Run(t, es), c) == Zombie(t, c) + Deaths(t, es, c)
    decreases |es|
  {
    if es != [] {
      StepKeeps(t, es[0]);
      ZombieStep(t, es[0], c);
      CollectedOnce(Step(t, es[0]), es[1..], c);
    }
  }

  // A dead task's slot is not given to a new task before it is collected.
  lemma SlotKept(t: Table, p: nat, c: nat)
    requires Inv(t) && Enabled(t, DoFork(p)) && Zombie(t, c) == 1
    ensures FreeFrom(t, 0) != c && Fork(t, p)[c] == t[c]
  {}

  // What a task died with stays in its slot until that is collected.
  lemma {:induction false} StatusKept(t: Table, es: seq<Event>, c: nat)
    requires Inv(t) && EnabledRun(t, es) && Zombie(t, c) == 1 && Collected(t, es, c) == 0
    ensures Zombie(Run(t, es), c) == 1 && Run(t, es)[c].value.state == t[c].value.state
    decreases |es|
  {
    if es != [] {
      StepKeeps(t, es[0]);
      ZombieStep(t, es[0], c);
      CollectedOnce(Step(t, es[0]), es[1..], c);
      DeadUnchanged(t, es[0], c);
      StatusKept(Step(t, es[0]), es[1..], c);
    }
  }

  lemma DeadUnchanged(t: Table, e: Event, c: nat)
    requires Inv(t) && Enabled(t, e) && Zombie(t, c) == 1 && Collects(t, e, c) == 0
    ensures Has(Step(t, e), c) && Step(t, e)[c].value.state == t[c].value.state
  {
    hide Inv;
    match e
    case DoFork(p) =>
    case DoExit(p, status) =>
      ExitSlots(t, p, status);
      hide Exit;
      assert Has(t, c);
    case DoWait(p, pid) =>
    case DoBlock(p) =>
    case DoWake(p) =>
  }

  // ------------------------------------------------------------ the code itself

  class TaskTable {
    var table: array<Option<Task>>

    constructor ()
      ensures fresh(table) && table.Length == TASK_NR && Inv(table[..])
    {
      table := new Option<Task>[TASK_NR](i => if i < 2 then Some(Task(0, Ready)) else None);
      new;
      BootKeeps();
      assert table[..] == Boot();
    }

    // get_free_task's search; it panics when there is no free slot.
    method FreeSlot() returns (pid: nat)
      requires FreeFrom(table[..], 0) < table.Length
      ensures pid == FreeFrom(table[..], 0)
    {
      pid := 0;
      while table[pid].Some?
        invariant pid < table.Length && FreeFrom(table[..], 0) == FreeFrom(table[..], pid)
        decreases table.Length - pid
      {
        pid := pid + 1;
      }
    }

    // task_fork, called by task p.
    method TaskFork(p: nat) returns (pid: nat)
      requires table.Length == TASK_NR && Inv(table[..]) && Enabled(table[..], DoFork(p))
      modifies table
      ensures table[..] == Fork(old(table[..]), p) && Inv(table[..])
      ensures pid < table.Length && old(table[pid]).None? && table[pid] == Some(Task(p, Ready))
    {
      ForkKeeps(table[..], p);
      pid := FreeSlot();
      assert table[p].value.state.Ready?;
      table[pid] := Some(Task(p, Ready));
    }

    // task_exit, called by task p.
    method TaskExit(p: nat, status: int)
      requires table.Length == TASK_NR && Inv(table[..]) && IsReady(table[..], p) && p != 0
      modifies table
      ensures old(Enabled(table[..], DoExit(p, status)))
      ensures table[..] == Exit(old(table[..]), p, status) && Inv(table[..])
    {
      ghost var t := table[..];
      ExitEnabled(t, p, status);
      ExitKeeps(t, p, status);
      hide Inv;
      var task := table[p].value;
      table[p] := Some(Task(task.ppid, Died(status)));
      TellFather(p);
      ghost var d := table[..];
      assert d == WithState(t, p, Died(status));
      assert d == Reparented(d, p, task.ppid, 2);
      for i := 2 to TASK_NR
        invariant table[..] == Reparented(d, p, task.ppid, i)
      {
        if table[i].Some? && table[i].value.ppid == p {
          table[i] := Some(table[i].value.(ppid := task.ppid));
        }
        assert table[..] == Reparented(d, p, task.ppid, i + 1);
      }
      var parent := table[task.ppid].value;
      if parent.state.Waiting? && (parent.state.pid == -1 || parent.state.pid == p) {
        table[task.ppid] := Some(parent.(state := Ready));
      }
    }

    // task_tell_fater: the search for the parent never falls through to the panic.
    method TellFather(p: nat)
      requires p < table.Length && table[p].Some? && Has(table[..], table[p].value.ppid)
    {
      if table[p].value.ppid == 0 {
        return;
      }
      var i := 0;
      while i < table.Length
        invariant i <= table.Length && i <= table[p].value.ppid
      {
        if table[i].Some? && i == table[p].value.ppid {
          return;
        }
        i := i + 1;
      }
      assert false;
    }

    // One round of task_waitpid's loop: the child collected, or whether the task blocks.
    method WaitRound(p: nat, pid: int) returns (child: Option<nat>, status: int, blocks: bool)
      requires table.Length == TASK_NR && Inv(table[..]) && IsReady(table[..], p)
      modifies table
      ensures table[..] == Wait(old(table[..]), p, pid) && Inv(table[..])
      ensures child == DeadFrom(old(table[..]), p, pid, 2)
      ensures child.Some? ==> old(table[..])[child.value].value.state == Died(status)
      ensures blocks <==> child.None? && AnyFrom(old(table[..]), p, pid, 2)
    {
      ghost var t := table[..];
      StepKeeps(t, DoWait(p, pid));
      hide Inv;
      var hasChild := false;
      child, status, blocks := None, 0, false;
      var i := 2;
      while i < table.Length
        invariant 2 <= i <= table.Length && table[..] == t
        invariant DeadFrom(t, p, pid, 2) == DeadFrom(t, p, pid, i)
        invariant AnyFrom(t, p, pid, 2) == (hasChild || AnyFrom(t, p, pid, i))
      {
        if table[i].Some? && table[i].value.ppid == p && (pid == -1 || pid == i) {
          if table[i].value.state.Died? {
            child, status := Some(i), table[i].value.state.status;
            table[i] := None;
            return;
          }
          hasChild := true;
        }
        i := i + 1;
      }
      if hasChild {
        table[p] := Some(table[p].value.(state := Waiting(pid)));
        blocks := true;
      }
    }
  }
}
