// Timers: the list of src/kernel/timer.c, the timeouts of task_block, and alarms. Both
// timer_wakeup and task_unblock release timers, and each is released once.
module Timers {
  import opened Lists
  import opened Wrappers

  const JIFFY := 10                // milliseconds
  const EXPIRES_LIMIT := 0x8000_0000

  datatype Kind = Timeout | Alarm | Device
  datatype Timer = Timer(id: nat, task: nat, expires: int, kind: Kind)

  // signalable: sys_kill wakes the task.
  datatype Run = Running | Ready | Blocked(signalable: bool) | Died
  datatype Task = Task(run: Run, timer: Option<Timer>, alarm: Option<Timer>)

  // motor is the floppy drive's timer; put lists the timers released so far; next is the number
  // of the next timer made.
  datatype Clock = Clock(jiffies: nat, list: seq<Timer>, tasks: map<nat, Task>, motor: Option<Timer>, next: nat,
                         put: seq<nat>)

  function Key(): Timer -> int {
    (x: Timer) => x.expires
  }

  // ----------------------------------------------------------- invariant

  // Every timer made is in the list or was released, and not twice.
  ghost predicate Numbered(list: seq<Timer>, next: nat, put: seq<nat>) {
    && NoDup(list) && NoDup(put)
    && (forall x, y :: x in list && y in list && x.id == y.id ==> x == y)
    && (forall x :: x in list ==> x.id < next && x.id !in put)
    && (forall k :: k in put ==> k < next)
    && (forall k :: 0 <= k < next && k !in put ==> exists x :: x in list && x.id == k)
  }

  // A timeout's task is blocked and points back at it; an alarm's task is not dead.
  predicate Linked(tasks: map<nat, Task>, x: Timer) {
    match x.kind
    case Timeout => x.task in tasks && tasks[x.task].timer == Some(x) && tasks[x.task].run.Blocked?
    case Alarm => x.task in tasks && tasks[x.task].alarm == Some(x) && !tasks[x.task].run.Died?
    case Device => true
  }

  predicate Backed(list: seq<Timer>, t: nat, task: Task) {
    && (task.timer.Some? ==> task.timer.value in list && task.timer.value.kind == Timeout && task.timer.value.task == t)
    && (task.alarm.Some? && !task.run.Died? ==>
          task.alarm.value in list && task.alarm.value.kind == Alarm && task.alarm.value.task == t)
  }

  ghost predicate Tied(list: seq<Timer>, tasks: map<nat, Task>) {
    && (forall x :: x in list ==> Linked(tasks, x))
    && (forall t :: t in tasks ==> Backed(list, t, tasks[t]))
  }

  // The drive points at its timer, which is in the list.
  ghost predicate MotorTied(list: seq<Timer>, motor: Option<Timer>) {
    && (forall x :: x in list && x.kind == Device ==> motor == Some(x))
    && (motor.Some? ==> motor.value in list && motor.value.kind == Device)
  }

  ghost predicate Inv(c: Clock) {
    Sorted(c.list, Key()) && Numbered(c.list, c.next, c.put) && Tied(c.list, c.tasks) && MotorTied(c.list, c.motor)
  }

  // A task with a timeout pending is not running.
  lemma TimedNotRunning(c: Clock, t: nat)
    requires Inv(c) && t in c.tasks && c.tasks[t].timer.Some?
    ensures c.tasks[t].run.Blocked?
  {
    assert Backed(c.list, t, c.tasks[t]);
    assert Linked(c.tasks, c.tasks[t].timer.value);
  }

  // ---------------------------------------------------------- operations

  // timer_put
  function Put(c: Clock, x: Timer): Clock {
    c.(list := Without(c.list, x), put := c.put + [x.id])
  }

  function Expiry(c: Clock, ms: nat): nat {
    c.jiffies + ms / JIFFY
  }

  function NewTimer(c: Clock, t: nat, ms: nat, kind: Kind): Timer {
    Timer(c.next, t, Expiry(c, ms), kind)
  }

  // timer_add
  function Add(c: Clock, x: Timer): Clock {
    c.(list := Inserted(c.list, x, Key()), next := c.next + 1)
  }

  function SetTask(c: Clock, t: nat, task: Task): Clock {
    c.(tasks := c.tasks[t := task])
  }

  // task_block of the running task
  function Block(c: Clock, t: nat, ms: nat, signalable: bool): Clock
    requires t in c.tasks
  {
    var task := c.tasks[t].(run := Blocked(signalable));
    if ms > 0 then
      var x := NewTimer(c, t, ms, Timeout);
      SetTask(Add(c, x), t, task.(timer := Some(x)))
    else SetTask(c, t, task)
  }

  // task_unblock; active is the timer timer_wakeup is at, which it releases itself.
  function Unblock(c: Clock, t: nat, active: Option<Timer>): Clock
    requires t in c.tasks
  {
    var task := c.tasks[t];
    var d := if task.timer.Some? && task.timer != active then Put(c, task.timer.value) else c;
    SetTask(d, t, task.(run := Ready, timer := None))
  }

  // One round of timer_wakeup.
  function Fire(c: Clock): Clock
    requires c.list != []
  {
    var x := c.list[0];
    var d :=
      if x.kind == Device then c.(motor := None)
      else if x.task !in c.tasks then c
      else if x.kind == Timeout then Unblock(c, x.task, Some(x))
      else
        var e := SetTask(c, x.task, c.tasks[x.task].(alarm := None));
        if c.tasks[x.task].run == Blocked(true) then Unblock(e, x.task, Some(x)) else e;
    Put(d, x)
  }

  lemma {:induction false} WithoutShorter<T>(s: seq<T>, x: T)
    ensures |Without(s, x)| == if x in s then |s| - 1 else |s|
    ensures forall y :: y in s && y != x ==> y in Without(s, x)
  {
    if s != [] {
      WithoutShorter(s[1..], x);
      assert s == [s[0]] + s[1..];
    }
  }

  lemma FireShorter(c: Clock)
    requires c.list != []
    ensures |Fire(c).list| < |c.list|
  {
    var x := c.list[0];
    if x.task in c.tasks && c.tasks[x.task].timer.Some? {
      WithoutShorter(c.list, c.tasks[x.task].timer.value);
      WithoutShorter(Without(c.list, c.tasks[x.task].timer.value), x);
    }
    WithoutShorter(c.list, x);
  }

  // timer_wakeup: it ends, because each round releases a timer.
  function Wakeup(c: Clock): Clock
    decreases |c.list|
  {
    if c.list == [] || c.list[0].expires > c.jiffies then c
    else FireShorter(c); Wakeup(Fire(c))
  }

  // sys_alarm
  function SetAlarm(c: Clock, t: nat, sec: nat): Clock
    requires t in c.tasks
  {
    var task := c.tasks[t];
    var d := if task.alarm.Some? then Put(c, task.alarm.value) else c;
    var x := NewTimer(d, t, sec * 1000, Alarm);
    SetTask(Add(d, x), t, task.(alarm := Some(x)))
  }

  // timer_remove: the timers of task t among the first n of was.
  function Removed(c: Clock, was: seq<Timer>, t: nat, n: nat): Clock
    requires n <= |was|
  {
    if n == 0 then c
    else
      var d := Removed(c, was, t, n - 1);
      if was[n - 1].task == t then Put(d, was[n - 1]) else d
  }

  // The part of task_exit that concerns timers.
  function Exit(c: Clock, t: nat): Clock
    requires t in c.tasks
  {
    var d := Removed(c, c.list, t, |c.list|);
    SetTask(d, t, c.tasks[t].(run := Died))
  }

  // ------------------------------------------------------------ releasing

  lemma PutNumbered(list: seq<Timer>, next: nat, put: seq<nat>, x: Timer)
    requires Numbered(list, next, put) && x in list
    ensures Numbered(Without(list, x), next, put + [x.id])
    ensures forall y :: y in Without(list, x) <==> y in list && y != x
  {
    WithoutMembers(list, x);
    hide Without;
    PushNoDup(put, x.id);
    forall k | 0 <= k < next && k !in put + [x.id] ensures exists y :: y in Without(list, x) && y.id == k {
      var y :| y in list && y.id == k;
      assert y in Without(list, x);
    }
  }

  lemma AddNumbered(list: seq<Timer>, next: nat, put: seq<nat>, x: Timer)
    requires Numbered(list, next, put) && x.id == next
    ensures Numbered(Inserted(list, x, Key()), next + 1, put)
    ensures forall y :: y in Inserted(list, x, Key()) <==> y in list || y == x
    ensures x !in list
  {
    InsertedMembers(list, x, Key());
    assert x !in list;
    InsertedNoDup(list, x, Key());
    hide Inserted;
    var m := Inserted(list, x, Key());
    forall k | 0 <= k < next + 1 && k !in put ensures exists y :: y in m && y.id == k {
      if k == next {
        assert x in m;
      } else {
        var y :| y in list && y.id == k;
        assert y in m;
      }
    }
  }

  // Releasing a timer that its task no longer points at.
  lemma PutTied(list: seq<Timer>, m: seq<Timer>, tasks: map<nat, Task>, t: nat, task: Task, x: Timer)
    requires Tied(list, tasks) && (forall y :: y in m <==> y in list && y != x)
    requires x in list && x.kind != Device && x.task == t && t in tasks && Backed(m, t, task)
    requires forall y :: y in m && y.kind != Device && y.task == t ==> Linked(tasks[t := task], y)
    ensures Tied(m, tasks[t := task])
  {
    hide Linked;
    forall y | y in m ensures Linked(tasks[t := task], y) {
      assert Linked(tasks, y);
      if y.kind == Device || y.task != t {
        LinkedElsewhere(tasks, t, task, y);
      }
    }
    var after := tasks[t := task];
    forall u | u in after ensures Backed(m, u, after[u]) {
      if u != t {
        assert Backed(list, u, tasks[u]);
      }
    }
  }

  lemma LinkedElsewhere(tasks: map<nat, Task>, t: nat, task: Task, y: Timer)
    requires Linked(tasks, y) && (y.kind == Device || y.task != t)
    ensures Linked(tasks[t := task], y)
  {}

  // Changing a task without touching its timers.
  lemma SetTied(list: seq<Timer>, tasks: map<nat, Task>, t: nat, task: Task)
    requires Tied(list, tasks) && t in tasks && Backed(list, t, task)
    requires forall y :: y in list && y.kind != Device && y.task == t ==> Linked(tasks[t := task], y)
    ensures Tied(list, tasks[t := task])
  {
    hide Linked;
    forall y | y in list ensures Linked(tasks[t := task], y) {
      assert Linked(tasks, y);
      if y.kind == Device || y.task != t {
        LinkedElsewhere(tasks, t, task, y);
      }
    }
  }

  // The list has a task's timeout and its alarm, and nothing else of the task.
  lemma OwnTimers(list: seq<Timer>, tasks: map<nat, Task>, y: Timer)
    requires Tied(list, tasks) && y in list && y.kind != Device
    ensures y.task in tasks && (y.kind == Timeout ==> tasks[y.task].timer == Some(y))
    ensures y.kind == Alarm ==> tasks[y.task].alarm == Some(y)
  {
    assert Linked(tasks, y);
  }

  // ---------------------------------------------------- what each one keeps

  lemma BlockKeeps(c: Clock, t: nat, ms: nat, signalable: bool)
    requires Inv(c) && t in c.tasks && c.tasks[t].run == Running
    ensures c.tasks[t].timer.None? && Inv(Block(c, t, ms, signalable))
  {
    hide Inserted;
    if c.tasks[t].timer.Some? {
      TimedNotRunning(c, t);
    }
    assert Backed(c.list, t, c.tasks[t]);
    var task := c.tasks[t].(run := Blocked(signalable));
    if ms > 0 {
      var x := NewTimer(c, t, ms, Timeout);
      AddNumbered(c.list, c.next, c.put, x);
      InsertedSorted(c.list, x, Key());
      hide Numbered, Sorted;
      AddTied(c.list, Inserted(c.list, x, Key()), c.tasks, t, task.(timer := Some(x)), x);
    } else {
      forall y | y in c.list && y.kind != Device && y.task == t ensures Linked(c.tasks[t := task], y) {
        OwnTimers(c.list, c.tasks, y);
      }
      hide Numbered, Sorted;
      SetTied(c.list, c.tasks, t, task);
    }
  }

  // A new timer that its task, alive, comes to point at.
  lemma AddTied(list: seq<Timer>, m: seq<Timer>, tasks: map<nat, Task>, t: nat, task: Task, x: Timer)
    requires Tied(list, tasks) && t in tasks && x.task == t && x.kind != Device && !task.run.Died? &&
      !tasks[t].run.Died?
    requires x !in list && forall y :: y in m <==> y in list || y == x
    requires if x.kind == Timeout then tasks[t].timer.None? && task.run.Blocked? &&
      task == tasks[t].(timer := Some(x), run := task.run)
             else tasks[t].alarm.None? && task == tasks[t].(alarm := Some(x))
    ensures Tied(m, tasks[t := task])
  {
    assert Backed(list, t, tasks[t]);
    forall y | y in m ensures Linked(tasks[t := task], y) {
      if y != x {
        assert Linked(tasks, y);
      }
    }
    var after := tasks[t := task];
    forall u | u in after ensures Backed(m, u, after[u]) {
      if u != t {
        assert Backed(list, u, tasks[u]);
      }
    }
  }

  lemma UnblockKeeps(c: Clock, t: nat)
    requires Inv(c) && t in c.tasks && !c.tasks[t].run.Died?
    ensures Inv(Unblock(c, t, None))
    ensures c.tasks[t].timer.Some? ==> c.tasks[t].timer.value in c.list
  {
    var task := c.tasks[t];
    assert Backed(c.list, t, task);
    var woken := task.(run := Ready, timer := None);
    forall y | y in c.list && y.kind != Device && y.task == t
      ensures Linked(c.tasks[t := woken], y) || task.timer == Some(y)
    {
      OwnTimers(c.list, c.tasks, y);
    }
    if task.timer.Some? {
      var x := task.timer.value;
      PutNumbered(c.list, c.next, c.put, x);
      WithoutKeepsSorted(c.list, x, Key());
      hide Numbered, Sorted, Linked, Without;
      PutTied(c.list, Put(c, x).list, c.tasks, t, woken, x);
    } else {
      hide Numbered, Sorted, Linked;
      SetTied(c.list, c.tasks, t, woken);
    }
  }

  // timer_wakeup's round for a timeout does what task_unblock does, and releases the same timer.
  lemma FireTimeout(c: Clock)
    requires Inv(c) && c.list != [] && c.list[0].kind == Timeout
    ensures c.list[0].task in c.tasks && c.tasks[c.list[0].task].timer == Some(c.list[0])
    ensures Fire(c) == Unblock(c, c.list[0].task, None)
  {
    assert Linked(c.tasks, c.list[0]);
  }

  function AlarmGone(c: Clock, x: Timer): Clock
    requires x.task in c.tasks
  {
    SetTask(Put(c, x), x.task, c.tasks[x.task].(alarm := None))
  }

  lemma AlarmGoneKeeps(c: Clock, x: Timer)
    requires Inv(c) && x in c.list && x.kind == Alarm
    ensures x.task in c.tasks && Inv(AlarmGone(c, x))
  {
    OwnTimers(c.list, c.tasks, x);
    var t := x.task;
    var task := c.tasks[t].(alarm := None);
    PutNumbered(c.list, c.next, c.put, x);
    WithoutKeepsSorted(c.list, x, Key());
    hide Numbered, Sorted, Without;
    assert Linked(c.tasks, x) && Backed(c.list, t, c.tasks[t]);
    var m := Put(c, x).list;
    forall y | y in m && y.kind != Device && y.task == t ensures Linked(c.tasks[t := task], y) {
      assert Linked(c.tasks, y);
    }
    PutTied(c.list, m, c.tasks, t, task, x);
  }

  // sys_kill's wake-up of a task that may be interrupted.
  function Signalled(c: Clock, t: nat): Clock
    requires t in c.tasks
  {
    if c.tasks[t].run == Blocked(true) then Unblock(c, t, None) else c
  }

  // The round for an alarm: its signal may end a wait, and with it another timer.
  lemma FireAlarm(c: Clock)
    requires Inv(c) && c.list != [] && c.list[0].kind == Alarm
    ensures c.list[0].task in c.tasks
    ensures var d := Signalled(c, c.list[0].task);
      c.list[0].task in d.tasks && Inv(d) && c.list[0] in d.list && Fire(c) == AlarmGone(d, c.list[0])
  {
    hide Numbered, Sorted, Without;
    var x := c.list[0];
    OwnTimers(c.list, c.tasks, x);
    assert Linked(c.tasks, x) && Backed(c.list, x.task, c.tasks[x.task]);
    if c.tasks[x.task].run == Blocked(true) {
      UnblockKeeps(c, x.task);
      var task := c.tasks[x.task];
      if task.timer.Some? {
        WithoutShorter(c.list, task.timer.value);
      }
    }
  }

  lemma DeviceKeeps(c: Clock, x: Timer)
    requires Inv(c) && x in c.list && x.kind == Device
    ensures Inv(Put(c.(motor := None), x))
  {
    PutNumbered(c.list, c.next, c.put, x);
    WithoutKeepsSorted(c.list, x, Key());
    hide Numbered, Sorted, Without, Linked;
    var m := Put(c, x).list;
    forall t | t in c.tasks ensures Backed(m, t, c.tasks[t]) {
      assert Backed(c.list, t, c.tasks[t]);
    }
  }

  lemma FireKeeps(c: Clock)
    requires Inv(c) && c.list != []
    ensures Inv(Fire(c))
  {
    var x := c.list[0];
    match x.kind
    case Timeout =>
      FireTimeout(c);
      assert Linked(c.tasks, x);
      hide Inv;
      UnblockKeeps(c, x.task);
    case Alarm =>
      FireAlarm(c);
      hide Inv, Fire;
      AlarmGoneKeeps(Signalled(c, x.task), x);
    case Device => DeviceKeeps(c, x);
  }

  // timer_wakeup leaves no expired timer behind.
  lemma {:induction false} WakeupKeeps(c: Clock)
    requires Inv(c)
    ensures Inv(Wakeup(c)) && Wakeup(c).jiffies == c.jiffies
    ensures forall x :: x in Wakeup(c).list ==> x.expires > c.jiffies
    decreases |c.list|
  {
    hide Inv, Fire;
    if c.list != [] && c.list[0].expires <= c.jiffies {
      FireKeeps(c);
      FireShorter(c);
      FireJiffies(c);
      WakeupKeeps(Fire(c));
    } else {
      InvNumbered(c);
      NoneDue(c.list, c.jiffies);
    }
  }

  lemma NoneDue(list: seq<Timer>, now: nat)
    requires Sorted(list, Key()) && (list != [] ==> list[0].expires > now)
    ensures forall x :: x in list ==> x.expires > now
  {
    forall x | x in list ensures x.expires > now {
      var i :| 0 <= i < |list| && list[i] == x;
      assert i > 0 ==> Key()(list[0]) <= Key()(list[i]);
    }
  }

  // A round releases the timer that is due and, of an alarm's task, the timeout it was waiting with.
  lemma FireReleases(c: Clock, y: Timer)
    requires Inv(c) && c.list != [] && y in c.list && y !in Fire(c).list
    ensures y == c.list[0] || (c.list[0].kind == Alarm && y.kind == Timeout && y.task == c.list[0].task)
  {
    var x := c.list[0];
    var task := if x.task in c.tasks then c.tasks[x.task] else Task(Ready, None, None);
    if x.kind == Timeout {
      assert Linked(c.tasks, x);
    } else if x.kind == Alarm {
      assert Linked(c.tasks, x) && Backed(c.list, x.task, task);
    }
    WithoutShorter(c.list, x);
    if task.timer.Some? {
      WithoutShorter(c.list, task.timer.value);
      WithoutShorter(Without(c.list, task.timer.value), x);
    }
  }

  lemma {:induction false} FireSubset(c: Clock, y: Timer)
    requires c.list != [] && y in Fire(c).list
    ensures y in c.list
  {
    var x := c.list[0];
    WithoutSubset(c.list, x);
    if x.task in c.tasks && c.tasks[x.task].timer.Some? {
      WithoutSubset(c.list, c.tasks[x.task].timer.value);
      WithoutSubset(Without(c.list, c.tasks[x.task].timer.value), x);
    }
  }

  lemma FireJiffies(c: Clock)
    requires c.list != []
    ensures Fire(c).jiffies == c.jiffies
  {}

  // No timer goes early: one that timer_wakeup releases is due, or is the timeout of a task
  // whose alarm is due.
  lemma {:induction false} WakeupReleases(c: Clock, y: Timer)
    requires Inv(c) && y in c.list && y !in Wakeup(c).list
    ensures y.expires <= c.jiffies
      || (y.kind == Timeout && exists a :: a in c.list && a.kind == Alarm && a.task == y.task && a.expires <= c.jiffies)
    decreases |c.list|
  {
    hide Inv, Fire;
    if c.list != [] && c.list[0].expires <= c.jiffies {
      FireJiffies(c);
      if y in Fire(c).list {
        FireKeeps(c);
        FireShorter(c);
        WakeupReleases(Fire(c), y);
        if y.expires > c.jiffies {
          var a :| a in Fire(c).list && a.kind == Alarm && a.task == y.task && a.expires <= c.jiffies;
          FireSubset(c, a);
        }
      } else {
        FireReleases(c, y);
      }
    }
  }

  lemma SetAlarmKeeps(c: Clock, t: nat, sec: nat)
    requires Inv(c) && t in c.tasks && c.tasks[t].run == Running
    ensures Inv(SetAlarm(c, t, sec))
  {
    hide Inserted, Without;
    var task := c.tasks[t];
    assert Backed(c.list, t, task);
    var d := if task.alarm.Some? then AlarmGone(c, task.alarm.value) else c;
    if task.alarm.Some? {
      AlarmGoneKeeps(c, task.alarm.value);
    }
    var x := NewTimer(d, t, sec * 1000, Alarm);
    AddNumbered(d.list, d.next, d.put, x);
    InsertedSorted(d.list, x, Key());
    hide Numbered, Sorted;
    AddTied(d.list, Add(d, x).list, d.tasks, t, d.tasks[t].(alarm := Some(x)), x);
    assert SetAlarm(c, t, sec).tasks == d.tasks[t := d.tasks[t].(alarm := Some(x))];
  }

  // After the loop of timer_remove the list has lost the task's timers among the first n.
  lemma {:induction false} RemovedIs(c: Clock, was: seq<Timer>, t: nat, n: nat)
    requires Numbered(c.list, c.next, c.put) && Sorted(c.list, Key()) && was == c.list && n <= |was|
    ensures var d := Removed(c, was, t, n);
      Numbered(d.list, d.next, d.put) && Sorted(d.list, Key()) && d.jiffies == c.jiffies && d.tasks == c.tasks &&
      d.next == c.next && d.motor == c.motor
    ensures forall y :: y in Removed(c, was, t, n).list <==> y in was && !(y.task == t && y in was[..n])
  {
    hide Numbered, Sorted, Without;
    if n > 0 {
      RemovedIs(c, was, t, n - 1);
      var d := Removed(c, was, t, n - 1);
      var x := was[n - 1];
      assert was[..n] == was[..n - 1] + [x];
      if x.task == t {
        NotBefore(was, c.next, c.put, n - 1);
        PutNumbered(d.list, d.next, d.put, x);
        WithoutKeepsSorted(d.list, x, Key());
      }
    }
  }

  lemma NotBefore(list: seq<Timer>, next: nat, put: seq<nat>, n: nat)
    requires Numbered(list, next, put) && n < |list|
    ensures list[n] !in list[..n] && list[n] in list
  {}

  // The drive's timer counts as one of the task that last used the drive while it had none, and
  // goes with that task; the drive still points at it. Otherwise exit keeps the timers in order.
  lemma ExitKeepsIff(c: Clock, t: nat)
    requires Inv(c) && t in c.tasks && c.tasks[t].run == Running
    ensures forall x :: x in Exit(c, t).list <==> x in c.list && x.task != t
    ensures Inv(Exit(c, t)) <==> c.motor.None? || c.motor.value.task != t
  {
    RemovedIs(c, c.list, t, |c.list|);
    if c.tasks[t].timer.Some? {
      TimedNotRunning(c, t);
    }
    hide Sorted, Numbered, Removed;
    var d := Exit(c, t);
    assert c.list[..|c.list|] == c.list;
    forall x | x in d.list ensures Linked(d.tasks, x) {
      assert Linked(c.tasks, x);
    }
    forall u | u in d.tasks ensures Backed(d.list, u, d.tasks[u]) {
      assert Backed(c.list, u, c.tasks[u]);
    }
  }

  lemma {:induction false} RemovedPut(c: Clock, was: seq<Timer>, t: nat, n: nat, x: Timer)
    requires n <= |was| && x in was[..n] && x.task == t
    ensures x.id in Removed(c, was, t, n).put && Removed(c, was, t, n).motor == c.motor
    decreases n
  {
    if n > 0 {
      assert was[..n] == was[..n - 1] + [was[n - 1]];
      if x in was[..n - 1] {
        RemovedPut(c, was, t, n - 1, x);
      } else {
        RemovedMotor(c, was, t, n - 1);
      }
    }
  }

  lemma {:induction false} RemovedMotor(c: Clock, was: seq<Timer>, t: nat, n: nat)
    requires n <= |was|
    ensures Removed(c, was, t, n).motor == c.motor
    decreases n
  {
    if n > 0 {
      RemovedMotor(c, was, t, n - 1);
    }
  }

  // After such an exit the drive points at a timer that was released.
  lemma MotorDangles(c: Clock, t: nat, ms: nat)
    requires Inv(c) && t in c.tasks && c.tasks[t].run == Running && c.motor.None?
    ensures var d := Exit(MotorOff(c, t, ms), t);
      d.motor.Some? && d.motor.value !in d.list && d.motor.value.id in d.put
  {
    var m := MotorOff(c, t, ms);
    MotorOffKeeps(c, t, ms);
    ExitKeepsIff(m, t);
    RemovedPut(m, m.list, t, |m.list|, m.motor.value);
    assert m.list[..|m.list|] == m.list;
  }

  // A task starts or stops running.
  lemma SwitchKeeps(c: Clock, t: nat, run: Run)
    requires Inv(c) && t in c.tasks && (c.tasks[t].run == Running || c.tasks[t].run == Ready) &&
      (run == Running || run == Ready)
    ensures Inv(SetTask(c, t, c.tasks[t].(run := run)))
  {
    if c.tasks[t].timer.Some? {
      TimedNotRunning(c, t);
    }
    assert Backed(c.list, t, c.tasks[t]);
    hide Sorted, Numbered;
    var task := c.tasks[t].(run := run);
    forall y | y in c.list && y.kind != Device && y.task == t ensures Linked(c.tasks[t := task], y) {
      assert Linked(c.tasks, y);
    }
    SetTied(c.list, c.tasks, t, task);
  }

  // timer_update of the drive's timer
  function Updated(c: Clock, x: Timer, ms: nat): Clock {
    var y := x.(expires := Expiry(c, ms));
    c.(list := Inserted(Without(c.list, x), y, Key()), motor := Some(y))
  }

  // fd_motor_off, called by task t: the drive's timer is made, or set again.
  function MotorOff(c: Clock, t: nat, ms: nat): Clock {
    if c.motor.Some? then Updated(c, c.motor.value, ms)
    else
      var x := NewTimer(c, t, ms, Device);
      Add(c, x).(motor := Some(x))
  }

  lemma UpdatedKeeps(c: Clock, x: Timer, ms: nat)
    requires Inv(c) && c.motor == Some(x)
    ensures Inv(Updated(c, x, ms))
  {
    var y := x.(expires := Expiry(c, ms));
    WithoutKeepsSorted(c.list, x, Key());
    InsertedSorted(Without(c.list, x), y, Key());
    UpdatedNumbered(c.list, c.next, c.put, x, y);
    hide Inserted, Without, Sorted, Numbered, Linked;
    var d := Updated(c, x, ms);
    DeviceLinked(c.tasks, y);
    forall t | t in c.tasks ensures Backed(d.list, t, c.tasks[t]) {
      assert Backed(c.list, t, c.tasks[t]);
    }
  }

  lemma MotorOffKeeps(c: Clock, t: nat, ms: nat)
    requires Inv(c)
    ensures Inv(MotorOff(c, t, ms))
  {
    if c.motor.Some? {
      hide Inv;
      UpdatedKeeps(c, c.motor.value, ms);
    } else {
      var x := NewTimer(c, t, ms, Device);
      AddNumbered(c.list, c.next, c.put, x);
      InsertedSorted(c.list, x, Key());
      hide Inserted, Sorted, Numbered, Linked;
      DeviceLinked(c.tasks, x);
      var m := Add(c, x).list;
      forall u | u in c.tasks ensures Backed(m, u, c.tasks[u]) {
        assert Backed(c.list, u, c.tasks[u]);
      }
    }
  }

  // The updated timer keeps its number.
  lemma UpdatedNumbered(list: seq<Timer>, next: nat, put: seq<nat>, x: Timer, y: Timer)
    requires Numbered(list, next, put) && x in list && y.id == x.id
    ensures Numbered(Inserted(Without(list, x), y, Key()), next, put)
    ensures forall z :: z in Inserted(Without(list, x), y, Key()) <==> (z in list && z != x) || z == y
  {
    UpdatedMembers(list, next, put, x, y);
    hide Inserted, Without, NoDup;
    var l := Inserted(Without(list, x), y, Key());
    forall k | 0 <= k < next && k !in put ensures exists z :: z in l && z.id == k {
      var z :| z in list && z.id == k;
      assert (if z == x then y else z) in l;
    }
  }

  lemma UpdatedMembers(list: seq<Timer>, next: nat, put: seq<nat>, x: Timer, y: Timer)
    requires Numbered(list, next, put) && x in list && y.id == x.id
    ensures var l := Inserted(Without(list, x), y, Key());
      NoDup(l) && forall z :: z in l <==> (z in list && z != x) || z == y
  {
    hide Inserted, Without, NoDup;
    var m := Without(list, x);
    WithoutMembers(list, x);
    InsertedMembers(m, y, Key());
    assert y !in m;
    InsertedNoDup(m, y, Key());
  }

  lemma DeviceLinked(tasks: map<nat, Task>, x: Timer)
    requires x.kind == Device
    ensures Linked(tasks, x)
  {}

  // The part of task_fork that concerns timers: the child's task is a copy, pointers and all.
  function Forked(c: Clock, p: nat, child: nat): Clock
    requires p in c.tasks
  {
    SetTask(c, child, c.tasks[p].(run := Ready))
  }

  // The task's slot is free, or its task was collected.
  predicate SlotFree(c: Clock, t: nat) {
    t !in c.tasks || c.tasks[t].run.Died?
  }

  // Fork keeps the timers in order just when the parent has no alarm pending: else the child
  // points at it, too.
  lemma ForkKeepsIff(c: Clock, p: nat, child: nat)
    requires Inv(c) && p in c.tasks && c.tasks[p].run == Running && SlotFree(c, child)
    ensures Inv(Forked(c, p, child)) <==> c.tasks[p].alarm.None?
  {
    hide Sorted, Numbered;
    if c.tasks[p].timer.Some? {
      TimedNotRunning(c, p);
    }
    var d := Forked(c, p, child);
    assert Backed(c.list, p, c.tasks[p]);
    if c.tasks[p].alarm.None? {
      forall x | x in d.list ensures Linked(d.tasks, x) {
        assert Linked(c.tasks, x);
      }
      forall t | t in d.tasks ensures Backed(d.list, t, d.tasks[t]) {
        if t != child {
          assert Backed(c.list, t, c.tasks[t]);
        }
      }
    } else {
      assert !Backed(d.list, child, d.tasks[child]);
    }
  }

  // With an alarm pending at the fork, an alarm of the child and then one of the parent
  // release the same timer twice.
  lemma ForkedAlarm(c: Clock, p: nat, child: nat, sec: nat, later: nat)
    requires Inv(c) && p in c.tasks && c.tasks[p].run == Running && c.tasks[p].alarm.Some? && SlotFree(c, child)
    ensures var d := Forked(c, p, child); !NoDup(SetAlarm(SetAlarm(d, child, sec), p, later).put)
  {
    hide Inv, Inserted, Without;
    var x := c.tasks[p].alarm.value;
    var e := SetAlarm(Forked(c, p, child), child, sec);
    assert e.put == c.put + [x.id] && e.tasks[p] == c.tasks[p];
    var f := SetAlarm(e, p, later);
    assert f.put == c.put + [x.id] + [x.id];
    assert f.put[|c.put|] == f.put[|c.put| + 1];
  }

  // ------------------------------------------------------------------ runs

  datatype Event =
    | DoBlock(t: nat, ms: nat, signalable: bool)
    | DoUnblock(t: nat)
    | DoAlarm(t: nat, sec: nat)
    | DoTick
    | DoExit(t: nat)
    | DoSwitch(t: nat, run: Run)
    | DoMotor(t: nat, ms: nat)
    | DoFork(p: nat, child: nat)

  // Deadlines stay below 2^31, where list_insert_sort's signed keys order them. A task that
  // forks has no alarm pending (see ForkKeepsIff), and one that exits did not start the drive's
  // timer (see ExitKeepsIff).
  predicate Enabled(c: Clock, e: Event) {
    match e
    case DoBlock(t, ms, _) => t in c.tasks && c.tasks[t].run == Running && Expiry(c, ms) < EXPIRES_LIMIT
    case DoUnblock(t) => t in c.tasks && c.tasks[t].run.Blocked?
    case DoAlarm(t, sec) => t in c.tasks && c.tasks[t].run == Running && Expiry(c, sec * 1000) < EXPIRES_LIMIT
    case DoTick => true
    case DoExit(t) => t in c.tasks && c.tasks[t].run == Running && (c.motor.Some? ==> c.motor.value.task != t)
    case DoSwitch(t, run) =>
      t in c.tasks && (c.tasks[t].run == Running || c.tasks[t].run == Ready) && (run == Running || run == Ready)
    case DoMotor(t, ms) => t in c.tasks && c.tasks[t].run == Running && Expiry(c, ms) < EXPIRES_LIMIT
    case DoFork(p, child) =>
      p in c.tasks && c.tasks[p].run == Running && SlotFree(c, child) && c.tasks[p].alarm.None?
  }

  // clock_handler, up to its call of schedule.
  function Tick(c: Clock): Clock {
    Wakeup(c.(jiffies := c.jiffies + 1))
  }

  function Step(c: Clock, e: Event): Clock
    requires Enabled(c, e)
  {
    match e
    case DoBlock(t, ms, signalable) => Block(c, t, ms, signalable)
    case DoUnblock(t) => Unblock(c, t, None)
    case DoAlarm(t, sec) => SetAlarm(c, t, sec)
    case DoTick => Tick(c)
    case DoExit(t) => Exit(c, t)
    case DoSwitch(t, run) => SetTask(c, t, c.tasks[t].(run := run))
    case DoMotor(t, ms) => MotorOff(c, t, ms)
    case DoFork(p, child) => Forked(c, p, child)
  }

  lemma TickKeeps(c: Clock)
    requires Inv(c)
    ensures Inv(Tick(c)) && Tick(c).jiffies == c.jiffies + 1
    ensures forall x :: x in Tick(c).list ==> x.expires > Tick(c).jiffies
  {
    WakeupKeeps(c.(jiffies := c.jiffies + 1));
  }

  lemma StepKeeps(c: Clock, e: Event)
    requires Inv(c) && Enabled(c, e)
    ensures Inv(Step(c, e))
  {
    hide Inv, Unblock, Block, SetAlarm, Exit, Tick, MotorOff, Forked;
    match e
    case DoBlock(t, ms, signalable) => BlockKeeps(c, t, ms, signalable);
    case DoUnblock(t) => UnblockKeeps(c, t);
    case DoAlarm(t, sec) => SetAlarmKeeps(c, t, sec);
    case DoTick => TickKeeps(c);
    case DoExit(t) => ExitKeepsIff(c, t);
    case DoSwitch(t, run) => SwitchKeeps(c, t, run);
    case DoMotor(t, ms) => MotorOffKeeps(c, t, ms);
    case DoFork(p, child) => ForkKeepsIff(c, p, child);
  }

  ghost predicate EnabledRun(c: Clock, es: seq<Event>)
    decreases |es|
  {
    es == [] || (Enabled(c, es[0]) && EnabledRun(Step(c, es[0]), es[1..]))
  }

  ghost function RunOf(c: Clock, es: seq<Event>): Clock
    requires EnabledRun(c, es)
    decreases |es|
  {
    if es == [] then c else RunOf(Step(c, es[0]), es[1..])
  }

  lemma {:induction false} RunKeeps(c: Clock, es: seq<Event>)
    requires Inv(c) && EnabledRun(c, es)
    ensures Inv(RunOf(c, es))
    decreases |es|
  {
    hide Inv, Enabled, Step;
    if es != [] {
      StepKeeps(c, es[0]);
      RunKeeps(Step(c, es[0]), es[1..]);
    }
  }

  // From a start without timers, over every run: the list is sorted, no timer is released
  // twice, each is pending or released, and no running task has a timeout.
  lemma RunReleasesOnce(c: Clock, es: seq<Event>)
    requires c.list == [] && c.put == [] && c.next == 0 && c.motor.None? && EnabledRun(c, es)
    requires forall t :: t in c.tasks ==> c.tasks[t].timer.None? && c.tasks[t].alarm.None?
    ensures var d := RunOf(c, es);
      && Sorted(d.list, Key()) && NoDup(d.put)
      && (forall k :: 0 <= k < d.next ==> (k in d.put <==> !exists x :: x in d.list && x.id == k))
      && (forall t :: t in d.tasks && d.tasks[t].run == Running ==> d.tasks[t].timer.None?)
  {
    assert Inv(c);
    RunKeeps(c, es);
    var d := RunOf(c, es);
    hide RunOf, EnabledRun, Sorted;
    forall t | t in d.tasks && d.tasks[t].run == Running ensures d.tasks[t].timer.None? {
      if d.tasks[t].timer.Some? {
        TimedNotRunning(d, t);
      }
    }
    hide Tied;
  }

  // ------------------------------------------------------------ the code itself

  class TimerList {
    var jiffies: nat
    var list: seq<Timer>
    var tasks: map<nat, Task>
    var motor: Option<Timer>         // the floppy drive's
    var next: nat
    ghost var put: seq<nat>

    constructor (tasks: map<nat, Task>)
      requires forall t :: t in tasks ==> tasks[t].timer.None? && tasks[t].alarm.None?
      ensures State() == Clock(0, [], tasks, None, 0, []) && Inv(State())
    {
      jiffies, list, motor, next, put := 0, [], None, 0, [];
      this.tasks := tasks;
    }

    ghost function State(): Clock
      reads this
    {
      Clock(jiffies, list, tasks, motor, next, put)
    }

    // timer_put: list_remove's assertions need the timer to be in the list.
    method TimerPut(x: Timer)
      requires x in list
      modifies this`list, this`put
      ensures State() == Put(old(State()), x)
    {
      list := Without(list, x);
      put := put + [x.id];
    }

    method TimerAdd(t: nat, ms: nat, kind: Kind) returns (x: Timer)
      modifies this`list, this`next
      ensures x == NewTimer(old(State()), t, ms, kind) && State() == Add(old(State()), x)
    {
      x := Timer(next, t, jiffies + ms / JIFFY, kind);
      next := next + 1;
      list := InsertSort(list, x, Key());
    }

    // task_block, called by task t.
    method TaskBlock(t: nat, ms: nat, signalable: bool)
      requires Inv(State()) && t in tasks && tasks[t].run == Running
      modifies this
      ensures State() == Block(old(State()), t, ms, signalable) && Inv(State())
    {
      hide Inv, Inserted;
      BlockKeeps(State(), t, ms, signalable);
      if ms > 0 {
        assert tasks[t].timer.None?;
        var x := TimerAdd(t, ms, Timeout);
        tasks := tasks[t := tasks[t].(timer := Some(x))];
      }
      tasks := tasks[t := tasks[t].(run := Blocked(signalable))];
    }

    // task_unblock; active is the timer whose active field is set.
    method TaskUnblock(t: nat, active: Option<Timer>)
      requires t in tasks && tasks[t].run != Running
      requires tasks[t].timer.Some? ==> tasks[t].timer.value in list
      modifies this
      ensures State() == Unblock(old(State()), t, active)
    {
      if tasks[t].timer.Some? {
        if tasks[t].timer != active {
          TimerPut(tasks[t].timer.value);
        }
        tasks := tasks[t := tasks[t].(timer := None)];
      }
      assert tasks[t].run != Running;
      tasks := tasks[t := tasks[t].(run := Ready)];
    }

    // The body of timer_wakeup's loop.
    method FireFirst()
      requires Inv(State()) && list != [] && list[0].expires <= jiffies
      modifies this
      ensures State() == Fire(old(State())) && Inv(State()) && |list| < old(|list|)
    {
      ghost var c := State();
      FireKeeps(c);
      FireShorter(c);
      FirstLinked(c);
      hide Inv, Linked, Without;
      var x := list[0];
      assert x.expires <= jiffies;
      if x.kind == Device {
        motor := None;
      } else if x.kind == Timeout {
        TaskUnblock(x.task, Some(x));
      } else {
        tasks := tasks[x.task := tasks[x.task].(alarm := None)];
        if tasks[x.task].run == Blocked(true) {
          TaskUnblock(x.task, Some(x));
        }
      }
      TimerPut(x);
      assert State() == Fire(c);
    }

    method TimerWakeup()
      requires Inv(State())
      modifies this
      ensures State() == Wakeup(old(State())) && Inv(State())
      ensures forall x :: x in list ==> x.expires > jiffies
    {
      ghost var c := State();
      WakeupKeeps(c);
      hide Inv;
      while list != [] && list[0].expires <= jiffies
        invariant Inv(State()) && Wakeup(State()) == Wakeup(c)
        decreases |list|
      {
        FireFirst();
      }
    }

    // The copying of the task in task_fork.
    method TaskFork(p: nat, child: nat)
      requires Inv(State()) && p in tasks && tasks[p].run == Running && SlotFree(State(), child)
      modifies this`tasks
      ensures State() == Forked(old(State()), p, child)
      ensures Inv(State()) <==> old(tasks)[p].alarm.None?
    {
      ForkKeepsIff(State(), p, child);
      hide Inv;
      tasks := tasks[child := tasks[p].(run := Ready)];
    }

    // timer_remove, and the task's state.
    method TaskExit(t: nat)
      requires Inv(State()) && t in tasks && tasks[t].run == Running
      modifies this
      ensures State() == Exit(old(State()), t)
      ensures Inv(State()) <==> old(motor).None? || old(motor).value.task != t
    {
      ghost var c := State();
      ExitKeepsIff(c, t);
      InvNumbered(c);
      hide Inv, Numbered, Sorted, Without;
      var was := list;
      for i := 0 to |was|
        invariant State() == Removed(c, was, t, i)
      {
        if was[i].task == t {
          RemovedIs(c, was, t, i);
          NotBefore(was, c.next, c.put, i);
          TimerPut(was[i]);
        }
      }
      RemovedIs(c, was, t, |was|);
      tasks := tasks[t := tasks[t].(run := Died)];
    }

    // fd_motor_off
    method FdMotorOff(t: nat, ms: nat)
      requires Inv(State())
      modifies this
      ensures State() == MotorOff(old(State()), t, ms) && Inv(State())
    {
      hide Inv, Inserted, Without, Expiry;
      MotorOffKeeps(State(), t, ms);
      if motor.None? {
        var x := TimerAdd(t, ms, Device);
        motor := Some(x);
      } else {
        TimerUpdate(ms);
      }
    }

    // timer_update of the drive's timer
    method TimerUpdate(ms: nat)
      requires motor.Some?
      modifies this`list, this`motor
      ensures State() == Updated(old(State()), old(motor).value, ms)
    {
      var y := motor.value.(expires := jiffies + ms / JIFFY);
      list := InsertSort(Without(list, motor.value), y, Key());
      motor := Some(y);
    }

    method SysAlarm(t: nat, sec: nat)
      requires Inv(State()) && t in tasks && tasks[t].run == Running
      modifies this
      ensures State() == SetAlarm(old(State()), t, sec) && Inv(State())
    {
      SetAlarmKeeps(State(), t, sec);
      assert Backed(list, t, tasks[t]);
      hide Inv, Inserted, Without;
      if tasks[t].alarm.Some? {
        TimerPut(tasks[t].alarm.value);
      }
      var x := TimerAdd(t, sec * 1000, Alarm);
      tasks := tasks[t := tasks[t].(alarm := Some(x))];
    }
  }

  lemma InvNumbered(c: Clock)
    requires Inv(c)
    ensures Numbered(c.list, c.next, c.put) && Sorted(c.list, Key())
  {}

  // What the first timer's task looks like, and that its timeout is a timer in the list.
  lemma FirstLinked(c: Clock)
    requires Inv(c) && c.list != []
    ensures c.list[0].kind != Device ==> c.list[0].task in c.tasks && TimerListed(c, c.list[0].task)
    ensures c.list[0].kind == Timeout ==>
      c.tasks[c.list[0].task].run.Blocked? && c.tasks[c.list[0].task].timer == Some(c.list[0])
    ensures c.list[0].kind == Alarm ==> c.tasks[c.list[0].task].timer != Some(c.list[0])
    ensures forall y :: y in c.list && y != c.list[0] ==> c.list[0] in Without(c.list, y)
  {
    var x := c.list[0];
    assert Linked(c.tasks, x);
    if x.kind != Device {
      assert Backed(c.list, x.task, c.tasks[x.task]);
    }
    forall y | y in c.list && y != x ensures x in Without(c.list, y) {
      WithoutShorter(c.list, y);
    }
  }

  predicate TimerListed(c: Clock, t: nat)
    requires t in c.tasks
  {
    c.tasks[t].timer.Some? ==> c.tasks[t].timer.value in c.list
  }
}
