// When tasks wake: over every run the sorted list of src/kernel/timer.c does to the tasks what
// each task's own request would, measured against the clock.
module Deadlines {
  import opened Lists
  import opened Timers
  import opened Wrappers

  // ms milliseconds, asked for when the clock stood at `at`.
  datatype Request = Request(at: nat, ms: nat)

  // The time is up: a tick is 10 milliseconds, and the fraction of one that was asked for is lost.
  predicate Over(r: Request, now: nat) {
    (now - r.at + 1) * JIFFY > r.ms
  }

  datatype Sleeper = Sleeper(run: Run, wait: Option<Request>, alarm: Option<Request>)
  datatype World = World(now: nat, tasks: map<nat, Sleeper>, motor: Option<Request>)

  predicate Up(r: Option<Request>, now: nat) {
    r.Some? && Over(r.value, now)
  }

  // A tick, for one task: its alarm rings when its time is up, and wakes it if it may be
  // interrupted; its wait ends when its time is up.
  function Ticked(s: Sleeper, now: nat): Sleeper {
    var rings := Up(s.alarm, now);
    var alarm := if rings then None else s.alarm;
    if Up(s.wait, now) || (rings && s.run == Blocked(true)) then Sleeper(Ready, None, alarm)
    else s.(alarm := alarm)
  }

  function AllTicked(w: World): World {
    World(w.now, map t | t in w.tasks :: Ticked(w.tasks[t], w.now), if Up(w.motor, w.now) then None else w.motor)
  }

  function SetSleeper(w: World, t: nat, s: Sleeper): World {
    w.(tasks := w.tasks[t := s])
  }

  predicate Possible(w: World, e: Event) {
    match e
    case DoTick => true
    case DoFork(p, _) => p in w.tasks
    case _ => e.t in w.tasks
  }

  // The simple machine: no list, and no timers.
  function WorldStep(w: World, e: Event): World
    requires Possible(w, e)
  {
    match e
    case DoBlock(t, ms, signalable) =>
      var wait := if ms > 0 then Some(Request(w.now, ms)) else None;
      SetSleeper(w, t, w.tasks[t].(run := Blocked(signalable), wait := wait))
    case DoUnblock(t) => SetSleeper(w, t, w.tasks[t].(run := Ready, wait := None))
    case DoAlarm(t, sec) => SetSleeper(w, t, w.tasks[t].(alarm := Some(Request(w.now, sec * 1000))))
    case DoTick => AllTicked(w.(now := w.now + 1))
    case DoExit(t) => SetSleeper(w, t, Sleeper(Died, None, None))
    case DoSwitch(t, run) => SetSleeper(w, t, w.tasks[t].(run := run))
    case DoMotor(t, ms) => w.(motor := Some(Request(w.now, ms)))
    case DoFork(p, child) => SetSleeper(w, child, Sleeper(Ready, None, None))
  }

  // ------------------------------------------------------------- the relation

  // Timer x is the one that request r made, and is still to fire.
  predicate Serves(x: Option<Timer>, r: Option<Request>, now: nat) {
    x.Some? == r.Some? && (x.Some? ==> r.value.at <= now && x.value.expires == r.value.at + r.value.ms / JIFFY)
  }

  // A timer expires at the first tick for which its request is over.
  lemma ServesUp(x: Option<Timer>, r: Option<Request>, now: nat)
    requires Serves(x, r, now)
    ensures Up(r, now) <==> x.Some? && x.value.expires <= now
  {
    if x.Some? {
      var k, n := now - r.value.at, r.value.ms;
      assert n == JIFFY * (n / JIFFY) + n % JIFFY;
    }
  }

  predicate Same(task: Task, s: Sleeper, now: nat) {
    task.run == s.run &&
    if task.run.Died? then s.wait.None? && s.alarm.None?
    else Serves(task.timer, s.wait, now) && Serves(task.alarm, s.alarm, now)
  }

  ghost predicate Related(c: Clock, w: World) {
    && w.now == c.jiffies && w.tasks.Keys == c.tasks.Keys && Serves(c.motor, w.motor, c.jiffies)
    && forall t :: t in c.tasks ==> Same(c.tasks[t], w.tasks[t], c.jiffies)
  }

  // ----------------------------------------------------------------- a tick

  // What one round of timer_wakeup does, seen in the simple machine.
  function Fired(w: World, x: Timer): World
    requires x.kind != Device ==> x.task in w.tasks
  {
    if x.kind == Device then w.(motor := None)
    else
      var s := w.tasks[x.task];
      if x.kind == Timeout then SetSleeper(w, x.task, s.(run := Ready, wait := None))
      else if s.run == Blocked(true) then SetSleeper(w, x.task, Sleeper(Ready, None, None))
      else SetSleeper(w, x.task, s.(alarm := None))
  }

  lemma FiredRelated(c: Clock, w: World)
    requires Inv(c) && Related(c, w) && c.list != []
    ensures c.list[0].kind != Device ==> c.list[0].task in w.tasks
    ensures Related(Fire(c), Fired(w, c.list[0]))
  {
    var x := c.list[0];
    FirstPoints(c);
    hide Without, Inv;
    if x.kind == Device {
      assert Fire(c).tasks == c.tasks;
    } else {
      assert Same(c.tasks[x.task], w.tasks[x.task], c.jiffies);
      assert Fire(c).tasks == c.tasks[x.task := Fire(c).tasks[x.task]];
      SetRelated(c, w, Fire(c), x.task, Fire(c).tasks[x.task], Fired(w, x).tasks[x.task]);
    }
  }

  // Whose the first timer is.
  lemma FirstPoints(c: Clock)
    requires Inv(c) && c.list != []
    ensures var x := c.list[0];
      match x.kind
      case Device => c.motor == Some(x)
      case Timeout => x.task in c.tasks && c.tasks[x.task].timer == Some(x) && c.tasks[x.task].run.Blocked?
      case Alarm => x.task in c.tasks && c.tasks[x.task].alarm == Some(x) && !c.tasks[x.task].run.Died?
    ensures c.list[0].kind == Alarm ==> c.tasks[c.list[0].task].timer != Some(c.list[0])
  {
    hide Sorted, Numbered;
    assert Linked(c.tasks, c.list[0]);
    FirstLinked(c);
  }

  // What the timer was for is up.
  lemma FirstUp(c: Clock, w: World)
    requires Inv(c) && Related(c, w) && c.list != [] && c.list[0].expires <= c.jiffies
    ensures var x := c.list[0];
      match x.kind
      case Device => Up(w.motor, w.now)
      case Timeout => x.task in w.tasks && Up(w.tasks[x.task].wait, w.now)
      case Alarm => x.task in w.tasks && Up(w.tasks[x.task].alarm, w.now)
  {
    var x := c.list[0];
    FirstPoints(c);
    hide Inv, Over;
    if x.kind == Device {
      ServesUp(c.motor, w.motor, c.jiffies);
    } else {
      var s, task := w.tasks[x.task], c.tasks[x.task];
      assert Same(task, s, c.jiffies);
      ServesUp(task.timer, s.wait, c.jiffies);
      ServesUp(task.alarm, s.alarm, c.jiffies);
    }
  }

  // Firing it first makes no difference to the tick.
  lemma FiredTicked(c: Clock, w: World)
    requires Inv(c) && Related(c, w) && c.list != [] && c.list[0].expires <= c.jiffies
    requires c.list[0].kind != Device ==> c.list[0].task in w.tasks
    ensures AllTicked(Fired(w, c.list[0])) == AllTicked(w)
  {
    var x := c.list[0];
    FirstUp(c, w);
    hide Inv, Related, Up;
    if x.kind != Device {
      assert Ticked(Fired(w, x).tasks[x.task], w.now) == Ticked(w.tasks[x.task], w.now) by { TickedTwice(w, x); }
      hide Ticked;
      assert AllTicked(Fired(w, x)).tasks == AllTicked(w).tasks;
    } else {
      assert AllTicked(Fired(w, x)).motor == AllTicked(w).motor by { MotorTwice(w); }
    }
  }

  lemma TickedTwice(w: World, x: Timer)
    requires x.kind != Device && x.task in w.tasks
    requires if x.kind == Timeout then Up(w.tasks[x.task].wait, w.now) else Up(w.tasks[x.task].alarm, w.now)
    ensures Ticked(Fired(w, x).tasks[x.task], w.now) == Ticked(w.tasks[x.task], w.now)
  {
    hide Over;
  }

  lemma MotorTwice(w: World)
    requires Up(w.motor, w.now)
    ensures AllTicked(w.(motor := None)).motor == AllTicked(w).motor
  {}

  // With no timer due nothing is up.
  lemma NothingUp(c: Clock, w: World)
    requires Inv(c) && Related(c, w) && forall x :: x in c.list ==> x.expires > c.jiffies
    ensures AllTicked(w) == w
  {
    hide Sorted, Numbered, Over;
    ServesUp(c.motor, w.motor, c.jiffies);
    forall t | t in w.tasks ensures Ticked(w.tasks[t], w.now) == w.tasks[t] {
      var task, s := c.tasks[t], w.tasks[t];
      assert Same(task, s, c.jiffies) && Backed(c.list, t, task);
      if !task.run.Died? {
        ServesUp(task.timer, s.wait, c.jiffies);
        ServesUp(task.alarm, s.alarm, c.jiffies);
      }
    }
    hide Ticked, Related, Tied, MotorTied;
    assert AllTicked(w).tasks == w.tasks;
  }

  lemma {:induction false} WakeupRelated(c: Clock, w: World)
    requires Inv(c) && Related(c, w)
    ensures Related(Wakeup(c), AllTicked(w))
    decreases |c.list|
  {
    hide Inv, Related, Fire, Fired, AllTicked;
    if c.list == [] || c.list[0].expires > c.jiffies {
      NotDue(c);
      NothingUp(c, w);
    } else {
      FiredRelated(c, w);
      FiredTicked(c, w);
      FireKeeps(c);
      FireShorter(c);
      WakeupRelated(Fire(c), Fired(w, c.list[0]));
    }
  }

  lemma NotDue(c: Clock)
    requires Inv(c) && (c.list == [] || c.list[0].expires > c.jiffies)
    ensures forall x :: x in c.list ==> x.expires > c.jiffies
  {
    WakeupKeeps(c);
  }

  lemma TickRelated(c: Clock, w: World)
    requires Inv(c) && Related(c, w)
    ensures Related(Tick(c), AllTicked(w.(now := w.now + 1)))
  {
    var d, v := c.(jiffies := c.jiffies + 1), w.(now := w.now + 1);
    forall t | t in d.tasks ensures Same(d.tasks[t], v.tasks[t], d.jiffies) {
      assert Same(c.tasks[t], w.tasks[t], c.jiffies);
    }
    WakeupRelated(d, v);
  }

  // -------------------------------------------------------------------- the runs

  lemma StepPossible(c: Clock, w: World, e: Event)
    requires Related(c, w) && Enabled(c, e)
    ensures Possible(w, e)
  {}

  // One task changes.
  lemma SetRelated(c: Clock, w: World, d: Clock, t: nat, task: Task, s: Sleeper)
    requires Related(c, w) && d.jiffies == c.jiffies && d.motor == c.motor && d.tasks == c.tasks[t := task]
    requires Same(task, s, c.jiffies)
    ensures Related(d, SetSleeper(w, t, s))
  {
    hide Same, Serves;
  }

  lemma BlockRelated(c: Clock, w: World, t: nat, ms: nat, signalable: bool)
    requires Inv(c) && Related(c, w) && Enabled(c, DoBlock(t, ms, signalable))
    ensures t in w.tasks && Related(Block(c, t, ms, signalable), WorldStep(w, DoBlock(t, ms, signalable)))
  {
    BlockKeeps(c, t, ms, signalable);
    var d := Block(c, t, ms, signalable);
    var s := WorldStep(w, DoBlock(t, ms, signalable)).tasks[t];
    assert Same(c.tasks[t], w.tasks[t], c.jiffies);
    hide Inv, Inserted, Over;
    SetRelated(c, w, d, t, d.tasks[t], s);
  }

  lemma UnblockRelated(c: Clock, w: World, t: nat)
    requires Inv(c) && Related(c, w) && Enabled(c, DoUnblock(t))
    ensures t in w.tasks && Related(Unblock(c, t, None), WorldStep(w, DoUnblock(t)))
  {
    var d := Unblock(c, t, None);
    var s := WorldStep(w, DoUnblock(t)).tasks[t];
    assert Same(c.tasks[t], w.tasks[t], c.jiffies);
    hide Inv, Without, Over;
    SetRelated(c, w, d, t, d.tasks[t], s);
  }

  lemma AlarmRelated(c: Clock, w: World, t: nat, sec: nat)
    requires Inv(c) && Related(c, w) && Enabled(c, DoAlarm(t, sec))
    ensures t in w.tasks && Related(SetAlarm(c, t, sec), WorldStep(w, DoAlarm(t, sec)))
  {
    var d := SetAlarm(c, t, sec);
    var s := WorldStep(w, DoAlarm(t, sec)).tasks[t];
    assert Same(c.tasks[t], w.tasks[t], c.jiffies);
    hide Inv, Inserted, Without, Over;
    SetRelated(c, w, d, t, d.tasks[t], s);
  }

  lemma ExitRelated(c: Clock, w: World, t: nat)
    requires Inv(c) && Related(c, w) && Enabled(c, DoExit(t))
    ensures t in w.tasks && Related(Exit(c, t), WorldStep(w, DoExit(t)))
  {
    var d := Exit(c, t);
    RemovedIs(c, c.list, t, |c.list|);
    hide Inv, Removed, Over;
    SetRelated(c, w, d, t, d.tasks[t], Sleeper(Died, None, None));
  }

  lemma ForkRelated(c: Clock, w: World, p: nat, child: nat)
    requires Inv(c) && Related(c, w) && Enabled(c, DoFork(p, child))
    ensures p in w.tasks && Related(Forked(c, p, child), WorldStep(w, DoFork(p, child)))
  {
    if c.tasks[p].timer.Some? {
      TimedNotRunning(c, p);
    }
    var d := Forked(c, p, child);
    assert Same(c.tasks[p], w.tasks[p], c.jiffies);
    hide Inv, Over;
    SetRelated(c, w, d, child, d.tasks[child], Sleeper(Ready, None, None));
  }

  lemma MotorRelated(c: Clock, w: World, t: nat, ms: nat)
    requires Related(c, w)
    ensures Related(MotorOff(c, t, ms), w.(motor := Some(Request(w.now, ms))))
  {
    var d, v := MotorOff(c, t, ms), w.(motor := Some(Request(w.now, ms)));
    hide Inserted, Without, Same;
    forall u | u in d.tasks ensures Same(d.tasks[u], v.tasks[u], d.jiffies) {
      assert Same(c.tasks[u], w.tasks[u], c.jiffies);
    }
  }

  lemma SwitchRelated(c: Clock, w: World, t: nat, run: Run)
    requires Related(c, w) && Enabled(c, DoSwitch(t, run))
    ensures t in w.tasks && Related(SetTask(c, t, c.tasks[t].(run := run)), WorldStep(w, DoSwitch(t, run)))
  {
    assert Same(c.tasks[t], w.tasks[t], c.jiffies);
    SetRelated(c, w, SetTask(c, t, c.tasks[t].(run := run)), t, c.tasks[t].(run := run), w.tasks[t].(run := run));
  }

  lemma StepRelated(c: Clock, w: World, e: Event)
    requires Inv(c) && Related(c, w) && Enabled(c, e)
    ensures Possible(w, e) && Related(Step(c, e), WorldStep(w, e))
  {
    StepPossible(c, w, e);
    hide Inv, Related, Block, Unblock, SetAlarm, Exit, MotorOff, Tick, Forked, AllTicked, SetTask, SetSleeper;
    match e
    case DoBlock(t, ms, signalable) => BlockRelated(c, w, t, ms, signalable);
    case DoUnblock(t) => UnblockRelated(c, w, t);
    case DoAlarm(t, sec) => AlarmRelated(c, w, t, sec);
    case DoTick => TickRelated(c, w);
    case DoExit(t) => ExitRelated(c, w, t);
    case DoSwitch(t, run) => SwitchRelated(c, w, t, run);
    case DoMotor(t, ms) => MotorRelated(c, w, t, ms);
    case DoFork(p, child) => ForkRelated(c, w, p, child);
  }

  ghost predicate PossibleRun(w: World, es: seq<Event>)
    decreases |es|
  {
    es == [] || (Possible(w, es[0]) && PossibleRun(WorldStep(w, es[0]), es[1..]))
  }

  ghost function WorldRun(w: World, es: seq<Event>): World
    requires PossibleRun(w, es)
    decreases |es|
  {
    if es == [] then w else WorldRun(WorldStep(w, es[0]), es[1..])
  }

  // Over every run each task is blocked, ready, running or dead just when it is in the simple
  // machine: a wait ends, and an alarm rings, at the first tick for which the time asked for is
  // up, or as the other events say.
  lemma {:induction false} RunIsTimely(c: Clock, w: World, es: seq<Event>)
    requires Inv(c) && Related(c, w) && EnabledRun(c, es)
    ensures PossibleRun(w, es) && Related(RunOf(c, es), WorldRun(w, es))
    ensures forall t :: t in RunOf(c, es).tasks ==>
      t in WorldRun(w, es).tasks && RunOf(c, es).tasks[t].run == WorldRun(w, es).tasks[t].run
    decreases |es|
  {
    hide Inv, Enabled, Step, Related, WorldStep, Possible;
    if es == [] {
      RelatedRuns(c, w);
    } else {
      StepRelated(c, w, es[0]);
      StepKeeps(c, es[0]);
      RunIsTimely(Step(c, es[0]), WorldStep(w, es[0]), es[1..]);
    }
  }

  lemma RelatedRuns(c: Clock, w: World)
    requires Related(c, w)
    ensures forall t :: t in c.tasks ==> t in w.tasks && c.tasks[t].run == w.tasks[t].run
  {
    forall t | t in c.tasks ensures t in w.tasks && c.tasks[t].run == w.tasks[t].run {
      assert Same(c.tasks[t], w.tasks[t], c.jiffies);
    }
  }
}
