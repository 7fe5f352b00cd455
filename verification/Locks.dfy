// The reentrant lock of src/kernel/mutex.c as a state machine: a task may be preempted
// between any two of its steps, except inside mutex_lock and mutex_unlock, which run with
// interrupts off up to the point where they block or yield.
module Locks {
  import opened Lists
  import opened Wrappers

  // Where a task is. Idle is outside lock_acquire and lock_release, depth calls deep in
  // the lock; the others are the points between the assignments of those two.
  datatype Pc =
    | Idle(depth: nat)
    | Trying                         // at mutex_lock's test
    | Asleep                         // blocked in mutex_lock
    | GotMutex                       // before holder = current
    | Holding                        // before repeat = 1
    | Leaving                        // before holder = NULL
    | Clearing                       // before repeat = 0
    | Unlocking                      // before mutex_unlock

  // woken records which tasks mutex_unlock has woken and that have not tried again yet.
  datatype Lock = Lock(value: bool, holder: Option<nat>, repeat: nat, waiters: seq<nat>,
                       pcs: map<nat, Pc>, woken: set<nat>)

  function PcOf(l: Lock, t: nat): Pc {
    if t in l.pcs then l.pcs[t] else Idle(0)
  }

  function At(l: Lock, t: nat, pc: Pc): Lock {
    l.(pcs := l.pcs[t := pc])
  }

  // The mutex is the task's.
  predicate Owns(pc: Pc) {
    pc.GotMutex? || pc.Holding? || (pc.Idle? && pc.depth > 0) || pc.Leaving? || pc.Clearing? || pc.Unlocking?
  }

  // holder names the task.
  predicate Named(pc: Pc) {
    pc.Holding? || (pc.Idle? && pc.depth > 0) || pc.Leaving?
  }

  function RepeatAt(pc: Pc): nat {
    if pc.Idle? then pc.depth else if pc.Leaving? || pc.Clearing? then 1 else 0
  }

  // At most one task has the lock, and value, holder and repeat say how far it is in.
  ghost predicate OneOwner(l: Lock) {
    && (forall s, t :: Owns(PcOf(l, s)) && Owns(PcOf(l, t)) ==> s == t)
    && (l.value <==> exists t :: Owns(PcOf(l, t)))
    && (forall t: nat :: l.holder == Some(t) <==> Named(PcOf(l, t)))
    && (forall t :: Owns(PcOf(l, t)) ==> l.repeat == RepeatAt(PcOf(l, t)))
    && (!l.value ==> l.repeat == 0)
  }

  ghost predicate Queued(l: Lock) {
    NoDup(l.waiters) && forall t :: t in l.waiters <==> PcOf(l, t).Asleep?
  }

  // When the mutex is free and tasks are queued, a task already woken is due to try it.
  ghost predicate NoneForgotten(l: Lock) {
    && (forall t :: t in l.woken ==> PcOf(l, t).Trying?)
    && (!l.value && l.waiters != [] ==> l.woken != {})
  }

  ghost predicate Inv(l: Lock) {
    OneOwner(l) && Queued(l) && NoneForgotten(l)
  }

  // ------------------------------------------------------------------ steps

  datatype Event =
    | Acquire(t: nat)                // lock_acquire's test of holder
    | Try(t: nat)                    // a round of mutex_lock
    | SetHolder(t: nat)
    | SetRepeat(t: nat)
    | Release(t: nat)                // lock_release up to its assignments
    | ClearHolder(t: nat)
    | ClearRepeat(t: nat)
    | Unlock(t: nat)                 // mutex_unlock

  // Only a task that is in the lock releases it.
  predicate Enabled(l: Lock, e: Event) {
    match e
    case Acquire(t) => PcOf(l, t).Idle?
    case Try(t) => PcOf(l, t).Trying?
    case SetHolder(t) => PcOf(l, t).GotMutex?
    case SetRepeat(t) => PcOf(l, t).Holding?
    case Release(t) => PcOf(l, t).Idle? && PcOf(l, t).depth > 0
    case ClearHolder(t) => PcOf(l, t).Leaving?
    case ClearRepeat(t) => PcOf(l, t).Clearing?
    case Unlock(t) => PcOf(l, t).Unlocking?
  }

  // The source's assertions.
  predicate Safe(l: Lock, e: Event) {
    match e
    case SetRepeat(t) => l.repeat == 0
    case Release(t) => l.holder == Some(t) && l.repeat >= 1
    case Unlock(t) => l.value
    case _ => true
  }

  // list_push puts a waiter in front; mutex_unlock wakes the one at the back.
  function Longest(l: Lock): nat
    requires l.waiters != []
  {
    l.waiters[|l.waiters| - 1]
  }

  function Unlocked(l: Lock, t: nat): Lock {
    var m := At(l.(value := false), t, Idle(0));
    if l.waiters == [] then m
    else At(m.(waiters := l.waiters[..|l.waiters| - 1], woken := l.woken + {Longest(l)}), Longest(l), Trying)
  }

  function Step(l: Lock, e: Event): Lock
    requires Enabled(l, e)
  {
    match e
    case Acquire(t) =>
      if l.holder == Some(t) then At(l.(repeat := l.repeat + 1), t, Idle(PcOf(l, t).depth + 1)) else At(l, t, Trying)
    case Try(t) =>
      if l.value then At(l.(waiters := [t] + l.waiters, woken := l.woken - {t}), t, Asleep)
      else At(l.(value := true, woken := l.woken - {t}), t, GotMutex)
    case SetHolder(t) => At(l.(holder := Some(t)), t, Holding)
    case SetRepeat(t) => At(l.(repeat := 1), t, Idle(1))
    case Release(t) =>
      if l.repeat > 1 then At(l.(repeat := l.repeat - 1), t, Idle(PcOf(l, t).depth - 1)) else At(l, t, Leaving)
    case ClearHolder(t) => At(l.(holder := None), t, Clearing)
    case ClearRepeat(t) => At(l.(repeat := 0), t, Unlocking)
    case Unlock(t) => Unlocked(l, t)
  }

  // A step of one task that leaves the others where they are.
  ghost predicate Alone(l: Lock, m: Lock, t: nat) {
    forall s :: s != t ==> PcOf(m, s) == PcOf(l, s)
  }

  lemma QueuedSame(l: Lock, m: Lock, t: nat)
    requires Queued(l) && Alone(l, m, t) && !PcOf(l, t).Asleep? && !PcOf(m, t).Asleep? && m.waiters == l.waiters
    ensures Queued(m)
  {
    hide PcOf, NoDup;
  }

  lemma QueuedPush(l: Lock, m: Lock, t: nat)
    requires Queued(l) && Alone(l, m, t) && !PcOf(l, t).Asleep? && PcOf(m, t).Asleep? && m.waiters == [t] + l.waiters
    ensures Queued(m)
  {
    hide PcOf;
    PushNoDup(l.waiters, t);
    hide NoDup;
  }

  lemma QueuedUnlock(l: Lock, t: nat)
    requires Queued(l) && PcOf(l, t).Unlocking?
    ensures Queued(Unlocked(l, t))
  {
    var m := Unlocked(l, t);
    if l.waiters == [] {
      QueuedSame(l, m, t);
    } else {
      assert l.waiters == l.waiters[..|l.waiters| - 1] + [Longest(l)];
      assert forall s :: s in m.waiters <==> s in l.waiters && s != Longest(l);
    }
  }

  lemma QueuedStep(l: Lock, e: Event)
    requires Queued(l) && Enabled(l, e)
    ensures Queued(Step(l, e))
  {
    var m := Step(l, e);
    if e.Unlock? {
      QueuedUnlock(l, e.t);
    } else if e.Try? && l.value {
      hide Queued;
      QueuedPush(l, m, e.t);
    } else {
      hide Queued;
      QueuedSame(l, m, e.t);
    }
  }

  lemma StepSafe(l: Lock, e: Event)
    requires OneOwner(l) && Enabled(l, e)
    ensures Safe(l, e)
  {
    assert Owns(PcOf(l, e.t)) || e.Acquire? || e.Try?;
  }

  // A task that does not own the mutex takes a step, and gets it only when it is free.
  lemma EnterStep(l: Lock, m: Lock, t: nat)
    requires OneOwner(l) && Alone(l, m, t) && !Owns(PcOf(l, t)) && m.holder == l.holder && m.repeat == l.repeat
    requires if PcOf(m, t).GotMutex? then !l.value && m.value else !Owns(PcOf(m, t)) && m.value == l.value
    ensures OneOwner(m)
  {
    hide PcOf;
  }

  // The owner takes a step and stays the owner.
  lemma OwnerStep(l: Lock, m: Lock, t: nat)
    requires OneOwner(l) && Alone(l, m, t) && Owns(PcOf(l, t)) && Owns(PcOf(m, t)) && m.value == l.value
    requires m.repeat == RepeatAt(PcOf(m, t))
    requires m.holder == if Named(PcOf(m, t)) then Some(t) else None
    ensures OneOwner(m)
  {
    hide PcOf;
    assert forall s :: s != t ==> !Owns(PcOf(m, s)) && !Named(PcOf(m, s));
  }

  lemma UnlockStep(l: Lock, t: nat)
    requires OneOwner(l) && Queued(l) && PcOf(l, t).Unlocking?
    ensures OneOwner(Unlocked(l, t))
  {
    var m := Unlocked(l, t);
    assert Owns(PcOf(l, t));
    assert l.waiters != [] ==> Longest(l) in l.waiters && PcOf(l, Longest(l)).Asleep?;
    forall s ensures !Owns(PcOf(m, s)) && !Named(PcOf(m, s)) {
      assert s != t ==> !Owns(PcOf(l, s));
    }
    hide PcOf;
  }

  lemma OneOwnerStep(l: Lock, e: Event)
    requires OneOwner(l) && Queued(l) && Enabled(l, e)
    ensures OneOwner(Step(l, e))
  {
    StepSafe(l, e);
    var m := Step(l, e);
    if e.Unlock? {
      UnlockStep(l, e.t);
    } else if Owns(PcOf(l, e.t)) {
      OwnerNamed(l, e.t);
      hide OneOwner, Queued;
      OwnerStep(l, m, e.t);
    } else {
      NotNamed(l, e.t);
      hide OneOwner, Queued;
      EnterStep(l, m, e.t);
    }
  }

  lemma OwnerNamed(l: Lock, t: nat)
    requires OneOwner(l) && Owns(PcOf(l, t))
    ensures l.holder == (if Named(PcOf(l, t)) then Some(t) else None) && l.repeat == RepeatAt(PcOf(l, t))
  {
    if l.holder.Some? {
      assert Owns(PcOf(l, l.holder.value));
    }
  }

  lemma NotNamed(l: Lock, t: nat)
    requires OneOwner(l) && !Owns(PcOf(l, t))
    ensures l.holder != Some(t)
  {}

  lemma NoneForgottenStep(l: Lock, e: Event)
    requires Inv(l) && Enabled(l, e)
    ensures NoneForgotten(Step(l, e))
  {
    assert e.Unlock? && l.waiters != [] ==> Longest(l) in l.waiters;
    assert Owns(PcOf(l, e.t)) || e.Acquire? || e.Try?;
  }

  lemma StepKeeps(l: Lock, e: Event)
    requires Inv(l) && Enabled(l, e)
    ensures Safe(l, e) && Inv(Step(l, e))
  {
    StepSafe(l, e);
    QueuedStep(l, e);
    OneOwnerStep(l, e);
    NoneForgottenStep(l, e);
    hide OneOwner, Queued, NoneForgotten;
  }

  // A task inside the lock is the only one, and repeat is how deep it is.
  lemma Inside(l: Lock, t: nat)
    requires Inv(l) && PcOf(l, t).Idle? && PcOf(l, t).depth > 0
    ensures l.value && l.holder == Some(t) && l.repeat == PcOf(l, t).depth
    ensures forall s :: s != t ==> !Owns(PcOf(l, s))
  {
    assert Owns(PcOf(l, t));
  }

  ghost predicate EnabledRun(l: Lock, es: seq<Event>)
    decreases |es|
  {
    es == [] || (Enabled(l, es[0]) && EnabledRun(Step(l, es[0]), es[1..]))
  }

  ghost function Run(l: Lock, es: seq<Event>): Lock
    requires EnabledRun(l, es)
    decreases |es|
  {
    if es == [] then l else Run(Step(l, es[0]), es[1..])
  }

  // lock_init
  function NewLock(): Lock {
    Lock(false, None, 0, [], map[], {})
  }

  lemma {:induction false} RunKeepsFrom(l: Lock, es: seq<Event>)
    requires Inv(l) && EnabledRun(l, es)
    ensures Inv(Run(l, es))
    decreases |es|
  {
    hide Inv, Step, Enabled;
    if es != [] {
      StepKeeps(l, es[0]);
      RunKeepsFrom(Step(l, es[0]), es[1..]);
    }
  }

  // In every interleaving of any number of tasks at most one is in the lock, no assertion
  // fails next, and no waiter is forgotten.
  lemma MutualExclusion(es: seq<Event>, s: nat, t: nat, e: Event)
    requires EnabledRun(NewLock(), es)
    ensures var l := Run(NewLock(), es);
      && Inv(l) && (Owns(PcOf(l, s)) && Owns(PcOf(l, t)) ==> s == t)
      && (Enabled(l, e) ==> Safe(l, e))
      && (!l.value && l.waiters != [] ==> exists w :: w in l.woken && PcOf(l, w).Trying?)
  {
    hide Run, EnabledRun, Inv, NewLock;
    NewLockInv();
    RunKeepsFrom(NewLock(), es);
    InvMeans(Run(NewLock(), es), s, t, e);
  }

  lemma NewLockInv()
    ensures Inv(NewLock())
  {}

  lemma InvMeans(l: Lock, s: nat, t: nat, e: Event)
    requires Inv(l)
    ensures Owns(PcOf(l, s)) && Owns(PcOf(l, t)) ==> s == t
    ensures Enabled(l, e) ==> Safe(l, e)
    ensures !l.value && l.waiters != [] ==> exists w :: w in l.woken && PcOf(l, w).Trying?
  {
    if Enabled(l, e) {
      StepSafe(l, e);
    }
    if !l.value && l.waiters != [] {
      var w :| w in l.woken;
    }
  }

  // ---------------------------------------------------------------- the queue

  // Who waits, in the order of arrival: a task that falls asleep comes last, and mutex_unlock
  // takes the first.
  function QueueStep(l: Lock, q: seq<nat>, e: Event): seq<nat>
    requires Enabled(l, e)
  {
    if !PcOf(l, e.t).Asleep? && PcOf(Step(l, e), e.t).Asleep? then q + [e.t]
    else if e.Unlock? && q != [] then q[1..]
    else q
  }

  ghost function QueueRun(l: Lock, q: seq<nat>, es: seq<Event>): seq<nat>
    requires EnabledRun(l, es)
    decreases |es|
  {
    if es == [] then q else QueueRun(Step(l, es[0]), QueueStep(l, q, es[0]), es[1..])
  }

  predicate InOrder(l: Lock, q: seq<nat>) {
    |q| == |l.waiters| && forall i :: 0 <= i < |q| ==> q[i] == l.waiters[|q| - 1 - i]
  }

  // The task that mutex_unlock wakes is the one that has waited longest, and no other goes on.
  lemma QueueOrder(l: Lock, q: seq<nat>, e: Event)
    requires Inv(l) && InOrder(l, q) && Enabled(l, e)
    ensures InOrder(Step(l, e), QueueStep(l, q, e))
    ensures forall s :: PcOf(l, s).Asleep? && !PcOf(Step(l, e), s).Asleep? ==> e.Unlock? && q != [] && s == q[0]
    ensures e.Unlock? && q != [] ==> PcOf(Step(l, e), q[0]).Trying?
  {
    assert e.Unlock? && l.waiters != [] ==> Longest(l) == q[0] && PcOf(l, Longest(l)).Asleep? by {
      hide OneOwner, NoneForgotten;
      assert l.waiters != [] ==> Longest(l) in l.waiters;
    }
    hide Inv;
  }

  // Over every run tasks are woken in the order in which they began to wait.
  lemma {:induction false} FirstCome(l: Lock, q: seq<nat>, es: seq<Event>)
    requires Inv(l) && InOrder(l, q) && EnabledRun(l, es)
    ensures InOrder(Run(l, es), QueueRun(l, q, es))
    decreases |es|
  {
    hide Inv, InOrder, Step, Enabled, QueueStep;
    if es != [] {
      QueueOrder(l, q, es[0]);
      StepKeeps(l, es[0]);
      FirstCome(Step(l, es[0]), QueueStep(l, q, es[0]), es[1..]);
    }
  }

  // ------------------------------------------------------------ the code itself

  class LockRecord {
    var value: bool
    var holder: Option<nat>
    var repeat: nat
    var waiters: seq<nat>

    constructor ()
      ensures Shows(NewLock())
    {
      value, holder, repeat, waiters := false, None, 0, [];
    }

    // The fields are those of the state l.
    predicate Shows(l: Lock)
      reads this
    {
      value == l.value && holder == l.holder && repeat == l.repeat && waiters == l.waiters
    }

    // lock_acquire's test; when it fails, mutex_lock is next.
    method AcquireTest(current: nat, ghost l: Lock) returns (reentered: bool)
      requires Inv(l) && Shows(l) && Enabled(l, Acquire(current))
      modifies this`repeat
      ensures Shows(Step(l, Acquire(current))) && (reentered <==> PcOf(l, current).depth > 0)
    {
      assert Named(PcOf(l, current)) == (holder == Some(current));
      if holder != Some(current) {
        return false;
      }
      repeat := repeat + 1;
      reentered := true;
    }

    // A round of mutex_lock's loop.
    method MutexLock(current: nat, ghost l: Lock) returns (blocks: bool)
      requires Inv(l) && Shows(l) && Enabled(l, Try(current))
      modifies this`value, this`waiters
      ensures Shows(Step(l, Try(current))) && (blocks <==> PcOf(Step(l, Try(current)), current).Asleep?)
    {
      if value {
        waiters := [current] + waiters;
        return true;
      }
      value := true;
      blocks := false;
    }

    // The rest of lock_acquire.
    method SetRepeat(current: nat, ghost l: Lock)
      requires Inv(l) && Shows(l) && Enabled(l, Event.SetRepeat(current))
      modifies this`repeat
      ensures Shows(Step(l, Event.SetRepeat(current)))
    {
      StepSafe(l, Event.SetRepeat(current));
      assert repeat == 0;
      repeat := 1;
    }

    // lock_release up to its assignments.
    method ReleaseTest(current: nat, ghost l: Lock) returns (leaves: bool)
      requires Inv(l) && Shows(l) && Enabled(l, Release(current))
      modifies this`repeat
      ensures Shows(Step(l, Release(current))) && (leaves <==> PcOf(l, current).depth == 1)
    {
      StepSafe(l, Release(current));
      OwnerNamed(l, current);
      assert holder == Some(current);
      if repeat > 1 {
        repeat := repeat - 1;
        return false;
      }
      assert repeat == 1;
      leaves := true;
    }

    // mutex_unlock: the task woken, if any.
    method MutexUnlock(current: nat, ghost l: Lock) returns (task: Option<nat>)
      requires Inv(l) && Shows(l) && Enabled(l, Unlock(current))
      modifies this`value, this`waiters
      ensures Shows(Step(l, Unlock(current)))
      ensures task == if l.waiters == [] then None else Some(Longest(l))
    {
      StepSafe(l, Unlock(current));
      assert value;
      value := false;
      if waiters == [] {
        return None;
      }
      task := Some(waiters[|waiters| - 1]);
      waiters := waiters[..|waiters| - 1];
    }
  }
}
