// Disk requests: the queue of src/kernel/device.c, sorted by sector, and the baton that
// passes from the request being served to its neighbour in the direction of travel.
module Elevator {
  import opened Lists
  import opened Wrappers

  datatype Request = Request(id: nat, sector: int)

  // active is the request whose task is at the disk, or was just woken to go there.
  datatype Lift = Lift(queue: seq<Request>, up: bool, active: Option<Request>)

  function Key(): Request -> int {
    (r: Request) => r.sector
  }

  function PosFrom(queue: seq<Request>, r: Request): (i: nat)
    requires r in queue
    ensures i < |queue| && queue[i] == r
  {
    if queue[0] == r then 0 else 1 + PosFrom(queue[1..], r)
  }

  lemma PosUnique(queue: seq<Request>, i: nat)
    requires NoDup(queue) && i < |queue|
    ensures PosFrom(queue, queue[i]) == i
  {}

  // Sorted by sector, and with exactly one request active whenever there is any.
  ghost predicate Inv(s: Lift) {
    && Sorted(s.queue, Key()) && NoDup(s.queue)
    && (s.active.None? <==> s.queue == []) && (s.active.Some? ==> s.active.value in s.queue)
  }

  // ------------------------------------------------------------------ steps

  // device_request up to the disk, or to task_block.
  function Arrive(s: Lift, r: Request): Lift {
    Lift(Inserted(s.queue, r, Key()), s.up, if s.queue == [] then Some(r) else s.active)
  }

  // reguest_nextreq turns around at the end of the queue.
  function Turns(s: Lift): bool
    requires s.active.Some? && s.active.value in s.queue
  {
    var i := PosFrom(s.queue, s.active.value);
    if s.up then i == |s.queue| - 1 else i == 0
  }

  function UpAfter(s: Lift): bool
    requires s.active.Some? && s.active.value in s.queue
  {
    if Turns(s) then !s.up else s.up
  }

  function NextOf(s: Lift): Option<Request>
    requires s.active.Some? && s.active.value in s.queue
  {
    var i := PosFrom(s.queue, s.active.value);
    if UpAfter(s) then (if i + 1 < |s.queue| then Some(s.queue[i + 1]) else None)
    else if i > 0 then Some(s.queue[i - 1]) else None
  }

  // device_request from the disk on: the next request, and the baton.
  function Complete(s: Lift): Lift
    requires s.active.Some? && s.active.value in s.queue
  {
    Lift(Without(s.queue, s.active.value), UpAfter(s), NextOf(s))
  }

  datatype Event = Arrival(r: Request) | Completion

  predicate Enabled(s: Lift, e: Event) {
    match e
    case Arrival(r) => r !in s.queue
    case Completion => s.active.Some? && s.active.value in s.queue
  }

  function Step(s: Lift, e: Event): Lift
    requires Enabled(s, e)
  {
    match e
    case Arrival(r) => Arrive(s, r)
    case Completion => Complete(s)
  }

  // ---------------------------------------------------------------- safety

  lemma WithoutSorted(s: seq<Request>, i: nat)
    requires Sorted(s, Key()) && NoDup(s) && i < |s|
    ensures Without(s, s[i]) == s[..i] + s[i + 1..] && Sorted(Without(s, s[i]), Key()) && NoDup(Without(s, s[i]))
  {
    WithoutAt(s, i);
    WithoutMembers(s, s[i]);
    SortedCut(s, i);
  }

  lemma SortedCut(s: seq<Request>, i: nat)
    requires Sorted(s, Key()) && i < |s|
    ensures Sorted(s[..i] + s[i + 1..], Key())
  {
    var t := s[..i] + s[i + 1..];
    forall a, b | 0 <= a < b < |t| ensures Key()(t[a]) <= Key()(t[b]) {
      assert t[a] == s[if a < i then a else a + 1] && t[b] == s[if b < i then b else b + 1];
    }
  }

  lemma StepKeeps(s: Lift, e: Event)
    requires Inv(s) && Enabled(s, e)
    ensures Inv(Step(s, e))
  {
    match e
    case Arrival(r) =>
      InsertedSorted(s.queue, r, Key());
      InsertedMembers(s.queue, r, Key());
      InsertedNoDup(s.queue, r, Key());
    case Completion =>
      var i := PosFrom(s.queue, s.active.value);
      WithoutSorted(s.queue, i);
      WithoutMembers(s.queue, s.queue[i]);
  }

  // The baton is lost only with the last request.
  lemma NextUnlessLast(s: Lift)
    requires Inv(s) && s.active.Some?
    ensures NextOf(s).None? <==> |s.queue| == 1
    ensures NextOf(s).Some? ==> NextOf(s).value in s.queue && NextOf(s).value != s.active.value
  {}

  // Without a turn the sectors served go one way.
  lemma ServedMonotone(s: Lift)
    requires Inv(s) && s.active.Some? && NextOf(s).Some?
    ensures if UpAfter(s) then NextOf(s).value.sector >= s.active.value.sector
            else NextOf(s).value.sector <= s.active.value.sector
  {
    assert Key()(NextOf(s).value) == NextOf(s).value.sector && Key()(s.active.value) == s.active.value.sector;
  }

  // ------------------------------------------------- fairness to a waiter

  predicate Waits(s: Lift, w: Request) {
    w in s.queue && s.active.Some? && s.active.value in s.queue && s.active.value != w
  }

  // The lift is on its way to w.
  predicate Ahead(s: Lift, w: Request)
    requires Waits(s, w)
  {
    var i, j := PosFrom(s.queue, s.active.value), PosFrom(s.queue, w);
    if s.up then j > i else j < i
  }

  // How often the lift can still turn before it serves w.
  function TurnsLeft(s: Lift, w: Request): nat
    requires Waits(s, w)
  {
    if Ahead(s, w) then 0 else 1
  }

  lemma InsertedPos(s: seq<Request>, r: Request, a: Request)
    requires NoDup(s) && r !in s && a in s
    ensures a in Inserted(s, r, Key())
    ensures PosFrom(Inserted(s, r, Key()), a) ==
      if PosFrom(s, a) < Rank(s, Key(), Key()(r)) then PosFrom(s, a) else PosFrom(s, a) + 1
  {
    InsertedNoDup(s, r, Key());
    var t, i, k := Inserted(s, r, Key()), PosFrom(s, a), Rank(s, Key(), Key()(r));
    hide Rank, NoDup;
    assert t[if i < k then i else i + 1] == a;
    PosUnique(t, if i < k then i else i + 1);
  }

  lemma InsertedOrder(s: seq<Request>, r: Request, a: Request, b: Request)
    requires NoDup(s) && r !in s && a in s && b in s
    ensures a in Inserted(s, r, Key()) && b in Inserted(s, r, Key())
    ensures PosFrom(Inserted(s, r, Key()), a) < PosFrom(Inserted(s, r, Key()), b) <==> PosFrom(s, a) < PosFrom(s, b)
  {
    InsertedPos(s, r, a);
    InsertedPos(s, r, b);
    hide Inserted, NoDup, PosFrom;
  }

  lemma WithoutPos(s: seq<Request>, i: nat, j: nat)
    requires NoDup(s) && i < |s| && j < |s| && i != j
    ensures s[j] in Without(s, s[i]) && PosFrom(Without(s, s[i]), s[j]) == if j < i then j else j - 1
  {
    hide Without, PosFrom, NoDup;
    WithoutAt(s, i);
    WithoutMembers(s, s[i]);
    var t := Without(s, s[i]);
    assert t[if j < i then j else j - 1] == s[j];
    PosUnique(t, if j < i then j else j - 1);
  }

  lemma WithoutOrder(s: seq<Request>, i: nat, j: nat, k: nat)
    requires NoDup(s) && i < |s| && j < |s| && k < |s| && i != j && i != k
    ensures s[j] in Without(s, s[i]) && s[k] in Without(s, s[i])
    ensures PosFrom(Without(s, s[i]), s[j]) < PosFrom(Without(s, s[i]), s[k]) <==> j < k
  {
    hide Without, PosFrom, NoDup;
    WithoutPos(s, i, j);
    WithoutPos(s, i, k);
  }

  // One for a step that turns the lift around.
  function Turned(s: Lift, e: Event): nat
    requires Enabled(s, e)
  {
    if e.Completion? && Turns(s) then 1 else 0
  }

  // A step serves the waiter, or leaves it waiting with a turn less for each turn made.
  lemma WaiterStep(s: Lift, e: Event, w: Request)
    requires Inv(s) && Enabled(s, e) && Waits(s, w)
    ensures var t := Step(s, e);
      t.active == Some(w) || (Waits(t, w) && TurnsLeft(t, w) + Turned(s, e) == TurnsLeft(s, w))
    ensures Turned(s, e) <= TurnsLeft(s, w)
  {
    match e
    case Arrival(r) => WaiterArrival(s, r, w);
    case Completion => WaiterCompletion(s, w);
  }

  lemma WaiterArrival(s: Lift, r: Request, w: Request)
    requires Inv(s) && r !in s.queue && Waits(s, w)
    ensures var t := Arrive(s, r); Waits(t, w) && TurnsLeft(t, w) == TurnsLeft(s, w)
  {
    InsertedOrder(s.queue, r, s.active.value, w);
    InsertedOrder(s.queue, r, w, s.active.value);
    hide Inserted, PosFrom;
  }

  lemma WaiterCompletion(s: Lift, w: Request)
    requires Inv(s) && Waits(s, w)
    ensures var t := Complete(s);
      t.active == Some(w) || (Waits(t, w) && TurnsLeft(t, w) + Turned(s, Completion) == TurnsLeft(s, w))
    ensures Turns(s) ==> TurnsLeft(s, w) == 1
  {
    var t := Complete(s);
    var i, j := PosFrom(s.queue, s.active.value), PosFrom(s.queue, w);
    NextUnlessLast(s);
    if t.active != Some(w) {
      var k := PosFrom(s.queue, NextOf(s).value);
      PosUnique(s.queue, if UpAfter(s) then i + 1 else i - 1);
      hide Without, Sorted, NoDup;
      WithoutOrder(s.queue, i, k, j);
      WithoutOrder(s.queue, i, j, k);
    }
  }

  // ------------------------------------------------------------------ runs

  ghost predicate EnabledRun(s: Lift, es: seq<Event>)
    decreases |es|
  {
    es == [] || (Enabled(s, es[0]) && EnabledRun(Step(s, es[0]), es[1..]))
  }

  ghost function Run(s: Lift, es: seq<Event>): Lift
    requires EnabledRun(s, es)
    decreases |es|
  {
    if es == [] then s else Run(Step(s, es[0]), es[1..])
  }

  ghost function Reversals(s: Lift, es: seq<Event>): nat
    requires EnabledRun(s, es)
    decreases |es|
  {
    if es == [] then 0 else Turned(s, es[0]) + Reversals(Step(s, es[0]), es[1..])
  }

  // w is not given the disk before the last step of the run, which may give it.
  ghost predicate StillWaits(s: Lift, es: seq<Event>, w: Request)
    requires EnabledRun(s, es)
    decreases |es|
  {
    es == [] || (s.active != Some(w) && StillWaits(Step(s, es[0]), es[1..], w))
  }

  lemma {:induction false} RunKeeps(s: Lift, es: seq<Event>)
    requires Inv(s) && EnabledRun(s, es)
    ensures Inv(Run(s, es))
    decreases |es|
  {
    if es != [] {
      StepKeeps(s, es[0]);
      RunKeeps(Step(s, es[0]), es[1..]);
    }
  }

  // However many requests arrive, the lift turns at most once before a waiter is served, the
  // turn that may lead straight to it included.
  lemma {:induction false} OneReversal(s: Lift, es: seq<Event>, w: Request)
    requires Inv(s) && EnabledRun(s, es) && Waits(s, w) && StillWaits(s, es, w)
    ensures Reversals(s, es) <= TurnsLeft(s, w) <= 1
    decreases |es|
  {
    if es != [] {
      StepKeeps(s, es[0]);
      WaiterStep(s, es[0], w);
      if Step(s, es[0]).active != Some(w) {
        OneReversal(Step(s, es[0]), es[1..], w);
      }
    }
  }

  // The sectors served in the run, in order.
  ghost function Served(s: Lift, es: seq<Event>): seq<int>
    requires EnabledRun(s, es)
    decreases |es|
  {
    if es == [] then []
    else (if es[0].Completion? then [s.active.value.sector] else []) + Served(Step(s, es[0]), es[1..])
  }

  predicate OneWay(up: bool, q: seq<int>) {
    forall i, j :: 0 <= i < j < |q| ==> if up then q[i] <= q[j] else q[i] >= q[j]
  }

  lemma OneWayCons(up: bool, x: int, q: seq<int>)
    requires OneWay(up, q) && q != [] && if up then x <= q[0] else x >= q[0]
    ensures OneWay(up, [x] + q)
  {
    assert forall j :: 0 < j < |q| ==> if up then q[0] <= q[j] else q[0] >= q[j];
  }

  // Between two reversals the sectors served go up, or go down, as long as the queue is not empty.
  lemma {:induction false} SweepMonotone(s: Lift, es: seq<Event>, last: int)
    requires Inv(s) && EnabledRun(s, es) && Reversals(s, es) == 0 && Busy(s, es)
    requires s.active.Some? ==> if s.up then last <= s.active.value.sector else last >= s.active.value.sector
    ensures OneWay(s.up, [last] + Served(s, es))
    decreases |es|
  {
    hide OneWay;
    if es == [] {
      OneWaySingle(s.up, last);
    } else {
      var t := Step(s, es[0]);
      StepKeeps(s, es[0]);
      if es[0].Completion? {
        ServedMonotone(s);
        SweepMonotone(t, es[1..], s.active.value.sector);
        OneWayCons(s.up, last, [s.active.value.sector] + Served(t, es[1..]));
        assert [last] + Served(s, es) == [last] + ([s.active.value.sector] + Served(t, es[1..]));
      } else {
        SweepMonotone(t, es[1..], last);
        assert Served(s, es) == Served(t, es[1..]);
      }
    }
  }

  lemma OneWaySingle(up: bool, x: int)
    ensures OneWay(up, [x] + [])
  {}

  function CameWith(e: Event): multiset<Request> {
    if e.Arrival? then multiset{e.r} else multiset{}
  }

  function FinishedBy(s: Lift, e: Event): multiset<Request>
    requires Enabled(s, e)
  {
    if e.Completion? then multiset{s.active.value} else multiset{}
  }

  // The requests that came in a run, and those that had the disk and are done.
  ghost function Came(es: seq<Event>): multiset<Request>
    decreases |es|
  {
    if es == [] then multiset{} else CameWith(es[0]) + Came(es[1..])
  }

  ghost function Finished(s: Lift, es: seq<Event>): multiset<Request>
    requires EnabledRun(s, es)
    decreases |es|
  {
    if es == [] then multiset{} else FinishedBy(s, es[0]) + Finished(Step(s, es[0]), es[1..])
  }

  lemma WithoutOne(q: seq<Request>, r: Request)
    requires NoDup(q) && r in q
    ensures multiset(q) == multiset(Without(q, r)) + multiset{r}
  {
    hide NoDup, Without, PosFrom;
    var i := PosFrom(q, r);
    WithoutAt(q, i);
    CutOne(q, i);
  }

  lemma CutOne<T>(q: seq<T>, i: nat)
    requires i < |q|
    ensures multiset(q) == multiset(q[..i] + q[i + 1..]) + multiset{q[i]}
  {
    assert q == q[..i] + ([q[i]] + q[i + 1..]);
  }

  lemma StepLosesNone(s: Lift, e: Event)
    requires Inv(s) && Enabled(s, e)
    ensures multiset(s.queue) + CameWith(e) == multiset(Step(s, e).queue) + FinishedBy(s, e)
  {
    hide Inserted, Without, Sorted, NextOf, UpAfter;
    match e
    case Arrival(r) => InsertedMembers(s.queue, r, Key());
    case Completion => WithoutOne(s.queue, s.active.value);
  }

  lemma InTwoSteps<T>(a: multiset<T>, b: multiset<T>, c: multiset<T>, in0: multiset<T>, in1: multiset<T>,
                      out0: multiset<T>, out1: multiset<T>)
    requires a + in0 == b + out0 && b + in1 == c + out1
    ensures a + (in0 + in1) == c + (out0 + out1)
  {
    assert a + (in0 + in1) == (a + in0) + in1;
    assert c + (out0 + out1) == (c + out1) + out0;
  }

  // Over every run each request that came was served once or still waits.
  lemma {:induction false} NoneLost(s: Lift, es: seq<Event>)
    requires Inv(s) && EnabledRun(s, es)
    ensures multiset(s.queue) + Came(es) == multiset(Run(s, es).queue) + Finished(s, es)
    decreases |es|
  {
    hide Inv, Enabled, Step, CameWith, FinishedBy;
    if es != [] {
      StepKeeps(s, es[0]);
      NoneLost(Step(s, es[0]), es[1..]);
      StepLosesNone(s, es[0]);
      var t := Step(s, es[0]);
      InTwoSteps(multiset(s.queue), multiset(t.queue), multiset(Run(s, es).queue), CameWith(es[0]), Came(es[1..]),
                 FinishedBy(s, es[0]), Finished(t, es[1..]));
    }
  }

  // The lift turns just when nobody waits ahead of it.
  lemma TurnsIff(s: Lift)
    requires Inv(s) && s.active.Some?
    ensures Turns(s) <==> forall w :: Waits(s, w) ==> !Ahead(s, w)
  {
    var i := PosFrom(s.queue, s.active.value);
    if !Turns(s) {
      var j := if s.up then i + 1 else i - 1;
      PosUnique(s.queue, j);
      assert Waits(s, s.queue[j]) && Ahead(s, s.queue[j]);
    }
  }

  // The queue is never empty during the run.
  ghost predicate Busy(s: Lift, es: seq<Event>)
    requires EnabledRun(s, es)
    decreases |es|
  {
    s.queue != [] && (es == [] || Busy(Step(s, es[0]), es[1..]))
  }

  // ------------------------------------------------------------ the code itself

  class Device {
    var queue: seq<Request>          // request_list
    var up: bool                     // direct is DIRECT_UP
    var active: Option<Request>      // whose task may go to the disk

    constructor ()
      ensures State() == Lift([], true, None) && Inv(State())
    {
      queue, up, active := [], true, None;
    }

    function State(): Lift
      reads this
    {
      Lift(queue, up, active)
    }

    // device_request until it may use the disk, or blocks.
    method DeviceRequest(r: Request) returns (blocks: bool)
      requires Inv(State()) && r !in queue
      modifies this
      ensures State() == Arrive(old(State()), r) && Inv(State()) && (blocks <==> active != Some(r))
    {
      StepKeeps(State(), Arrival(r));
      var empty := queue == [];
      queue := InsertSort(queue, r, Key());
      if empty {
        active := Some(r);
      }
      blocks := !empty;
    }

    // reguest_nextreq; at is where the served request stands.
    method NextReq(at: nat) returns (next: Option<Request>)
      requires Inv(State()) && at < |queue| && active == Some(queue[at])
      modifies this`up
      ensures next == NextOf(old(State())) && up == UpAfter(old(State()))
    {
      PosUnique(queue, at);
      if up && at + 1 == |queue| {
        up := false;
      } else if !up && at == 0 {
        up := true;
      }
      if up {
        next := if at + 1 < |queue| then Some(queue[at + 1]) else None;
      } else {
        next := if at > 0 then Some(queue[at - 1]) else None;
      }
    }

    // The rest of device_request: the neighbour is woken, never the task that is done.
    method Done(at: nat)
      requires Inv(State()) && at < |queue| && active == Some(queue[at])
      modifies this
      ensures State() == Complete(old(State())) && Inv(State())
      ensures active.Some? ==> active.value in old(queue) && active != old(active)
    {
      StepKeeps(State(), Completion);
      NextUnlessLast(State());
      var next := NextReq(at);
      queue := Without(queue, queue[at]);
      active := next;
    }
  }
}
