// Open files: descriptors, the file table of src/fs/file.c, and pipe inodes with the
// counts that say when a pipe's ring is given back.
module Descriptors {
  import opened Wrappers

  const TASK_FILE_NR := 16
  const FILE_NR := 128
  const FIRST_FILE := 3            // records 0 to 2 belong to the console

  // What a record is open on: a pipe inode, or an inode counted elsewhere.
  datatype Inode = Pipe(id: nat) | Other(nr: nat)
  datatype Record = Record(count: nat, inode: Inode, offset: nat)
  datatype Whence = Set | Current | End

  // files[(t, d)] is the record that descriptor d of task t names; pipes has the count of
  // each pipe inode in use.
  datatype Table = Table(records: seq<Record>, files: map<(nat, nat), nat>, tasks: set<nat>, pipes: map<nat, nat>)

  // ----------------------------------------------------------- invariant

  function Named(files: map<(nat, nat), nat>, f: nat): set<(nat, nat)> {
    set k | k in files && files[k] == f
  }

  function OpenOn(records: seq<Record>, i: nat): set<nat> {
    set f: nat | f < |records| && records[f].count > 0 && records[f].inode == Pipe(i)
  }

  predicate Shaped(s: Table) {
    && |s.records| == FILE_NR
    && (forall k :: k in s.files ==> k.0 in s.tasks && k.1 < TASK_FILE_NR && s.files[k] < FILE_NR)
  }

  // A record's count is the number of descriptors that name it, in all tasks.
  predicate Counted(s: Table) {
    forall f :: 0 <= f < |s.records| ==> s.records[f].count == |Named(s.files, f)|
  }

  // A pipe inode's count is the number of its open records; there is at least one.
  predicate PipesCounted(records: seq<Record>, pipes: map<nat, nat>) {
    && (forall i :: i in pipes ==> pipes[i] == |OpenOn(records, i)| && pipes[i] > 0)
    && (forall f :: 0 <= f < |records| && records[f].count > 0 && records[f].inode.Pipe? ==>
        records[f].inode.id in pipes)
  }

  predicate Inv(s: Table) {
    Shaped(s) && Counted(s) && PipesCounted(s.records, s.pipes)
  }

  // ---------------------------------------------------------- operations

  // get_file's search.
  function FreeRecord(records: seq<Record>, from: nat): (f: nat)
    requires from <= |records|
    ensures from <= f <= |records| && (f < |records| ==> records[f].count == 0)
    ensures forall g :: from <= g < f ==> records[g].count > 0
    decreases |records| - from
  {
    if from == |records| || records[from].count == 0 then from else FreeRecord(records, from + 1)
  }

  // The first free descriptor of task t, from d on: task_get_fd and dupfd.
  function FreeFd(files: map<(nat, nat), nat>, t: nat, d: nat): (r: nat)
    requires d <= TASK_FILE_NR
    ensures d <= r <= TASK_FILE_NR && (r < TASK_FILE_NR ==> (t, r) !in files)
    ensures forall k :: d <= k < r ==> (t, k) in files
    decreases TASK_FILE_NR - d
  {
    if d == TASK_FILE_NR || (t, d) !in files then d else FreeFd(files, t, d + 1)
  }

  // Descriptor (t, d) comes to name record f as well.
  function Ref(s: Table, t: nat, d: nat, f: nat): Table
    requires f < |s.records|
  {
    s.(files := s.files[(t, d) := f], records := s.records[f := s.records[f].(count := s.records[f].count + 1)])
  }

  // Record f is opened on an inode, named by (t, d).
  function Opened(s: Table, t: nat, d: nat, f: nat, inode: Inode, at: nat): Table
    requires f < |s.records|
  {
    s.(files := s.files[(t, d) := f], records := s.records[f := Record(1, inode, at)])
  }

  // put_pipe_inode: the last record gives the inode, its ring and its page back.
  function PutPipe(pipes: map<nat, nat>, i: nat): map<nat, nat>
    requires i in pipes && pipes[i] > 0
  {
    if pipes[i] == 1 then pipes - {i} else pipes[i := pipes[i] - 1]
  }

  // What sys_close and put_file assert: the record is open, and a pipe's inode in use.
  predicate CanClose(s: Table, t: nat, d: nat) {
    (t, d) in s.files && s.files[(t, d)] < |s.records| &&
    var r := s.records[s.files[(t, d)]];
    r.count > 0 && (r.inode.Pipe? ==> r.inode.id in s.pipes && s.pipes[r.inode.id] > 0)
  }

  // put_file, and put_pipe_inode behind the last close of a pipe's record.
  function Close(s: Table, t: nat, d: nat): (r: Table)
    ensures |r.records| == |s.records|
  {
    if !CanClose(s, t, d) then s
    else
      var f := s.files[(t, d)];
      var r := s.records[f];
      Table(s.records[f := r.(count := r.count - 1)], s.files - {(t, d)}, s.tasks,
            if r.count == 1 && r.inode.Pipe? then PutPipe(s.pipes, r.inode.id) else s.pipes)
  }

  lemma ClosesAll(s: Table, t: nat, d: nat)
    requires Inv(s) && (t, d) in s.files
    ensures CanClose(s, t, d)
  {
    assert (t, d) in Named(s.files, s.files[(t, d)]);
  }

  // sys_open of an inode that is not a pipe, for reading or writing from offset at on.
  function Open(s: Table, t: nat, nr: nat, at: nat): Table
    requires |s.records| == FILE_NR && FreeRecord(s.records, FIRST_FILE) < FILE_NR
  {
    Opened(s, t, FreeFd(s.files, t, 3), FreeRecord(s.records, FIRST_FILE), Other(nr), at)
  }

  // One end of a pipe; sys_pipe makes two. The record keeps what its offset was.
  function PipeEnd(s: Table, t: nat, i: nat): Table
    requires |s.records| == FILE_NR && FreeRecord(s.records, FIRST_FILE) < FILE_NR
  {
    var f := FreeRecord(s.records, FIRST_FILE);
    Opened(s, t, FreeFd(s.files, t, 3), f, Pipe(i), s.records[f].offset)
      .(pipes := s.pipes[i := 1 + if i in s.pipes then s.pipes[i] else 0])
  }

  // dupfd
  function Duplicated(s: Table, t: nat, fd: nat, arg: nat): Table
    requires Shaped(s) && arg <= TASK_FILE_NR
  {
    var d := FreeFd(s.files, t, arg);
    if (t, fd) !in s.files || d == TASK_FILE_NR then s else Ref(s, t, d, s.files[(t, fd)])
  }

  // sys_lseek; sys_read and sys_write move on by what they read or wrote.
  function Sought(s: Table, f: nat, whence: Whence, far: nat, size: nat): Table
    requires f < |s.records|
  {
    var r := s.records[f];
    s.(records := s.records[f := r.(offset :=
      match whence { case Set => far case Current => r.offset + far case End => size + far })])
  }

  // task_fork: the child's first n descriptors name what its parent's do.
  function Inherited(s: Table, p: nat, c: nat, n: nat): (r: Table)
    requires Shaped(s)
    ensures |r.records| == |s.records|
  {
    if n == 0 then s.(tasks := s.tasks + {c})
    else
      var r := Inherited(s, p, c, n - 1);
      if (p, n - 1) in s.files then Ref(r, c, n - 1, s.files[(p, n - 1)]) else r
  }

  // task_exit closes the first n descriptors.
  function ClosedBelow(s: Table, t: nat, n: nat): Table {
    if n == 0 then s else Close(ClosedBelow(s, t, n - 1), t, n - 1)
  }

  // The task is gone for good.
  function Exit(s: Table, t: nat): Table {
    var m := ClosedBelow(s, t, TASK_FILE_NR);
    m.(tasks := m.tasks - {t})
  }

  // ------------------------------------------------------ what they keep

  lemma NamedAdded(files: map<(nat, nat), nat>, k: (nat, nat), f: nat, g: nat)
    requires k !in files
    ensures Named(files[k := f], g) == if g == f then Named(files, g) + {k} else Named(files, g)
    ensures k !in Named(files, g)
  {}

  lemma NamedRemoved(files: map<(nat, nat), nat>, k: (nat, nat), g: nat)
    requires k in files
    ensures Named(files, g) == if g == files[k] then Named(files - {k}, g) + {k} else Named(files - {k}, g)
    ensures k !in Named(files - {k}, g)
  {}

  lemma RefCounted(s: Table, t: nat, d: nat, f: nat)
    requires Counted(s) && f < |s.records| && (t, d) !in s.files
    ensures Counted(Ref(s, t, d, f))
  {
    forall g | 0 <= g < |s.records| ensures Ref(s, t, d, f).records[g].count == |Named(Ref(s, t, d, f).files, g)| {
      NamedAdded(s.files, (t, d), f, g);
    }
  }

  // Another descriptor for an open record.
  lemma RefKeeps(s: Table, t: nat, d: nat, f: nat)
    requires Inv(s) && f < |s.records| && s.records[f].count > 0 && t in s.tasks && d < TASK_FILE_NR &&
      (t, d) !in s.files
    ensures Inv(Ref(s, t, d, f))
  {
    RefCounted(s, t, d, f);
    var m := Ref(s, t, d, f);
    forall i ensures OpenOn(m.records, i) == OpenOn(s.records, i) {}
    hide OpenOn, Counted;
  }

  lemma OpenedCounted(s: Table, t: nat, d: nat, f: nat, inode: Inode, at: nat)
    requires Counted(s) && f < |s.records| && s.records[f].count == 0 && (t, d) !in s.files
    ensures Counted(Opened(s, t, d, f, inode, at))
  {
    var m := Opened(s, t, d, f, inode, at);
    assert Named(s.files, f) == {};
    forall g | 0 <= g < |s.records| ensures m.records[g].count == |Named(m.files, g)| {
      NamedAdded(s.files, (t, d), f, g);
    }
  }

  function PipesWith(pipes: map<nat, nat>, inode: Inode): map<nat, nat> {
    if inode.Pipe? then pipes[inode.id := 1 + if inode.id in pipes then pipes[inode.id] else 0] else pipes
  }

  lemma OpenOnAdded(records: seq<Record>, f: nat, inode: Inode, at: nat, i: nat)
    requires f < |records| && records[f].count == 0
    ensures OpenOn(records[f := Record(1, inode, at)], i)
         == if inode == Pipe(i) then OpenOn(records, i) + {f} else OpenOn(records, i)
    ensures f !in OpenOn(records, i)
  {}

  lemma PipesOpened(records: seq<Record>, pipes: map<nat, nat>, f: nat, inode: Inode, at: nat)
    requires PipesCounted(records, pipes) && f < |records| && records[f].count == 0
    ensures PipesCounted(records[f := Record(1, inode, at)], PipesWith(pipes, inode))
  {
    forall i: nat
      ensures |OpenOn(records[f := Record(1, inode, at)], i)|
           == |OpenOn(records, i)| + if inode == Pipe(i) then 1 else 0
    {
      OpenOnAdded(records, f, inode, at, i);
    }
    if inode.Pipe? && inode.id !in pipes {
      assert OpenOn(records, inode.id) == {};
    }
    hide OpenOn;
  }

  // A newly opened record, on a pipe or not.
  lemma OpenedKeeps(s: Table, t: nat, d: nat, f: nat, inode: Inode, at: nat)
    requires Inv(s) && f < |s.records| && s.records[f].count == 0 && t in s.tasks && d < TASK_FILE_NR &&
      (t, d) !in s.files
    ensures Inv(Opened(s, t, d, f, inode, at).(pipes := PipesWith(s.pipes, inode)))
  {
    OpenedCounted(s, t, d, f, inode, at);
    PipesOpened(s.records, s.pipes, f, inode, at);
    hide PipesCounted, Named;
  }

  lemma SoughtKeeps(s: Table, f: nat, whence: Whence, far: nat, size: nat)
    requires Inv(s) && f < |s.records|
    ensures Inv(Sought(s, f, whence, far, size))
  {
    forall i ensures OpenOn(Sought(s, f, whence, far, size).records, i) == OpenOn(s.records, i) {}
    hide OpenOn, Named;
  }

  lemma CloseCounted(s: Table, t: nat, d: nat)
    requires Inv(s)
    ensures Counted(Close(s, t, d)) && Shaped(Close(s, t, d))
  {
    var m := Close(s, t, d);
    if (t, d) in s.files {
      forall g | 0 <= g < |s.records| ensures m.records[g].count == |Named(m.files, g)| {
        NamedRemoved(s.files, (t, d), g);
      }
    }
  }

  lemma OpenOnLess(records: seq<Record>, f: nat, i: nat)
    requires f < |records| && records[f].count > 0
    ensures var after := records[f := records[f].(count := records[f].count - 1)];
      |OpenOn(records, i)| == |OpenOn(after, i)| + if records[f].inode == Pipe(i) && records[f].count == 1 then 1 else 0
    ensures records[f].inode == Pipe(i) ==> |OpenOn(records, i)| > 0
  {
    var after := records[f := records[f].(count := records[f].count - 1)];
    if records[f].inode == Pipe(i) && records[f].count == 1 {
      assert OpenOn(records, i) == OpenOn(after, i) + {f};
    } else {
      assert OpenOn(records, i) == OpenOn(after, i);
    }
    assert records[f].inode == Pipe(i) ==> f in OpenOn(records, i);
  }

  lemma OpenIsCounted(records: seq<Record>, f: nat, i: nat)
    requires f < |records| && records[f].count > 0 && records[f].inode == Pipe(i)
    ensures |OpenOn(records, i)| > 0
  {
    assert f in OpenOn(records, i);
  }

  lemma PipesClosed(records: seq<Record>, pipes: map<nat, nat>, f: nat)
    requires PipesCounted(records, pipes) && f < |records| && records[f].count > 0
    requires records[f].inode.Pipe? ==> records[f].inode.id in pipes && pipes[records[f].inode.id] > 0
    ensures var r := records[f];
      PipesCounted(records[f := r.(count := r.count - 1)],
                   if r.count == 1 && r.inode.Pipe? then PutPipe(pipes, r.inode.id) else pipes)
  {
    var after := records[f := records[f].(count := records[f].count - 1)];
    forall i: nat
      ensures |OpenOn(records, i)|
           == |OpenOn(after, i)| + if records[f].inode == Pipe(i) && records[f].count == 1 then 1 else 0
    {
      OpenOnLess(records, f, i);
    }
    forall g: nat | g < |after| && after[g].count > 0 && after[g].inode.Pipe?
      ensures |OpenOn(after, after[g].inode.id)| > 0
    {
      OpenIsCounted(after, g, after[g].inode.id);
    }
    hide OpenOn;
  }

  lemma CloseKeeps(s: Table, t: nat, d: nat)
    requires Inv(s)
    ensures Inv(Close(s, t, d)) && Close(s, t, d).tasks == s.tasks && Close(s, t, d).files == s.files - {(t, d)}
  {
    CloseCounted(s, t, d);
    if (t, d) in s.files {
      ClosesAll(s, t, d);
      PipesClosed(s.records, s.pipes, s.files[(t, d)]);
    } else {
      assert s.files - {(t, d)} == s.files;
    }
    hide PipesCounted, Counted;
  }

  lemma {:induction false} ClosedBelowKeeps(s: Table, t: nat, n: nat)
    requires Inv(s)
    ensures var m := ClosedBelow(s, t, n);
      Inv(m) && m.tasks == s.tasks && forall k :: k in m.files <==> k in s.files && !(k.0 == t && k.1 < n)
  {
    hide Inv, Close;
    if n > 0 {
      ClosedBelowKeeps(s, t, n - 1);
      CloseKeeps(ClosedBelow(s, t, n - 1), t, n - 1);
      forall k ensures k == (t, n - 1) <==> k.0 == t && k.1 == n - 1 {}
    }
  }

  lemma ExitKeeps(s: Table, t: nat)
    requires Inv(s)
    ensures Inv(Exit(s, t)) && forall d :: (t, d) !in Exit(s, t).files
  {
    ClosedBelowKeeps(s, t, TASK_FILE_NR);
    hide Counted, PipesCounted, ClosedBelow;
  }

  // Below descriptor n task c has what task p has in s; the other tasks are as in s.
  ghost predicate Copies(s: Table, m: Table, p: nat, c: nat, n: nat) {
    && (forall d: nat :: (c, d) in m.files <==> (p, d) in s.files && d < n)
    && (forall d: nat :: (c, d) in m.files ==> (p, d) in s.files && m.files[(c, d)] == s.files[(p, d)])
    && (forall k: (nat, nat) :: k.0 != c ==>
          (k in m.files <==> k in s.files) && (k in s.files ==> m.files[k] == s.files[k]))
  }

  lemma {:induction false} InheritedCopies(s: Table, p: nat, c: nat, n: nat)
    requires Shaped(s) && c !in s.tasks && p in s.tasks
    ensures Copies(s, Inherited(s, p, c, n), p, c, n)
  {
    if n > 0 {
      InheritedCopies(s, p, c, n - 1);
      assert forall k: (nat, nat) :: k == (k.0, k.1);
    }
  }

  lemma {:induction false} InheritedCounts(s: Table, p: nat, c: nat, n: nat, f: nat)
    requires Shaped(s) && f < |s.records|
    ensures var m := Inherited(s, p, c, n);
      m.records[f].count >= s.records[f].count && m.records[f].inode == s.records[f].inode && m.pipes == s.pipes
      && m.tasks == s.tasks + {c}
  {
    if n > 0 {
      InheritedCounts(s, p, c, n - 1, f);
    }
  }

  lemma MoreTasks(s: Table, c: nat)
    requires Inv(s)
    ensures Inv(s.(tasks := s.tasks + {c}))
  {}

  lemma {:induction false} InheritedKeeps(s: Table, p: nat, c: nat, n: nat)
    requires Inv(s) && p in s.tasks && c !in s.tasks && n <= TASK_FILE_NR
    ensures Inv(Inherited(s, p, c, n))
  {
    hide Counted, PipesCounted, Ref;
    if n == 0 {
      MoreTasks(s, c);
    } else {
      InheritedKeeps(s, p, c, n - 1);
      if (p, n - 1) in s.files {
        var f := s.files[(p, n - 1)];
        ClosesAll(s, p, n - 1);
        InheritedCopies(s, p, c, n - 1);
        InheritedCounts(s, p, c, n - 1, f);
        RefKeeps(Inherited(s, p, c, n - 1), c, n - 1, f);
      }
    }
  }

  // ------------------------------------------------------------------ runs

  datatype Event =
    | DoOpen(t: nat, nr: nat, at: nat)
    | DoPipe(t: nat, i: nat)
    | DoClose(t: nat, d: nat)
    | DoSeek(t: nat, d: nat, whence: Whence, far: nat, size: nat)
    | DoDup(t: nat, fd: nat)
    | DoDup2(t: nat, fd: nat, d: nat)
    | DoFork(t: nat, c: nat)
    | DoExit(t: nat)

  predicate Room(s: Table, t: nat) {
    t in s.tasks && |s.records| == FILE_NR && FreeRecord(s.records, FIRST_FILE) < FILE_NR &&
    FreeFd(s.files, t, 3) < TASK_FILE_NR
  }

  // The source panics when there is no free record or descriptor; a new pipe gets an
  // inode that is not in use; sys_close asserts the descriptor's bound.
  predicate Enabled(s: Table, e: Event) {
    match e
    case DoOpen(t, _, _) => Room(s, t)
    case DoPipe(t, i) => Room(s, t) && i !in s.pipes && Room(PipeEnd(s, t, i), t)
    case DoClose(t, d) => t in s.tasks && d < TASK_FILE_NR
    case DoSeek(t, d, _, _, _) => (t, d) in s.files && Shaped(s)
    case DoDup(t, _) => t in s.tasks && Shaped(s)
    case DoDup2(t, fd, d) => t in s.tasks && d < TASK_FILE_NR && Shaped(Close(s, t, d))
    case DoFork(t, c) => t in s.tasks && c !in s.tasks && Shaped(s)
    case DoExit(t) => t in s.tasks
  }

  function Step(s: Table, e: Event): Table
    requires Enabled(s, e)
  {
    match e
    case DoOpen(t, nr, at) => Open(s, t, nr, at)
    case DoPipe(t, i) => PipeEnd(PipeEnd(s, t, i), t, i)
    case DoClose(t, d) => Close(s, t, d)
    case DoSeek(t, d, whence, far, size) => Sought(s, s.files[(t, d)], whence, far, size)
    case DoDup(t, fd) => Duplicated(s, t, fd, 0)
    case DoDup2(t, fd, d) => Duplicated(Close(s, t, d), t, fd, d)
    case DoFork(t, c) => Inherited(s, t, c, TASK_FILE_NR)
    case DoExit(t) => Exit(s, t)
  }

  lemma DupFdKeeps(s: Table, t: nat, fd: nat, arg: nat)
    requires Inv(s) && t in s.tasks && arg <= TASK_FILE_NR
    ensures Inv(Duplicated(s, t, fd, arg))
  {
    var d := FreeFd(s.files, t, arg);
    if (t, fd) in s.files && d < TASK_FILE_NR {
      ClosesAll(s, t, fd);
      hide Counted, PipesCounted;
      RefKeeps(s, t, d, s.files[(t, fd)]);
    }
  }

  lemma PipeEndKeeps(s: Table, t: nat, i: nat)
    requires Inv(s) && Room(s, t)
    ensures Inv(PipeEnd(s, t, i)) && i in PipeEnd(s, t, i).pipes
    ensures forall j :: j != i ==> (j in PipeEnd(s, t, i).pipes <==> j in s.pipes)
  {
    hide Inv;
    var f := FreeRecord(s.records, FIRST_FILE);
    OpenedKeeps(s, t, FreeFd(s.files, t, 3), f, Pipe(i), s.records[f].offset);
  }

  lemma StepKeeps(s: Table, e: Event)
    requires Inv(s) && Enabled(s, e)
    ensures Inv(Step(s, e))
  {
    hide Inv, Exit, Inherited;
    match e
    case DoOpen(t, nr, at) =>
      OpenedKeeps(s, t, FreeFd(s.files, t, 3), FreeRecord(s.records, FIRST_FILE), Other(nr), at);
    case DoPipe(t, i) =>
      PipeEndKeeps(s, t, i);
      PipeEndKeeps(PipeEnd(s, t, i), t, i);
    case DoClose(t, d) => CloseKeeps(s, t, d);
    case DoSeek(t, d, whence, far, size) => SoughtKeeps(s, s.files[(t, d)], whence, far, size);
    case DoDup(t, fd) => DupFdKeeps(s, t, fd, 0);
    case DoDup2(t, fd, d) =>
      CloseKeeps(s, t, d);
      DupFdKeeps(Close(s, t, d), t, fd, d);
    case DoFork(t, c) => InheritedKeeps(s, t, c, TASK_FILE_NR);
    case DoExit(t) => ExitKeeps(s, t);
  }

  ghost predicate EnabledRun(s: Table, es: seq<Event>)
    decreases |es|
  {
    es == [] || (Enabled(s, es[0]) && EnabledRun(Step(s, es[0]), es[1..]))
  }

  ghost function Run(s: Table, es: seq<Event>): Table
    requires EnabledRun(s, es)
    decreases |es|
  {
    if es == [] then s else Run(Step(s, es[0]), es[1..])
  }

  lemma {:induction false} RunKeeps(s: Table, es: seq<Event>)
    requires Inv(s) && EnabledRun(s, es)
    ensures Inv(Run(s, es))
    decreases |es|
  {
    hide Inv, Enabled, Step;
    if es != [] {
      StepKeeps(s, es[0]);
      RunKeeps(Step(s, es[0]), es[1..]);
    }
  }

  // --------------------------------------------- a pipe is given back once

  // Some descriptor is open on pipe i.
  ghost predicate Reachable(s: Table, i: nat)
    requires Shaped(s)
  {
    exists k :: k in s.files && s.records[s.files[k]].inode == Pipe(i)
  }

  // A pipe inode is in use just as long as a descriptor is open on it.
  lemma PipeInUse(s: Table, i: nat)
    requires Inv(s)
    ensures i in s.pipes <==> Reachable(s, i)
  {
    if i in s.pipes {
      assert OpenOn(s.records, i) != {};
      var f :| f in OpenOn(s.records, i);
      assert Named(s.files, f) != {};
      var k :| k in Named(s.files, f);
      assert k in s.files && s.records[s.files[k]].inode == Pipe(i);
    }
    if k :| k in s.files && s.records[s.files[k]].inode == Pipe(i) {
      assert k in Named(s.files, s.files[k]);
    }
  }

  // Closing gives the pipe's ring and page back just when it closes the last descriptor on it.
  lemma LastCloseReleases(s: Table, t: nat, d: nat, i: nat)
    requires Inv(s) && i in s.pipes
    ensures Shaped(Close(s, t, d))
    ensures i !in Close(s, t, d).pipes <==> !Reachable(Close(s, t, d), i)
  {
    CloseKeeps(s, t, d);
    PipeInUse(Close(s, t, d), i);
  }

  function Makes(e: Event, i: nat): int {
    if e.DoPipe? && e.i == i then 1 else 0
  }

  // Step e gives pipe inode i back.
  function Releases(s: Table, e: Event, i: nat): int
    requires Enabled(s, e)
  {
    if i in s.pipes && i !in Step(s, e).pipes then 1 else 0
  }

  ghost function Made(s: Table, es: seq<Event>, i: nat): int
    requires EnabledRun(s, es)
    decreases |es|
  {
    if es == [] then 0 else Makes(es[0], i) + Made(Step(s, es[0]), es[1..], i)
  }

  ghost function Released(s: Table, es: seq<Event>, i: nat): int
    requires EnabledRun(s, es)
    decreases |es|
  {
    if es == [] then 0 else Releases(s, es[0], i) + Released(Step(s, es[0]), es[1..], i)
  }

  lemma {:induction false} ClosedBelowPipes(s: Table, t: nat, n: nat, i: nat)
    ensures i in ClosedBelow(s, t, n).pipes ==> i in s.pipes
  {
    if n > 0 {
      ClosedBelowPipes(s, t, n - 1, i);
    }
  }

  lemma MadeStep(s: Table, e: Event, i: nat)
    requires Inv(s) && Enabled(s, e)
    ensures i in Step(s, e).pipes && i !in s.pipes <==> e.DoPipe? && e.i == i
  {
    match e
    case DoOpen(t, nr, at) =>
    case DoPipe(t, j) =>
    case DoClose(t, d) =>
    case DoSeek(t, d, whence, far, size) =>
    case DoDup(t, fd) =>
    case DoDup2(t, fd, d) =>
    case DoFork(t, c) => InheritedCounts(s, t, c, TASK_FILE_NR, 0);
    case DoExit(t) => ClosedBelowPipes(s, t, TASK_FILE_NR, i);
  }

  // Over a run every pipe made is given back once, or is still open.
  lemma {:induction false} ReleasedOnce(s: Table, es: seq<Event>, i: nat)
    requires Inv(s) && EnabledRun(s, es) && i !in s.pipes
    ensures Made(s, es, i) - Released(s, es, i) == if i in Run(s, es).pipes then 1 else 0
  {
    ReleasedFrom(s, es, i);
  }

  lemma {:induction false} ReleasedFrom(s: Table, es: seq<Event>, i: nat)
    requires Inv(s) && EnabledRun(s, es)
    ensures Made(s, es, i) - Released(s, es, i) + (if i in s.pipes then 1 else 0)
         == if i in Run(s, es).pipes then 1 else 0
    decreases |es|
  {
    hide Inv, Enabled, Step;
    if es != [] {
      StepKeeps(s, es[0]);
      MadeStep(s, es[0], i);
      ReleasedFrom(Step(s, es[0]), es[1..], i);
    }
  }

  // After task_create for idle and init: each has the console's three records.
  function Boot(): Table {
    Table(seq(FILE_NR, f => Record(if f < FIRST_FILE then 2 else 0, Other(0), 0)),
          map[(0, 0) := 0, (0, 1) := 1, (0, 2) := 2, (1, 0) := 0, (1, 1) := 1, (1, 2) := 2], {0, 1}, map[])
  }

  lemma BootKeeps()
    ensures Inv(Boot())
  {
    var s := Boot();
    forall f: nat | f < FILE_NR ensures |Named(s.files, f)| == if f < FIRST_FILE then 2 else 0 {
      assert Named(s.files, f) == if f < FIRST_FILE then {(0, f), (1, f)} else {};
    }
  }

  // ------------------------------------------------------------ the code itself

  class FileTable {
    var records: array<Record>
    var files: map<(nat, nat), nat>
    var tasks: set<nat>
    var pipes: map<nat, nat>

    constructor ()
      ensures fresh(records) && State() == Boot() && Inv(State())
    {
      records := new Record[FILE_NR](f => Record(if f < FIRST_FILE then 2 else 0, Other(0), 0));
      files, tasks, pipes := Boot().files, {0, 1}, map[];
      new;
      BootKeeps();
      assert records[..] == Boot().records;
    }

    function State(): Table
      reads this, records
    {
      Table(records[..], files, tasks, pipes)
    }

    // get_file's search; it panics when every record is open.
    method GetFile() returns (f: nat)
      requires Shaped(State()) && FreeRecord(records[..], FIRST_FILE) < FILE_NR
      ensures f == FreeRecord(records[..], FIRST_FILE)
    {
      f := FIRST_FILE;
      while records[f].count > 0
        invariant f < FILE_NR == records.Length && FreeRecord(records[..], FIRST_FILE) == FreeRecord(records[..], f)
        decreases FILE_NR - f
      {
        f := f + 1;
      }
    }

    // task_get_fd, and dupfd's search.
    method GetFd(t: nat, from: nat) returns (d: nat)
      requires from <= TASK_FILE_NR
      ensures d == FreeFd(files, t, from)
    {
      d := from;
      while d < TASK_FILE_NR && (t, d) in files
        invariant d <= TASK_FILE_NR && FreeFd(files, t, from) == FreeFd(files, t, d)
      {
        d := d + 1;
      }
    }

    method SysOpen(t: nat, nr: nat, at: nat) returns (d: nat)
      requires Inv(State()) && Enabled(State(), DoOpen(t, nr, at))
      modifies this`files, records
      ensures State() == Step(old(State()), DoOpen(t, nr, at)) && Inv(State())
      ensures d < TASK_FILE_NR && (t, d) !in old(files) && (t, d) in files
    {
      StepKeeps(State(), DoOpen(t, nr, at));
      d := GetFd(t, 3);
      var f := GetFile();
      files := files[(t, d) := f];
      records[f] := Record(1, Other(nr), at);
    }

    // put_file of the record that (t, d) names, with put_pipe_inode.
    method SysClose(t: nat, d: nat)
      requires Inv(State()) && d < TASK_FILE_NR
      modifies this`files, this`pipes, records
      ensures State() == Close(old(State()), t, d) && Inv(State())
    {
      CloseKeeps(State(), t, d);
      if (t, d) !in files {
        return;
      }
      ClosesAll(State(), t, d);
      hide Inv;
      var f := files[(t, d)];
      var r := records[f];
      assert r.count > 0;
      records[f] := r.(count := r.count - 1);
      if r.count == 1 && r.inode.Pipe? {
        var i := r.inode.id;
        if pipes[i] == 1 {
          pipes := pipes - {i};
        } else {
          pipes := pipes[i := pipes[i] - 1];
        }
      }
      files := files - {(t, d)};
    }

    // sys_lseek on an open descriptor; size is that of its inode.
    method SysLseek(t: nat, d: nat, far: nat, whence: Whence, size: nat) returns (at: nat)
      requires Inv(State()) && (t, d) in files
      modifies records
      ensures State() == Step(old(State()), DoSeek(t, d, whence, far, size)) && Inv(State())
      ensures files[(t, d)] < records.Length && at == records[files[(t, d)]].offset
    {
      StepKeeps(State(), DoSeek(t, d, whence, far, size));
      var f := files[(t, d)];
      match whence {
        case Set => records[f] := records[f].(offset := far);
        case Current => records[f] := records[f].(offset := records[f].offset + far);
        case End => records[f] := records[f].(offset := size + far);
      }
      at := records[f].offset;
    }

    // dupfd: None for EOF.
    method DupFd(t: nat, fd: nat, arg: nat) returns (d: Option<nat>)
      requires Inv(State()) && t in tasks && arg <= TASK_FILE_NR
      modifies this`files, records
      ensures State() == Duplicated(old(State()), t, fd, arg) && Inv(State())
      ensures d.Some? <==> (t, fd) in old(files) && FreeFd(old(files), t, arg) < TASK_FILE_NR
      ensures d.Some? ==>
        d.value == FreeFd(old(files), t, arg) && (t, d.value) in files && files[(t, d.value)] == old(files)[(t, fd)]
    {
      DupFdKeeps(State(), t, fd, arg);
      if (t, fd) !in files {
        return None;
      }
      var free := GetFd(t, arg);
      if free >= TASK_FILE_NR {
        return None;
      }
      var f := files[(t, fd)];
      files := files[(t, free) := f];
      records[f] := records[f].(count := records[f].count + 1);
      d := Some(free);
    }

    // sys_dup2: newfd is closed first, so duplicating a descriptor to itself only closes it.
    method SysDup2(t: nat, oldfd: nat, newfd: nat) returns (d: Option<nat>)
      requires Inv(State()) && t in tasks && newfd < TASK_FILE_NR
      modifies this`files, this`pipes, records
      ensures Shaped(Close(old(State()), t, newfd))
      ensures State() == Duplicated(Close(old(State()), t, newfd), t, oldfd, newfd) && Inv(State())
      ensures d == if oldfd != newfd && (t, oldfd) in old(files) then Some(newfd) else None
    {
      CloseKeeps(State(), t, newfd);
      SysClose(t, newfd);
      hide Inv;
      d := DupFd(t, oldfd, newfd);
    }

    // One end of a pipe: a descriptor, a record, and the record's inode.
    method OpenEnd(t: nat, i: nat) returns (d: nat)
      requires Shaped(State()) && Room(State(), t)
      modifies this`files, records
      ensures State() == NewEnd(old(State()), t, i) && d < TASK_FILE_NR && (t, d) in files && (t, d) !in old(files)
      ensures forall k :: k in old(files) ==> k in files
      ensures forall k: nat :: 3 <= k < d ==> (t, k) in old(files)
      ensures 3 <= d
    {
      d := GetFd(t, 3);
      var f := GetFile();
      files := files[(t, d) := f];
      records[f] := records[f].(count := 1, inode := Pipe(i));
    }

    // sys_pipe with get_pipe_inode: both ends of pipe inode i, whose count is 2.
    method SysPipe(t: nat, i: nat) returns (rd: nat, wr: nat)
      requires Inv(State()) && Shaped(State()) && Enabled(State(), DoPipe(t, i))
      modifies this`files, this`pipes, records
      ensures State() == Step(old(State()), DoPipe(t, i)) && Inv(State()) && i in pipes && pipes[i] == 2
      ensures 3 <= rd < wr && (t, rd) in files && (t, wr) in files
    {
      hide Inv, Shaped, Room, NewEnd, PipeEnd;
      ghost var s := State();
      StepKeeps(s, DoPipe(t, i));
      BothEnds(s, t, i);
      pipes := pipes[i := 2];
      rd := OpenEnd(t, i);
      wr := OpenEnd(t, i);
    }

    // The part of task_fork that shares the parent's files.
    method ForkFiles(p: nat, c: nat)
      requires Inv(State()) && p in tasks && c !in tasks
      modifies this`files, this`tasks, records
      ensures State() == Inherited(old(State()), p, c, TASK_FILE_NR) && Inv(State())
    {
      hide Counted, PipesCounted;
      ghost var s := State();
      InheritedKeeps(s, p, c, TASK_FILE_NR);
      tasks := tasks + {c};
      for d := 0 to TASK_FILE_NR
        invariant State() == Inherited(s, p, c, d)
      {
        InheritedCopies(s, p, c, d);
        ForkFile(p, c, d);
      }
    }

    method ForkFile(p: nat, c: nat, d: nat)
      requires (p, d) in files ==> files[(p, d)] < records.Length
      modifies this`files, records
      ensures State() == if (p, d) in old(files) then Ref(old(State()), c, d, old(files)[(p, d)]) else old(State())
    {
      if (p, d) in files {
        var f := files[(p, d)];
        files := files[(c, d) := f];
        records[f] := records[f].(count := records[f].count + 1);
      }
    }

    // The part of task_exit that closes the task's files.
    method ExitFiles(t: nat)
      requires Inv(State())
      modifies this`files, this`pipes, this`tasks, records
      ensures State() == Exit(old(State()), t) && Inv(State())
    {
      ExitKeeps(State(), t);
      ghost var s := State();
      hide Inv, Close;
      for d := 0 to TASK_FILE_NR
        invariant State() == ClosedBelow(s, t, d) && Inv(State())
      {
        if (t, d) in files {
          SysClose(t, d);
        } else {
          NothingToClose(State(), t, d);
        }
      }
      tasks := tasks - {t};
    }
  }

  lemma NothingToClose(s: Table, t: nat, d: nat)
    requires (t, d) !in s.files
    ensures Close(s, t, d) == s
  {}

  function NewEnd(s: Table, t: nat, i: nat): Table
    requires Shaped(s) && Room(s, t)
  {
    var f := FreeRecord(s.records, FIRST_FILE);
    Opened(s, t, FreeFd(s.files, t, 3), f, Pipe(i), s.records[f].offset)
  }

  // Setting the count to 2 first comes to the same as counting the two ends.
  lemma BothEnds(s: Table, t: nat, i: nat)
    requires Shaped(s) && Enabled(s, DoPipe(t, i))
    ensures var m := s.(pipes := s.pipes[i := 2]);
      && Shaped(m) && Room(m, t) && Shaped(NewEnd(m, t, i)) && Room(NewEnd(m, t, i), t)
      && NewEnd(NewEnd(m, t, i), t, i) == Step(s, DoPipe(t, i))
    ensures Step(s, DoPipe(t, i)).pipes == s.pipes[i := 2]
  {
    hide FreeFd, FreeRecord;
    assert s.pipes[i := 1][i := 2] == s.pipes[i := 2];
  }
}
