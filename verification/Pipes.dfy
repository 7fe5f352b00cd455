// Pipes: the ring of src/lib/fifo.c, and the reader and the writer of src/fs/pipe.c, who
// block on each other.
module Pipes {

  type byte = b: int | 0 <= b < 256

  // ------------------------------------------------------------------- ring

  datatype Ring = Ring(buf: seq<byte>, head: nat, tail: nat)

  predicate Valid(r: Ring) {
    |r.buf| >= 2 && r.head < |r.buf| && r.tail < |r.buf|
  }

  // fifo_next; see NextIsMod
  function Next(r: Ring, pos: nat): nat
    requires Valid(r)
  {
    if pos + 1 == |r.buf| then 0 else pos + 1
  }

  lemma WrapIsMod(k: nat, n: nat)
    requires k <= n && n > 0
    ensures k % n == if k == n then 0 else k
  {}

  lemma NextIsMod(r: Ring, pos: nat)
    requires Valid(r) && pos < |r.buf|
    ensures (pos + 1) % |r.buf| == Next(r, pos)
  {
    WrapIsMod(pos + 1, |r.buf|);
  }

  function Full(r: Ring): bool
    requires Valid(r)
  {
    Next(r, r.head) == r.tail
  }

  function Empty(r: Ring): bool {
    r.head == r.tail
  }

  // The bytes in flight, the oldest first.
  function Contents(r: Ring): seq<byte>
    requires Valid(r)
  {
    if r.tail <= r.head then r.buf[r.tail..r.head] else r.buf[r.tail..] + r.buf[..r.head]
  }

  function Get(r: Ring): Ring
    requires Valid(r)
  {
    r.(tail := Next(r, r.tail))
  }

  // fifo_put's part behind its loop.
  function Store(r: Ring, b: byte): Ring
    requires Valid(r)
  {
    r.(buf := r.buf[r.head := b], head := Next(r, r.head))
  }

  // fifo_put: a full ring first loses its oldest byte.
  function Put(r: Ring, b: byte): Ring
    requires Valid(r)
  {
    if Full(r) then Store(Get(r), b) else Store(r, b)
  }

  // One cell always stays free: at most length - 1 bytes are in flight.
  lemma ContentsSize(r: Ring)
    requires Valid(r)
    ensures |Contents(r)| < |r.buf|
    ensures Empty(r) <==> Contents(r) == []
    ensures Full(r) <==> |Contents(r)| == |r.buf| - 1
  {}

  lemma GetContents(r: Ring)
    requires Valid(r) && !Empty(r)
    ensures Valid(Get(r)) && Contents(r) == [r.buf[r.tail]] + Contents(Get(r))
  {}

  lemma StoreContents(r: Ring, b: byte)
    requires Valid(r) && !Full(r)
    ensures Valid(Store(r, b)) && Contents(Store(r, b)) == Contents(r) + [b]
  {
    var m := Store(r, b);
    if r.head + 1 == |r.buf| {
      assert m.buf[..r.head] == r.buf[..r.head] && m.buf[r.tail..] == r.buf[r.tail..r.head] + [b];
    } else if r.tail <= r.head {
      assert m.buf[r.tail..r.head + 1] == r.buf[r.tail..r.head] + [b];
    } else {
      assert m.buf[r.tail..] == r.buf[r.tail..] && m.buf[..r.head + 1] == r.buf[..r.head] + [b];
    }
  }

  lemma PutContents(r: Ring, b: byte)
    requires Valid(r)
    ensures Valid(Put(r, b)) && Contents(Put(r, b)) == (if Full(r) then Contents(r)[1..] else Contents(r)) + [b]
  {
    if Full(r) {
      ContentsSize(r);
      GetContents(r);
      ContentsSize(Get(r));
      hide Contents, Store;
      assert Contents(r)[1..] == Contents(Get(r));
      StoreContents(Get(r), b);
    } else {
      hide Contents, Store;
      StoreContents(r, b);
    }
  }

  class Fifo {
    const buf: array<byte>
    var head: nat
    var tail: nat

    constructor (buf: array<byte>)
      requires buf.Length >= 2
      ensures this.buf == buf && Valid(State()) && Contents(State()) == []
    {
      this.buf, head, tail := buf, 0, 0;
    }

    function State(): Ring
      reads this, buf
    {
      Ring(buf[..], head, tail)
    }

    method IsFull() returns (full: bool)
      requires Valid(State())
      ensures full == Full(State())
    {
      NextIsMod(State(), head);
      full := (head + 1) % buf.Length == tail;
    }

    method GetByte() returns (b: byte)
      requires Valid(State()) && !Empty(State())
      modifies this`tail
      ensures State() == Get(old(State())) && old(Contents(State())) == [b] + Contents(State()) && Valid(State())
    {
      GetContents(State());
      NextIsMod(State(), tail);
      b := buf[tail];
      tail := (tail + 1) % buf.Length;
    }

    method PutByte(b: byte)
      requires Valid(State())
      modifies this, buf
      ensures State() == Put(old(State()), b) && Valid(State())
    {
      ghost var r := State();
      PutContents(r, b);
      ContentsSize(r);
      var full := IsFull();
      while full
        invariant Valid(State()) && full == Full(State())
        invariant State() == r || (Full(r) && State() == Get(r))
        decreases full
      {
        var dropped := GetByte();
        ContentsSize(State());
        GetContents(r);
        full := IsFull();
      }
      NextIsMod(State(), head);
      buf[head] := b;
      head := (head + 1) % buf.Length;
    }
  }

  // ------------------------------------------------------- reader and writer

  // Where a task is: outside the call, at the loop's test with so much to do, blocked, or
  // woken and past the test.
  datatype Reader = ReadIdle | Reading(left: nat) | ReadAsleep(left: nat) | ReadWoken(left: nat)
  datatype Writer = WriteIdle | Writing(data: seq<byte>) | WriteAsleep(data: seq<byte>) | WriteWoken(data: seq<byte>)

  // rx and tx: rxwaiter and txwaiter are set. read and written record all bytes so far.
  datatype Pipe = Pipe(ring: Ring, rx: bool, tx: bool, reader: Reader, writer: Writer, read: seq<byte>,
                       written: seq<byte>)

  predicate Inv(p: Pipe) {
    && Valid(p.ring) && p.written == p.read + Contents(p.ring)
    && (p.rx <==> p.reader.ReadAsleep?) && (p.tx <==> p.writer.WriteAsleep?)
    && (p.reader.ReadAsleep? ==> Empty(p.ring)) && (p.writer.WriteAsleep? ==> Full(p.ring))
    && (p.reader.ReadWoken? ==> !Empty(p.ring)) && (p.writer.WriteWoken? ==> !Full(p.ring))
    && (!p.reader.ReadIdle? ==> p.reader.left > 0) && (!p.writer.WriteIdle? ==> p.writer.data != [])
  }

  // task_unblock of the other side, and its waiter field cleared.
  function WakeWriter(p: Pipe): Pipe {
    if p.tx && p.writer.WriteAsleep? then p.(tx := false, writer := WriteWoken(p.writer.data)) else p
  }

  function WakeReader(p: Pipe): Pipe {
    if p.rx && p.reader.ReadAsleep? then p.(rx := false, reader := ReadWoken(p.reader.left)) else p
  }

  // fifo_get into the reader's buffer, and the rest of the loop's body.
  function TakeByte(p: Pipe, left: nat): Pipe
    requires Valid(p.ring) && left > 0
  {
    WakeWriter(p.(ring := Get(p.ring), read := p.read + [p.ring.buf[p.ring.tail]],
                  reader := if left == 1 then ReadIdle else Reading(left - 1)))
  }

  function GiveByte(p: Pipe, data: seq<byte>): Pipe
    requires Valid(p.ring) && data != []
  {
    WakeReader(p.(ring := Put(p.ring, data[0]), written := p.written + [data[0]],
                  writer := if |data| == 1 then WriteIdle else Writing(data[1..])))
  }

  datatype Event = CallRead(count: nat) | CallWrite(data: seq<byte>) | RunReader | RunWriter

  predicate Enabled(p: Pipe, e: Event) {
    match e
    case CallRead(_) => p.reader.ReadIdle?
    case CallWrite(_) => p.writer.WriteIdle?
    case RunReader => Valid(p.ring) && (p.reader.Reading? || p.reader.ReadWoken?) && p.reader.left > 0
    case RunWriter => Valid(p.ring) && (p.writer.Writing? || p.writer.WriteWoken?) && p.writer.data != []
  }

  // The waiter is tested once: what was woken does not look at the ring again.
  function Step(p: Pipe, e: Event): Pipe
    requires Enabled(p, e)
  {
    match e
    case CallRead(count) => if count == 0 then p else p.(reader := Reading(count))
    case CallWrite(data) => if data == [] then p else p.(writer := Writing(data))
    case RunReader =>
      if p.reader.Reading? && Empty(p.ring) then p.(rx := true, reader := ReadAsleep(p.reader.left))
      else TakeByte(p, p.reader.left)
    case RunWriter =>
      if p.writer.Writing? && Full(p.ring) then p.(tx := true, writer := WriteAsleep(p.writer.data))
      else GiveByte(p, p.writer.data)
  }

  // fifo_get's assertion holds, fifo_put never drops a byte, and no waiter is recorded twice.
  predicate Safe(p: Pipe, e: Event)
    requires Enabled(p, e)
  {
    match e
    case RunReader => if p.reader.Reading? && Empty(p.ring) then !p.rx else !Empty(p.ring)
    case RunWriter => if p.writer.Writing? && Full(p.ring) then !p.tx else !Full(p.ring)
    case _ => true
  }

  lemma ReaderKeeps(p: Pipe)
    requires Inv(p) && Enabled(p, RunReader)
    ensures Safe(p, RunReader) && Inv(Step(p, RunReader))
    ensures p.read <= Step(p, RunReader).read && p.written <= Step(p, RunReader).written
  {
    ContentsSize(p.ring);
    if !Empty(p.ring) {
      GetContents(p.ring);
      ContentsSize(Get(p.ring));
      var b := p.ring.buf[p.ring.tail];
      assert p.read + ([b] + Contents(Get(p.ring))) == (p.read + [b]) + Contents(Get(p.ring));
    }
    hide Contents;
  }

  lemma WriterKeeps(p: Pipe)
    requires Inv(p) && Enabled(p, RunWriter)
    ensures Safe(p, RunWriter) && Inv(Step(p, RunWriter))
    ensures p.read <= Step(p, RunWriter).read && p.written <= Step(p, RunWriter).written
  {
    hide Contents;
    ContentsSize(p.ring);
    if !Full(p.ring) {
      var b := p.writer.data[0];
      PutContents(p.ring, b);
      ContentsSize(Put(p.ring, b));
      hide Put;
      assert p.read + (Contents(p.ring) + [b]) == (p.read + Contents(p.ring)) + [b];
    }
  }

  lemma StepKeeps(p: Pipe, e: Event)
    requires Inv(p) && Enabled(p, e)
    ensures Safe(p, e) && Inv(Step(p, e))
    ensures p.read <= Step(p, e).read && p.written <= Step(p, e).written
  {
    hide Contents, Valid;
    match e
    case CallRead(count) =>
    case CallWrite(data) =>
    case RunReader => ReaderKeeps(p);
    case RunWriter => WriterKeeps(p);
  }

  // What the invariant says to the two tasks.
  lemma InFlight(p: Pipe)
    requires Inv(p)
    ensures p.read <= p.written && |p.written| - |p.read| <= |p.ring.buf| - 1
    ensures p.rx ==> p.read == p.written
    ensures p.tx ==> |p.written| - |p.read| == |p.ring.buf| - 1
    ensures !(p.rx && p.tx)
  {
    ContentsSize(p.ring);
  }

  ghost predicate EnabledRun(p: Pipe, es: seq<Event>)
    decreases |es|
  {
    es == [] || (Enabled(p, es[0]) && EnabledRun(Step(p, es[0]), es[1..]))
  }

  ghost function Run(p: Pipe, es: seq<Event>): Pipe
    requires EnabledRun(p, es)
    decreases |es|
  {
    if es == [] then p else Run(Step(p, es[0]), es[1..])
  }

  // A new pipe: get_pipe_inode.
  function NewPipe(buf: seq<byte>): Pipe {
    Pipe(Ring(buf, 0, 0), false, false, ReadIdle, WriteIdle, [], [])
  }

  lemma {:induction false} RunKeeps(p: Pipe, es: seq<Event>)
    requires Inv(p) && EnabledRun(p, es)
    ensures Inv(Run(p, es))
    decreases |es|
  {
    if es != [] {
      StepKeeps(p, es[0]);
      RunKeeps(Step(p, es[0]), es[1..]);
    }
  }

  // Over every run what was read is a prefix of what was written, and not both block.
  lemma ReadsPrefix(buf: seq<byte>, es: seq<Event>)
    requires |buf| >= 2 && EnabledRun(NewPipe(buf), es)
    ensures var p := Run(NewPipe(buf), es);
      p.read <= p.written && |p.written| - |p.read| < |p.ring.buf| && !(p.reader.ReadAsleep? && p.writer.WriteAsleep?)
  {
    RunKeeps(NewPipe(buf), es);
    InFlight(Run(NewPipe(buf), es));
  }

  // The bytes that a run's calls gave to pipe_write, in order, and how many pipe_read was asked for.
  ghost function Given(es: seq<Event>): seq<byte>
    decreases |es|
  {
    if es == [] then [] else (if es[0].CallWrite? then es[0].data else []) + Given(es[1..])
  }

  ghost function Asked(es: seq<Event>): nat
    decreases |es|
  {
    if es == [] then 0 else (if es[0].CallRead? then es[0].count else 0) + Asked(es[1..])
  }

  // What a call under way has still to write, and to read.
  function InHand(p: Pipe): seq<byte> {
    if p.writer.WriteIdle? then [] else p.writer.data
  }

  function ToGo(p: Pipe): nat {
    if p.reader.ReadIdle? then 0 else p.reader.left
  }

  lemma StepLosesNothing(p: Pipe, e: Event)
    requires Inv(p) && Enabled(p, e)
    ensures var q := Step(p, e);
      && q.written + InHand(q) == p.written + InHand(p) + (if e.CallWrite? then e.data else [])
      && |q.read| + ToGo(q) == |p.read| + ToGo(p) + (if e.CallRead? then e.count else 0)
  {
    hide Contents, Get, Put, Valid;
  }

  // Every byte given to pipe_write is written in order or still in its writer's hands, and a
  // read ends only when it has all the bytes it was asked for.
  lemma {:induction false} RunLosesNothing(p: Pipe, es: seq<Event>)
    requires Inv(p) && EnabledRun(p, es)
    ensures var q := Run(p, es);
      && q.written + InHand(q) == p.written + InHand(p) + Given(es)
      && |q.read| + ToGo(q) == |p.read| + ToGo(p) + Asked(es)
    decreases |es|
  {
    hide Inv, Enabled, Step, InHand, ToGo;
    if es != [] {
      StepKeeps(p, es[0]);
      StepLosesNothing(p, es[0]);
      RunLosesNothing(Step(p, es[0]), es[1..]);
    }
  }

  // Whoever is inside a call can run, or the other side can and will wake it.
  lemma NoDeadlock(p: Pipe)
    requires Inv(p) && !p.reader.ReadIdle? && !p.writer.WriteIdle?
    ensures Enabled(p, RunReader) || Enabled(p, RunWriter)
    ensures p.reader.ReadAsleep? ==> Step(p, RunWriter).reader == ReadWoken(p.reader.left)
    ensures p.writer.WriteAsleep? ==> Step(p, RunReader).writer == WriteWoken(p.writer.data)
  {
    InFlight(p);
    ContentsSize(p.ring);
  }

  // ------------------------------------------------------------ the code itself

  class PipeInode {
    const fifo: Fifo
    var rxwaiter: bool
    var txwaiter: bool

    constructor (fifo: Fifo)
      ensures this.fifo == fifo && !rxwaiter && !txwaiter
    {
      this.fifo, rxwaiter, txwaiter := fifo, false, false;
    }

    function Bytes(): seq<byte>
      reads fifo, fifo.buf
      requires Valid(fifo.State())
    {
      Contents(fifo.State())
    }

    // pipe_read for count bytes, from its start or from being woken, until it blocks or is done.
    method PipeRead(count: nat, woken: bool) returns (got: seq<byte>, blocks: bool)
      requires Valid(fifo.State()) && !rxwaiter && (woken ==> count > 0 && Bytes() != [])
      modifies this, fifo`tail
      ensures Valid(fifo.State())
      ensures old(Bytes()) == got + Bytes() && |got| == (if count < |old(Bytes())| then count else |old(Bytes())|)
      ensures rxwaiter == blocks == (|got| < count) && txwaiter == (old(txwaiter) && got == [])
    {
      hide Contents;
      got, blocks := [], false;
      var past := woken;
      while |got| < count
        invariant Valid(fifo.State()) && old(Bytes()) == got + Bytes() && |got| <= count && (past ==> Bytes() != [])
        invariant !rxwaiter && txwaiter == (old(txwaiter) && got == [])
      {
        ContentsSize(fifo.State());
        if !past && fifo.head == fifo.tail {
          rxwaiter, blocks := true, true;
          return;
        }
        past := false;
        ghost var before := got;
        var b := fifo.GetByte();
        assert before + ([b] + Bytes()) == before + [b] + Bytes();
        got := got + [b];
        if txwaiter {
          txwaiter := false;
        }
      }
    }

    // pipe_write of the same kind.
    method PipeWrite(data: seq<byte>, woken: bool) returns (n: nat, blocks: bool)
      requires Valid(fifo.State()) && !txwaiter && (woken ==> data != [] && |Bytes()| < fifo.buf.Length - 1)
      modifies this, fifo, fifo.buf
      ensures Valid(fifo.State())
      ensures n == var room := old(fifo.buf.Length - 1 - |Bytes()|); if |data| < room then |data| else room
      ensures n <= |data| && Bytes() == old(Bytes()) + data[..n]
      ensures txwaiter == blocks == (n < |data|) && rxwaiter == (old(rxwaiter) && n == 0)
    {
      hide Contents, Put;
      n, blocks := 0, false;
      var past := woken;
      ContentsSize(fifo.State());
      while n < |data|
        invariant Valid(fifo.State()) && n <= |data| && Bytes() == old(Bytes()) + data[..n]
        invariant |Bytes()| <= fifo.buf.Length - 1 && (past ==> |Bytes()| < fifo.buf.Length - 1)
        invariant !txwaiter && rxwaiter == (old(rxwaiter) && n == 0)
      {
        ContentsSize(fifo.State());
        var full := fifo.IsFull();
        if !past && full {
          txwaiter, blocks := true, true;
          return;
        }
        past := false;
        PutContents(fifo.State(), data[n]);
        fifo.PutByte(data[n]);
        ContentsSize(fifo.State());
        assert old(Bytes()) + data[..n + 1] == old(Bytes()) + data[..n] + [data[n]];
        n := n + 1;
        if rxwaiter {
          rxwaiter := false;
        }
      }
    }
  }
}
