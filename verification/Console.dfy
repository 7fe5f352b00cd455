// src/kernel/console.c in its own form: assignments to the console's fields and to cells
// of video memory. That the calls verify says that every cell written is in memory.
module Console {
  import opened Terminal

  class Console {
    const mem: array<byte>
    var screen: int
    var pos: int
    var x: nat
    var y: nat
    var savedX: nat
    var savedY: nat
    var state: State
    var args: seq<nat>
    var argc: nat
    var style: byte
    var eraseStyle: byte

    // console_init
    constructor (mem: array<byte>)
      requires mem.Length == MEM_BYTES
      modifies mem
      ensures this.mem == mem && State() == Cleared(old(mem[..])) && Valid(State())
    {
      this.mem := mem;
      screen, pos, x, y, savedX, savedY := 0, 0, 0, 0, 0, 0;
      state, args, argc, style, eraseStyle := Nor, seq(ARG_NR, i => 0), 0, STYLE, STYLE;
      new;
      EraseScreen(0, MEM_END / 2);
    }

    function State(): Con
      reads this, mem
    {
      Con(mem[..], screen, pos, x, y, savedX, savedY, state, args, argc, style, eraseStyle)
    }

    // Only within the rows of memory.
    method EraseScreen(start: int, count: nat)
      requires mem.Length == MEM_BYTES && 0 <= start && start + 2 * count <= MEM_END
      modifies mem
      ensures mem[..] == Erased(old(mem[..]), start, count, eraseStyle)
    {
      for nr := 0 to count
        invariant mem[..] == Erased(old(mem[..]), start, nr, eraseStyle)
      {
        mem[start + 2 * nr] := SPACE;
        mem[start + 2 * nr + 1] := eraseStyle;
        assert mem[..] == Erased(old(mem[..]), start, nr + 1, eraseStyle);
      }
    }

    method MemCpy(dest: nat, src: nat, n: nat)
      requires mem.Length == MEM_BYTES && src + n <= MEM_END && dest + n <= MEM_END &&
        (dest + n <= src || src + n <= dest)
      modifies mem
      ensures mem[..] == Copied(old(mem[..]), dest, src, n)
    {
      for i := 0 to n
        invariant mem[..] == Copied(old(mem[..]), dest, src, i)
      {
        mem[dest + i] := mem[src + i];
        assert mem[..] == Copied(old(mem[..]), dest, src, i + 1);
      }
    }

    method SetXy(nx: nat, ny: nat)
      modifies this
      ensures State() == Terminal.SetXy(old(State()), nx, ny)
    {
      if nx > WIDTH || ny >= HEIGHT {
        return;
      }
      x, y := nx, ny;
      pos := screen + ny * ROW_SIZE + 2 * nx;
    }

    method ScrollUp()
      requires Valid(State())
      modifies this, mem
      ensures State() == Terminal.ScrollUp(old(State())) && Valid(State())
    {
      ghost var c := State();
      ScrollUpKeeps(c);
      RebasedShows(c, 0, 0);
      hide Erased, Copied;
      if screen + SCR_SIZE + ROW_SIZE >= MEM_END {
        MemCpy(0, screen, SCR_SIZE);
        pos := pos - screen;
        screen := 0;
      }
      assert State() == Rebased(c);
      EraseScreen(screen + SCR_SIZE, WIDTH);
      screen := screen + ROW_SIZE;
      pos := pos + ROW_SIZE;
    }

    method Lf()
      requires Valid(State())
      modifies this, mem
      ensures State() == Terminal.Lf(old(State())) && Valid(State())
    {
      LfKeeps(State());
      hide Terminal.ScrollUp;
      if y + 1 < HEIGHT {
        y := y + 1;
        pos := pos + ROW_SIZE;
        return;
      }
      ScrollUp();
    }

    method Cr()
      modifies this`pos, this`x
      ensures State() == Terminal.Cr(old(State()))
    {
      pos := pos - 2 * x;
      x := 0;
    }

    // What tab and chr do past the right margin.
    method Wrap()
      requires WIDTH <= x && Valid(State().(x := x - WIDTH, pos := pos - ROW_SIZE))
      modifies this, mem
      ensures State() == Wrapped(old(State())) && Valid(State())
    {
      hide Terminal.Lf;
      x := x - WIDTH;
      pos := pos - ROW_SIZE;
      Lf();
    }

    method Tab()
      requires Valid(State())
      modifies this, mem
      ensures State() == Terminal.Tab(old(State())) && Valid(State())
    {
      TabKeeps(State());
      hide Wrapped;
      var offset := 8 - x % 8;
      x := x + offset;
      pos := pos + 2 * offset;
      if x >= WIDTH {
        Wrap();
      }
    }

    method Bs()
      requires Valid(State())
      modifies this, mem
      ensures State() == Terminal.Bs(old(State()))
    {
      hide Erased;
      if x == 0 {
        return;
      }
      x := x - 1;
      pos := pos - 2;
      EraseScreen(pos, 1);
    }

    method Del()
      requires Valid(State())
      modifies mem
      ensures State() == Terminal.Del(old(State()))
    {
      hide Erased;
      EraseScreen(pos, 1);
    }

    method Chr(ch: byte)
      requires Valid(State())
      modifies this, mem
      ensures State() == Terminal.Chr(old(State()), ch) && Valid(State())
    {
      WrapKeeps(State());
      hide Wrapped;
      if x >= WIDTH {
        Wrap();
      }
      assert x < WIDTH && pos + 1 < MEM_END;
      ghost var d := State();
      mem[pos] := ch;
      mem[pos + 1] := style;
      pos := pos + 2;
      x := x + 1;
      assert State() == Typed(d, ch);
    }

    method StateNormal(ch: byte)
      requires Valid(State())
      modifies this, mem
      ensures State() == Normal(old(State()), ch) && Valid(State())
    {
      NormalKeeps(State(), ch);
      hide Terminal.Bs, Terminal.Tab, Terminal.Lf, Terminal.Chr, Terminal.Del, Valid;
      if ch == 0x08 {
        Bs();
      } else if ch == 0x09 {
        Tab();
      } else if ch == 0x0A {
        Lf();
        Cr();
      } else if ch == 0x0B || ch == 0x0C {
        Lf();
      } else if ch == 0x0D {
        Cr();
      } else if ch == 0x7F {
        Del();
      } else if ch == 0x1B {
        state := Esc;
      } else if ch != 0x00 && ch != 0x07 {
        Chr(ch);
      }
    }

    method StateEsc(ch: byte)
      requires Valid(State())
      modifies this, mem
      ensures State() == Escape(old(State()), ch) && Valid(State())
    {
      EscapeKeeps(State(), ch);
      hide Terminal.Lf, Valid;
      if ch == Code('[') {
        state := Que;
      } else if ch == Code('E') {
        Lf();
        Cr();
      } else if ch == Code('D') {
        Lf();
      } else if ch == Code('7') {
        savedX, savedY := x, y;
      } else if ch == Code('8') {
        SetXy(savedX, savedY);
      }
    }

    method StateArg(ch: byte) returns (ends: bool)
      requires Valid(State())
      modifies this
      ensures State() == ArgTaken(old(State()), ch) && ends == EndsArgs(old(State()), ch)
    {
      if argc >= ARG_NR {
        return false;
      }
      if ch == Code(';') {
        argc := argc + 1;
        return false;
      }
      if Code('0') <= ch <= Code('9') {
        args := args[argc := (args[argc] * 10 + ch - 48) % U32];
        return false;
      }
      argc := argc + 1;
      state := Csi;
      ends := true;
    }

    method CsiJ()
      requires Valid(State())
      modifies mem
      ensures State() == Terminal.CsiJ(old(State()))
    {
      hide Erased;
      if args[0] == 0 {
        EraseScreen(pos, (screen + SCR_SIZE - pos) / 2);
      } else if args[0] == 1 {
        EraseScreen(screen, (pos - screen) / 2);
      } else if args[0] == 2 {
        EraseScreen(screen, SCR_SIZE / 2);
      }
    }

    method CsiK()
      requires Valid(State())
      modifies mem
      ensures State() == Terminal.CsiK(old(State()))
    {
      hide Erased;
      if args[0] == 0 {
        EraseScreen(pos, WIDTH - x);
      } else if args[0] == 1 {
        EraseScreen(pos - 2 * x, x);
      } else if args[0] == 2 {
        EraseScreen(pos - 2 * x, WIDTH);
      }
    }

    method InsertLine()
      requires Valid(State())
      modifies mem
      ensures mem[..] == LineInserted(old(mem[..]), RowStart(State()), eraseStyle)
    {
      hide Erased, Copied, LineInserted;
      ghost var was := mem[..];
      var start := screen + y * ROW_SIZE;
      var i := 2;
      DownNone(was);
      while MEM_END - i * ROW_SIZE >= start
        invariant 2 <= i && start <= MEM_END - (i - 1) * ROW_SIZE
        invariant mem[..] == Down(was, MEM_END - (i - 2) * ROW_SIZE)
      {
        var src := MEM_END - i * ROW_SIZE;
        DownNext(was, src + 2 * ROW_SIZE);
        MemCpy(src + ROW_SIZE, src, ROW_SIZE);
        i := i + 1;
      }
      assert start == MEM_END - (i - 1) * ROW_SIZE;
      DownAll(was, start, eraseStyle);
      EraseScreen(start, WIDTH);
    }

    method DeleteLine()
      requires Valid(State())
      modifies mem
      ensures mem[..] == LineDeleted(old(mem[..]), RowStart(State()), eraseStyle)
    {
      hide Erased, Copied, LineDeleted, Gathered;
      ghost var was := mem[..];
      var start := screen + y * ROW_SIZE;
      assert start % ROW_SIZE == 0 && 0 <= start;
      hide Valid;
      var src := start + 2 * ROW_SIZE;
      GatherNone(was, start);
      while src < MEM_END
        invariant start + 2 * ROW_SIZE <= src && (src - start) % (2 * ROW_SIZE) == 0
        invariant mem[..] == Gathered(was, start, src - ROW_SIZE)
      {
        GatherNext(was, start, src);
        MemCpy(src - ROW_SIZE, src, ROW_SIZE);
        src := src + 2 * ROW_SIZE;
      }
      GatherAll(was, start, src - ROW_SIZE, eraseStyle);
      EraseScreen(MEM_END - ROW_SIZE, WIDTH);
    }

    method DeleteChar()
      requires Valid(State())
      modifies mem
      ensures mem[..] == CharDeleted(old(mem[..]), pos, Behind(State()), eraseStyle)
    {
      ghost var was := mem[..];
      var ptr, i := pos, x + 1;
      assert was == Left(was, pos, pos);
      while i < WIDTH
        invariant x < i <= WIDTH + 1 && (i == x + 1 || i <= WIDTH) && ptr == pos + 2 * (i - x - 1)
        invariant mem[..] == Left(was, pos, ptr)
      {
        LeftNext(was, pos, ptr);
        mem[ptr] := mem[ptr + 2];
        mem[ptr + 1] := mem[ptr + 3];
        ptr := ptr + 2;
        i := i + 1;
      }
      assert ptr == pos + 2 * Behind(State());
      LeftAll(was, pos, Behind(State()), eraseStyle);
      mem[ptr] := SPACE;
      mem[ptr + 1] := eraseStyle;
    }

    method InsertChar()
      requires Valid(State())
      modifies mem
      ensures mem[..] == CharInserted(old(mem[..]), pos, Behind(State()))
    {
      ghost var was := mem[..];
      ghost var end := pos + 2 * Behind(State()) + 2;
      var ptr := pos + 2 * (WIDTH - x - 1);
      RightNone(was, end);
      hide Right, CharInserted;
      while ptr > pos
        invariant pos - 2 <= ptr <= end - 2 && (ptr < pos ==> x == WIDTH) && (ptr - pos) % 2 == 0
        invariant mem[..] == Right(was, if ptr < pos then end else ptr + 2, end)
      {
        RightNext(was, ptr, end);
        mem[ptr] := mem[ptr - 2];
        mem[ptr + 1] := mem[ptr - 1];
        ptr := ptr - 2;
      }
      RightAll(was, pos, Behind(State()));
      mem[pos] := SPACE;
    }

    // csi_L
    method InsertLines(n: nat)
      requires Valid(State())
      modifies mem
      ensures State() == LinesInserted(old(State()), n)
    {
      ghost var c := State();
      hide LineInserted;
      for i := 0 to n
        invariant State() == LinesInserted(c, i)
      {
        InsertLine();
      }
    }

    // csi_M
    method DeleteLines(n: nat)
      requires Valid(State())
      modifies mem
      ensures State() == LinesDeleted(old(State()), n)
    {
      ghost var c := State();
      hide LineDeleted;
      for i := 0 to n
        invariant State() == LinesDeleted(c, i)
      {
        DeleteLine();
      }
    }

    // csi_P
    method DeleteChars(n: nat)
      requires Valid(State())
      modifies mem
      ensures State() == CharsDeleted(old(State()), n)
    {
      ghost var c := State();
      hide CharDeleted;
      for i := 0 to n
        invariant State() == CharsDeleted(c, i)
      {
        DeleteChar();
      }
    }

    // csi_at
    method InsertChars(n: nat)
      requires Valid(State())
      modifies mem
      ensures State() == CharsInserted(old(State()), n)
    {
      ghost var c := State();
      hide CharInserted;
      for i := 0 to n
        invariant State() == CharsInserted(c, i)
      {
        InsertChar();
      }
    }

    // csi_m
    method SetStyle()
      requires Valid(State())
      modifies this`style, this`eraseStyle
      ensures State() == CsiM(old(State()))
    {
      style := 0;
      for i := 0 to argc
        invariant style == StyleAfter(args, i)
      {
        style := Styled(style, args[i]);
      }
      eraseStyle := style;
    }

    method StateCsi(ch: byte)
      requires Valid(State())
      modifies this, mem
      ensures State() == Sequence(old(State()).(state := Nor), ch) && Valid(State())
    {
      SequenceKeeps(State().(state := Nor), ch);
      state := Nor;
      hide Sequence;
      if Moves(ch) {
        Move(ch);
      } else {
        Edit(ch);
      }
    }

    // state_csi's cursor movements: an argument of 0 stands for 1, and sums are 32 bits wide.
    method Move(ch: byte)
      requires Valid(State()) && Moves(ch)
      modifies this
      ensures State() == Sequence(old(State()), ch)
    {
      var one := Atleast1(args[0]);
      if ch == Code('G') || ch == Code('`') {
        args := args[0 := Less1(args[0])];
        SetXy(args[0], y);
      } else if ch == Code('A') {
        args := args[0 := one];
        SetXy(x, Sub32(y, one));
      } else if ch == Code('B') || ch == Code('e') {
        args := args[0 := one];
        SetXy(x, Add32(y, one));
      } else if ch == Code('C') || ch == Code('a') {
        args := args[0 := one];
        SetXy(Add32(x, one), y);
      } else if ch == Code('D') {
        args := args[0 := one];
        SetXy(Sub32(x, one), y);
      } else if ch == Code('E') {
        args := args[0 := one];
        SetXy(0, Add32(y, one));
      } else if ch == Code('F') {
        args := args[0 := one];
        SetXy(0, Sub32(y, one));
      } else if ch == Code('d') {
        args := args[0 := Less1(args[0])];
        SetXy(x, args[0]);
      } else {
        args := args[0 := Less1(args[0])][1 := Less1(args[1])];
        SetXy(args[1], args[0]);
      }
    }

    // The rest of state_csi; case 's' falls through to 'u'.
    method Edit(ch: byte)
      requires Valid(State()) && !Moves(ch)
      modifies this, mem
      ensures State() == Sequence(old(State()), ch)
    {
      hide LinesInserted, LinesDeleted, CharsDeleted, CharsInserted, Terminal.CsiJ, Terminal.CsiK, StyleAfter, Valid;
      assert args != [] by { ArgsThere(State()); }
      if ch == Code('J') {
        CsiJ();
      } else if ch == Code('K') {
        CsiK();
      } else if ch == Code('L') {
        InsertLines(Times(args[0], HEIGHT));
      } else if ch == Code('M') {
        DeleteLines(Times(args[0], HEIGHT));
      } else if ch == Code('P') {
        DeleteChars(Times(args[0], WIDTH));
      } else if ch == Code('@') {
        InsertChars(Times(args[0], WIDTH));
      } else if ch == Code('m') {
        SetStyle();
      } else if ch == Code('s') {
        savedX, savedY := x, y;
        SetXy(savedX, savedY);
      } else if ch == Code('u') {
        SetXy(savedX, savedY);
      }
    }

    // One round of console_write's loop.
    method WriteByte(ch: byte)
      requires Valid(State())
      modifies this, mem
      ensures State() == Step(old(State()), ch) && Valid(State())
    {
      ghost var c := State();
      StepKeeps(c, ch);
      hide Normal, Escape, Sequence, ArgTaken;
      if state == Nor {
        StateNormal(ch);
      } else if state == Esc {
        StateEsc(ch);
      } else if state == Csi {
        StateCsi(ch);
      } else {
        if state == Que {
          args, argc, state := seq(ARG_NR, i => 0), 0, Arg;
          if ch == Code('?') {
            return;
          }
        }
        var ends := StateArg(ch);
        ArgValid(if c.state == Que then NoArgs(c) else c, ch);
        if ends {
          StateCsi(ch);
        }
      }
    }

    // console_write: the count it returns is one more than it was given.
    method ConsoleWrite(bytes: seq<byte>) returns (nr: nat)
      requires Valid(State())
      modifies this, mem
      ensures State() == Written(old(State()), bytes) && Valid(State())
      ensures nr == |bytes| + 1
    {
      ghost var c := State();
      hide Valid, Step;
      nr := 0;
      assert bytes[0..] == bytes;
      while nr < |bytes|
        invariant nr <= |bytes| && Valid(State()) && Written(State(), bytes[nr..]) == Written(c, bytes)
      {
        assert bytes[nr..][1..] == bytes[nr + 1..];
        WriteByte(bytes[nr]);
        nr := nr + 1;
      }
      nr := nr + 1;
    }
  }

  predicate Moves(ch: byte) {
    || ch == Code('G') || ch == Code('`') || ch == Code('A') || ch == Code('B') || ch == Code('e') || ch == Code('C')
    || ch == Code('a') || ch == Code('D') || ch == Code('E') || ch == Code('F') || ch == Code('d') || ch == Code('H')
    || ch == Code('f')
  }

  lemma ArgsThere(c: Con)
    requires Valid(c)
    ensures |c.args| == ARG_NR
  {}

  lemma ArgValid(c: Con, ch: byte)
    requires Valid(c)
    ensures Valid(ArgTaken(c, ch)) && Valid(ArgTaken(c, ch).(state := Nor))
  {}

  // ------------------------------------------------ memory part way through a loop

  // insert_line: the rows from `from` on have moved down.
  function Down(was: Mem, from: int): (m: Mem)
    requires |was| == MEM_BYTES && from >= ROW_SIZE
    ensures |m| == |was|
  {
    seq(|was|, k requires 0 <= k < |was| => if from <= k < MEM_END then was[k - ROW_SIZE] else was[k])
  }

  lemma DownNone(was: Mem)
    requires |was| == MEM_BYTES
    ensures Down(was, MEM_END) == was
  {}

  lemma DownNext(was: Mem, from: int)
    requires |was| == MEM_BYTES && 2 * ROW_SIZE <= from <= MEM_END
    ensures Copied(Down(was, from), from - ROW_SIZE, from - 2 * ROW_SIZE, ROW_SIZE) == Down(was, from - ROW_SIZE)
  {}

  lemma DownAll(was: Mem, start: int, style: byte)
    requires |was| == MEM_BYTES && 0 <= start <= MEM_END - ROW_SIZE
    ensures Erased(Down(was, start + ROW_SIZE), start, WIDTH, style) == LineInserted(was, start, style)
  {}

  // delete_line: the rows it gathers before `limit` are done.
  function Gathered(was: Mem, start: int, limit: int): (m: Mem)
    requires |was| == MEM_BYTES && 0 <= start
    ensures |m| == |was|
  {
    seq(|was|, k requires 0 <= k < |was| => if Gathers(start, k) && k < limit then was[k + ROW_SIZE] else was[k])
  }

  lemma GatherNone(was: Mem, start: int)
    requires |was| == MEM_BYTES && 0 <= start
    ensures Gathered(was, start, start + ROW_SIZE) == was
  {}

  lemma GatherNext(was: Mem, start: int, src: int)
    requires |was| == MEM_BYTES && 0 <= start && start % ROW_SIZE == 0
    requires start + 2 * ROW_SIZE <= src < MEM_END && (src - start) % (2 * ROW_SIZE) == 0
    ensures src + ROW_SIZE <= MEM_END
    ensures Copied(Gathered(was, start, src - ROW_SIZE), src - ROW_SIZE, src, ROW_SIZE) ==
      Gathered(was, start, src + ROW_SIZE)
  {
    var i := (src - start) / (2 * ROW_SIZE);
    var a := Copied(Gathered(was, start, src - ROW_SIZE), src - ROW_SIZE, src, ROW_SIZE);
    var b := Gathered(was, start, src + ROW_SIZE);
    forall k | 0 <= k < |was| ensures a[k] == b[k] {
      if src - ROW_SIZE <= k < src {
        assert (k - start) / ROW_SIZE == 2 * i - 1;
      } else if src <= k < src + ROW_SIZE {
        assert (k - start) / ROW_SIZE == 2 * i;
      }
    }
  }

  lemma GatherAll(was: Mem, start: int, limit: int, style: byte)
    requires |was| == MEM_BYTES && 0 <= start && limit >= MEM_END - ROW_SIZE
    ensures Erased(Gathered(was, start, limit), MEM_END - ROW_SIZE, WIDTH, style) == LineDeleted(was, start, style)
  {}

  // delete_char: the cells before ptr have moved left.
  function Left(was: Mem, pos: int, ptr: int): (m: Mem)
    requires |was| == MEM_BYTES && 0 <= pos && ptr + 2 <= MEM_BYTES
    ensures |m| == |was|
  {
    seq(|was|, k requires 0 <= k < |was| => if pos <= k < ptr then was[k + 2] else was[k])
  }

  lemma LeftNext(was: Mem, pos: int, ptr: int)
    requires |was| == MEM_BYTES && 0 <= pos <= ptr && ptr + 4 <= MEM_BYTES
    ensures var m := Left(was, pos, ptr);
      m[ptr := m[ptr + 2]][ptr + 1 := m[ptr := m[ptr + 2]][ptr + 3]] == Left(was, pos, ptr + 2)
  {}

  lemma LeftAll(was: Mem, pos: int, n: nat, style: byte)
    requires |was| == MEM_BYTES && 0 <= pos && pos + 2 * n + 2 <= MEM_BYTES
    ensures Left(was, pos, pos + 2 * n)[pos + 2 * n := SPACE][pos + 2 * n + 1 := style] ==
      CharDeleted(was, pos, n, style)
  {}

  // insert_char: the cells from ptr to end have moved right.
  function Right(was: Mem, ptr: int, end: int): (m: Mem)
    requires |was| == MEM_BYTES && 2 <= ptr
    ensures |m| == |was|
  {
    seq(|was|, k requires 0 <= k < |was| => if ptr <= k < end then was[k - 2] else was[k])
  }

  lemma RightNone(was: Mem, end: int)
    requires |was| == MEM_BYTES && 2 <= end
    ensures Right(was, end, end) == was
  {}

  lemma RightNext(was: Mem, ptr: int, end: int)
    requires |was| == MEM_BYTES && 2 <= ptr <= end - 2 <= MEM_BYTES - 2
    ensures var m := Right(was, ptr + 2, end);
      m[ptr := m[ptr - 2]][ptr + 1 := m[ptr := m[ptr - 2]][ptr - 1]] == Right(was, ptr, end)
  {}

  lemma RightAll(was: Mem, pos: int, n: nat)
    requires |was| == MEM_BYTES && 0 <= pos && pos + 2 * n + 2 <= MEM_BYTES
    ensures Right(was, pos + 2, pos + 2 * n + 2)[pos := SPACE] == CharInserted(was, pos, n)
  {}
}
