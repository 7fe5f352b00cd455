// The console: video memory, cursor and escape-sequence state, and what each byte written
// does to them in src/kernel/console.c. Addresses count from mem_base.
module Terminal {

  const MEM_BYTES := 0x4000        // the card's memory
  const MEM_END := 16320           // mem_size: 102 whole rows
  const WIDTH := 80
  const HEIGHT := 25
  const ROW_SIZE := 160
  const SCR_SIZE := 4000
  const TOP_ROW := 76              // the last row the screen can start on
  const ARG_NR := 16
  const U32 := 0x1_0000_0000
  const STYLE := 7
  const BOLD := 0x0F
  const BLINK := 0x80
  const SPACE := 0x20

  type byte = b: int | 0 <= b < 256
  type Mem = seq<byte>

  datatype State = Nor | Esc | Que | Arg | Csi

  // eraseStyle is the upper byte of erase; its lower byte is always a space.
  datatype Con = Con(mem: Mem, screen: int, pos: int, x: nat, y: nat, savedX: nat, savedY: nat,
                     state: State, args: seq<nat>, argc: nat, style: byte, eraseStyle: byte)

  // The cursor is where x and y say, the screen starts on a row, and its page is in memory.
  predicate Valid(c: Con) {
    && |c.mem| == MEM_BYTES && |c.args| == ARG_NR && c.argc <= ARG_NR
    && c.screen % ROW_SIZE == 0 && 0 <= c.screen <= TOP_ROW * ROW_SIZE
    && c.x <= WIDTH && c.y < HEIGHT && c.pos == c.screen + c.y * ROW_SIZE + 2 * c.x
  }

  // ------------------------------------------------------ memory operations

  // erase_screen: count blank cells from start on.
  function Erased(mem: Mem, start: int, count: nat, style: byte): (m: Mem)
    ensures |m| == |mem|
    ensures forall k :: 0 <= k < |mem| ==>
      m[k] == if start <= k < start + 2 * count then (if (k - start) % 2 == 0 then SPACE else style) else mem[k]
  {
    seq(|mem|, k requires 0 <= k < |mem| =>
      if start <= k < start + 2 * count then (if (k - start) % 2 == 0 then SPACE else style) else mem[k])
  }

  // memcpy of n bytes that do not overlap
  function Copied(mem: Mem, dest: nat, src: nat, n: nat): (m: Mem)
    requires src + n <= |mem|
    ensures |m| == |mem|
    ensures forall k :: 0 <= k < |mem| ==> m[k] == if dest <= k < dest + n then mem[src + k - dest] else mem[k]
  {
    seq(|mem|, k requires 0 <= k < |mem| => if dest <= k < dest + n then mem[src + k - dest] else mem[k])
  }

  // insert_line: every row from start on moves down one, to the end of memory.
  function LineInserted(mem: Mem, start: int, style: byte): (m: Mem)
    requires 0 <= start && |mem| >= MEM_END
    ensures |m| == |mem|
    ensures forall k :: 0 <= k < |mem| && start + ROW_SIZE <= k < MEM_END ==> m[k] == mem[k - ROW_SIZE]
    ensures forall k :: 0 <= k < |mem| && start <= k < start + ROW_SIZE ==>
      m[k] == if (k - start) % 2 == 0 then SPACE else style
    ensures forall k :: 0 <= k < |mem| && (k < start || (k >= start + ROW_SIZE && k >= MEM_END)) ==> m[k] == mem[k]
  {
    seq(|mem|, k requires 0 <= k < |mem| =>
      if start + ROW_SIZE <= k < MEM_END then mem[k - ROW_SIZE]
      else if start <= k < start + ROW_SIZE then (if (k - start) % 2 == 0 then SPACE else style) else mem[k])
  }

  // delete_line: its pointer counts in 16-bit cells, so it goes by two rows at a time: every
  // second row behind start is replaced by the one below it.
  function Gathers(start: int, k: int): bool {
    start + ROW_SIZE <= k < MEM_END - ROW_SIZE && (k - start) / ROW_SIZE % 2 == 1
  }

  function LineDeleted(mem: Mem, start: int, style: byte): (m: Mem)
    requires 0 <= start && |mem| >= MEM_END
    ensures |m| == |mem|
  {
    Erased(seq(|mem|, k requires 0 <= k < |mem| => if Gathers(start, k) then mem[k + ROW_SIZE] else mem[k]),
           MEM_END - ROW_SIZE, WIDTH, style)
  }

  // delete_char at pos, with n cells of the row behind it.
  function CharDeleted(mem: Mem, pos: int, n: nat, style: byte): (m: Mem)
    requires 0 <= pos && pos + 2 * n + 2 <= |mem|
    ensures |m| == |mem|
  {
    seq(|mem|, k requires 0 <= k < |mem| =>
      if pos <= k < pos + 2 * n then mem[k + 2]
      else if k == pos + 2 * n then SPACE else if k == pos + 2 * n + 1 then style else mem[k])
  }

  // insert_char: the cells behind move right, and only the character byte at pos is blanked.
  function CharInserted(mem: Mem, pos: int, n: nat): (m: Mem)
    requires 0 <= pos && pos + 2 * n + 2 <= |mem|
    ensures |m| == |mem|
  {
    seq(|mem|, k requires 0 <= k < |mem| =>
      if k == pos then SPACE else if pos + 2 <= k < pos + 2 * n + 2 then mem[k - 2] else mem[k])
  }

  // ------------------------------------------------------------- the cursor

  function SetXy(c: Con, x: nat, y: nat): Con {
    if x > WIDTH || y >= HEIGHT then c
    else c.(x := x, y := y, pos := c.screen + y * ROW_SIZE + 2 * x)
  }

  // scroll_up: at the end of memory the page first moves to its beginning.
  predicate Rebases(c: Con) {
    c.screen + SCR_SIZE + ROW_SIZE >= MEM_END
  }

  function Rebased(c: Con): Con
    requires Valid(c)
  {
    if Rebases(c) then c.(mem := Copied(c.mem, 0, c.screen, SCR_SIZE), pos := c.pos - c.screen, screen := 0) else c
  }

  function ScrollUp(c: Con): Con
    requires Valid(c)
  {
    var d := Rebased(c);
    d.(mem := Erased(d.mem, d.screen + SCR_SIZE, WIDTH, d.eraseStyle),
       screen := d.screen + ROW_SIZE, pos := d.pos + ROW_SIZE)
  }

  function Lf(c: Con): Con
    requires Valid(c)
  {
    if c.y + 1 < HEIGHT then c.(y := c.y + 1, pos := c.pos + ROW_SIZE) else ScrollUp(c)
  }

  function Cr(c: Con): Con {
    c.(pos := c.pos - 2 * c.x, x := 0)
  }

  // Past the right margin: on to the next line.
  function Wrapped(c: Con): Con
    requires WIDTH <= c.x && Valid(c.(x := c.x - WIDTH, pos := c.pos - ROW_SIZE))
  {
    Lf(c.(x := c.x - WIDTH, pos := c.pos - ROW_SIZE))
  }

  function Tab(c: Con): Con
    requires Valid(c)
  {
    var offset := 8 - c.x % 8;
    var d := c.(x := c.x + offset, pos := c.pos + 2 * offset);
    if d.x >= WIDTH then Wrapped(d) else d
  }

  function Bs(c: Con): Con {
    if c.x == 0 then c
    else c.(x := c.x - 1, pos := c.pos - 2, mem := Erased(c.mem, c.pos - 2, 1, c.eraseStyle))
  }

  function Del(c: Con): Con {
    c.(mem := Erased(c.mem, c.pos, 1, c.eraseStyle))
  }

  // chr behind its test
  function Typed(c: Con, ch: byte): Con
    requires 0 <= c.pos && c.pos + 1 < |c.mem|
  {
    c.(mem := c.mem[c.pos := ch][c.pos + 1 := c.style], pos := c.pos + 2, x := c.x + 1)
  }

  function Chr(c: Con, ch: byte): Con
    requires Valid(c)
  {
    WrapKeeps(c);
    Typed(if c.x >= WIDTH then Wrapped(c) else c, ch)
  }

  // ------------------------------------------------------- what these keep

  lemma ScrollUpKeeps(c: Con)
    requires Valid(c)
    ensures Valid(ScrollUp(c)) && ScrollUp(c).y == c.y && ScrollUp(c).x == c.x && ScrollUp(c).style == c.style
  {}

  lemma LfKeeps(c: Con)
    requires Valid(c)
    ensures Valid(Lf(c)) && Lf(c).x == c.x && Lf(c).style == c.style
  {
    ScrollUpKeeps(c);
    hide ScrollUp;
  }

  lemma WrapKeeps(c: Con)
    requires Valid(c)
    ensures c.x >= WIDTH ==>
      Valid(c.(x := c.x - WIDTH, pos := c.pos - ROW_SIZE)) && Valid(Wrapped(c)) && Wrapped(c).x == 0
    ensures c.x >= WIDTH ==> Wrapped(c).style == c.style
  {
    if c.x >= WIDTH {
      LfKeeps(c.(x := c.x - WIDTH, pos := c.pos - ROW_SIZE));
    }
  }

  // ------------------------------------------------------ escape sequences

  function Normal(c: Con, ch: byte): Con
    requires Valid(c)
  {
    if ch == 0x00 || ch == 0x07 then c              // NUL; BEL only beeps
    else if ch == 0x08 then Bs(c)
    else if ch == 0x09 then Tab(c)
    else if ch == 0x0A then Cr(Lf(c))
    else if ch == 0x0B || ch == 0x0C then Lf(c)
    else if ch == 0x0D then Cr(c)
    else if ch == 0x7F then Del(c)
    else if ch == 0x1B then c.(state := Esc)
    else Chr(c, ch)
  }

  function Code(ch: char): nat {
    ch as nat
  }

  function Saved(c: Con): Con {
    c.(savedX := c.x, savedY := c.y)
  }

  // state_esc: only '[' leaves the state.
  function Escape(c: Con, ch: byte): Con
    requires Valid(c)
  {
    if ch == Code('[') then c.(state := Que)
    else if ch == Code('E') then Cr(Lf(c))
    else if ch == Code('D') then Lf(c)
    else if ch == Code('7') then Saved(c)
    else if ch == Code('8') then SetXy(c, c.savedX, c.savedY)
    else c
  }

  // state_arg, when it stays in its state; with all 16 arguments taken it never leaves it.
  predicate EndsArgs(c: Con, ch: byte) {
    c.argc < ARG_NR && ch != Code(';') && !(Code('0') <= ch <= Code('9'))
  }

  function ArgTaken(c: Con, ch: byte): Con
    requires Valid(c)
  {
    if c.argc >= ARG_NR then c
    else if ch == Code(';') then c.(argc := c.argc + 1)
    else if Code('0') <= ch <= Code('9') then c.(args := c.args[c.argc := (c.args[c.argc] * 10 + ch - 48) % U32])
    else c.(argc := c.argc + 1, state := Csi)
  }

  // An argument counted from 1, and one that is at least 1.
  function Less1(a: nat): nat { if a > 0 then a - 1 else 0 }
  function Atleast1(a: nat): nat { if a == 0 then 1 else a }

  // How often csi_L, csi_M, csi_P and csi_at repeat.
  function Times(a: nat, limit: nat): nat { if a > limit then limit else Atleast1(a) }

  function CsiJ(c: Con): Con
    requires Valid(c)
  {
    if c.args[0] == 0 then c.(mem := Erased(c.mem, c.pos, (c.screen + SCR_SIZE - c.pos) / 2, c.eraseStyle))
    else if c.args[0] == 1 then c.(mem := Erased(c.mem, c.screen, (c.pos - c.screen) / 2, c.eraseStyle))
    else if c.args[0] == 2 then c.(mem := Erased(c.mem, c.screen, SCR_SIZE / 2, c.eraseStyle))
    else c
  }

  function CsiK(c: Con): Con
    requires Valid(c)
  {
    if c.args[0] == 0 then c.(mem := Erased(c.mem, c.pos, WIDTH - c.x, c.eraseStyle))
    else if c.args[0] == 1 then c.(mem := Erased(c.mem, c.pos - 2 * c.x, c.x, c.eraseStyle))
    else if c.args[0] == 2 then c.(mem := Erased(c.mem, c.pos - 2 * c.x, WIDTH, c.eraseStyle))
    else c
  }

  function RowStart(c: Con): int {
    c.screen + c.y * ROW_SIZE
  }

  // The cells of the cursor's row behind it.
  function Behind(c: Con): nat {
    if c.x < WIDTH then WIDTH - 1 - c.x else 0
  }

  function LinesInserted(c: Con, n: nat): Con
    requires Valid(c)
    ensures Valid(LinesInserted(c, n)) && RowStart(LinesInserted(c, n)) == RowStart(c)
  {
    if n == 0 then c else var d := LinesInserted(c, n - 1); d.(mem := LineInserted(d.mem, RowStart(c), c.eraseStyle))
  }

  function LinesDeleted(c: Con, n: nat): Con
    requires Valid(c)
    ensures Valid(LinesDeleted(c, n)) && RowStart(LinesDeleted(c, n)) == RowStart(c)
  {
    if n == 0 then c else var d := LinesDeleted(c, n - 1); d.(mem := LineDeleted(d.mem, RowStart(c), c.eraseStyle))
  }

  function CharsDeleted(c: Con, n: nat): (d: Con)
    requires Valid(c)
    ensures Valid(d) && d == c.(mem := d.mem)
  {
    if n == 0 then c else var d := CharsDeleted(c, n - 1); d.(mem := CharDeleted(d.mem, c.pos, Behind(c), c.eraseStyle))
  }

  function CharsInserted(c: Con, n: nat): (d: Con)
    requires Valid(c)
    ensures Valid(d) && d == c.(mem := d.mem)
  {
    if n == 0 then c else var d := CharsInserted(c, n - 1); d.(mem := CharInserted(d.mem, c.pos, Behind(c)))
  }

  // csi_m: the 8-bit style after one argument.
  function Styled(style: byte, a: nat): byte {
    if a == 0 then STYLE
    else if a == 1 then BOLD
    else if a == BLINK then (if style < 128 then style + 128 else style)
    else if a == 7 then style / 16 + style % 16 * 16
    else if 30 <= a <= 37 then style / 8 * 8 + (a - 30)
    else if 40 <= a <= 47 then style / 128 * 128 + style % 16 + (a - 40) * 16
    else style
  }

  function StyleAfter(args: seq<nat>, n: nat): byte
    requires n <= |args|
  {
    if n == 0 then 0 else Styled(StyleAfter(args, n - 1), args[n - 1])
  }

  function CsiM(c: Con): Con
    requires Valid(c)
  {
    var style := StyleAfter(c.args, c.argc);
    c.(style := style, eraseStyle := style)
  }

  function Sub32(a: nat, b: nat): nat {
    (a - b) % U32
  }

  function Add32(a: nat, b: nat): nat {
    (a + b) % U32
  }

  // state_csi, from the normal state it goes back to.
  function Sequence(c: Con, ch: byte): Con
    requires Valid(c)
  {
    var a := c.args[0];
    var n := Atleast1(a);
    if ch == Code('G') || ch == Code('`') then SetXy(c.(args := c.args[0 := Less1(a)]), Less1(a), c.y)
    else if ch == Code('A') then SetXy(c.(args := c.args[0 := n]), c.x, Sub32(c.y, n))
    else if ch == Code('B') || ch == Code('e') then SetXy(c.(args := c.args[0 := n]), c.x, Add32(c.y, n))
    else if ch == Code('C') || ch == Code('a') then SetXy(c.(args := c.args[0 := n]), Add32(c.x, n), c.y)
    else if ch == Code('D') then SetXy(c.(args := c.args[0 := n]), Sub32(c.x, n), c.y)
    else if ch == Code('E') then SetXy(c.(args := c.args[0 := n]), 0, Add32(c.y, n))
    else if ch == Code('F') then SetXy(c.(args := c.args[0 := n]), 0, Sub32(c.y, n))
    else if ch == Code('d') then SetXy(c.(args := c.args[0 := Less1(a)]), c.x, Less1(a))
    else if ch == Code('H') || ch == Code('f') then
      SetXy(c.(args := c.args[0 := Less1(a)][1 := Less1(c.args[1])]), Less1(c.args[1]), Less1(a))
    else if ch == Code('J') then CsiJ(c)
    else if ch == Code('K') then CsiK(c)
    else if ch == Code('L') then LinesInserted(c, Times(a, HEIGHT))
    else if ch == Code('M') then LinesDeleted(c, Times(a, HEIGHT))
    else if ch == Code('P') then CharsDeleted(c, Times(a, WIDTH))
    else if ch == Code('@') then CharsInserted(c, Times(a, WIDTH))
    else if ch == Code('m') then CsiM(c)
    else if ch == Code('s') then SetXy(Saved(c), c.x, c.y)
    else if ch == Code('u') then SetXy(c, c.savedX, c.savedY)
    else c
  }

  function Argument(c: Con, ch: byte): Con
    requires Valid(c)
  {
    var d := ArgTaken(c, ch);
    if EndsArgs(c, ch) then Sequence(d.(state := Nor), ch) else d
  }

  function NoArgs(c: Con): Con {
    c.(args := seq(ARG_NR, i => 0), argc := 0, state := Arg)
  }

  // One byte through console_write.
  function Step(c: Con, ch: byte): Con
    requires Valid(c)
  {
    match c.state
    case Nor => Normal(c, ch)
    case Esc => Escape(c, ch)
    case Que => if ch == Code('?') then NoArgs(c) else Argument(NoArgs(c), ch)
    case Arg => Argument(c, ch)
    case Csi => Sequence(c.(state := Nor), ch)
  }

  // --------------------------------------------------------- every byte keeps it

  lemma NormalKeeps(c: Con, ch: byte)
    requires Valid(c)
    ensures Valid(Normal(c, ch))
  {
    hide Lf, Wrapped, ScrollUp, Tab, Erased;
    LfKeeps(c);
    WrapKeeps(c);
    if ch == 0x09 {
      TabKeeps(c);
    }
  }

  lemma TabKeeps(c: Con)
    requires Valid(c)
    ensures Valid(Tab(c))
  {
    var offset := 8 - c.x % 8;
    var d := c.(x := c.x + offset, pos := c.pos + 2 * offset);
    if d.x >= WIDTH {
      LfKeeps(d.(x := d.x - WIDTH, pos := d.pos - ROW_SIZE));
    }
  }

  lemma EscapeKeeps(c: Con, ch: byte)
    requires Valid(c)
    ensures Valid(Escape(c, ch))
  {
    LfKeeps(c);
    hide Lf;
  }

  lemma EraseKeeps(c: Con)
    requires Valid(c)
    ensures Valid(CsiJ(c)) && Valid(CsiK(c)) && Valid(CsiM(c))
  {
    hide Erased, StyleAfter;
  }

  lemma SequenceKeeps(c: Con, ch: byte)
    requires Valid(c)
    ensures Valid(Sequence(c, ch))
  {
    hide LinesInserted, LinesDeleted, CharsDeleted, CharsInserted, StyleAfter, Sub32, Add32, Erased, CsiJ, CsiK, CsiM;
    EraseKeeps(c);
  }

  lemma ArgumentKeeps(c: Con, ch: byte)
    requires Valid(c)
    ensures Valid(Argument(c, ch))
  {
    SequenceKeeps(ArgTaken(c, ch).(state := Nor), ch);
    hide Sequence;
  }

  lemma StepKeeps(c: Con, ch: byte)
    requires Valid(c)
    ensures Valid(Step(c, ch))
  {
    NormalKeeps(c, ch);
    EscapeKeeps(c, ch);
    ArgumentKeeps(NoArgs(c), ch);
    ArgumentKeeps(c, ch);
    SequenceKeeps(c.(state := Nor), ch);
    hide Normal, Escape, Argument, Sequence;
  }

  function Written(c: Con, bytes: seq<byte>): Con
    requires Valid(c)
    decreases |bytes|
  {
    if bytes == [] then c
    else StepKeeps(c, bytes[0]); Written(Step(c, bytes[0]), bytes[1..])
  }

  // console_init, with console_clear.
  function Cleared(mem: Mem): Con {
    Con(Erased(mem, 0, MEM_END / 2, STYLE), 0, 0, 0, 0, 0, 0, Nor, seq(ARG_NR, i => 0), 0, STYLE, STYLE)
  }

  // Whatever bytes are written, the cursor stays on the page and the page in memory.
  lemma {:induction false} WrittenKeeps(c: Con, bytes: seq<byte>)
    requires Valid(c)
    ensures Valid(Written(c, bytes))
    decreases |bytes|
  {
    hide Valid, Step;
    if bytes != [] {
      StepKeeps(c, bytes[0]);
      WrittenKeeps(Step(c, bytes[0]), bytes[1..]);
    }
  }

  // ------------------------------------------------------------- the page

  // Cell byte k of row i of what is on the screen.
  function Shown(c: Con, i: nat, k: nat): byte
    requires Valid(c) && i < HEIGHT && k < ROW_SIZE
  {
    c.mem[c.screen + i * ROW_SIZE + k]
  }

  // scroll_up moves the page up one row and blanks the last, whether or not it rebases.
  lemma ScrollShows(c: Con, i: nat, k: nat)
    requires Valid(c) && i < HEIGHT && k < ROW_SIZE
    ensures Valid(ScrollUp(c))
    ensures Shown(ScrollUp(c), i, k) ==
      if i < HEIGHT - 1 then Shown(c, i + 1, k) else if k % 2 == 0 then SPACE else c.eraseStyle
  {
    RebasedShows(c, i + 1, k);
  }

  lemma RebasedShows(c: Con, i: nat, k: nat)
    requires Valid(c) && k < ROW_SIZE
    ensures Valid(Rebased(c)) && Rebased(c).screen < TOP_ROW * ROW_SIZE
    ensures i < HEIGHT ==> Shown(Rebased(c), i, k) == Shown(c, i, k)
  {}

  lemma InsertedOnce(c: Con, i: nat, k: nat)
    requires Valid(c) && i < HEIGHT && k < ROW_SIZE
    ensures var d := c.(mem := LineInserted(c.mem, RowStart(c), c.eraseStyle));
      Valid(d) && Shown(d, i, k) ==
        if i < c.y then Shown(c, i, k)
        else if i > c.y then Shown(c, i - 1, k)
        else if k % 2 == 0 then SPACE else c.eraseStyle
  {}

  // csi_L: on the page the rows from the cursor's on move down n, and blank ones are in their place.
  lemma {:induction false} InsertedLinesShow(c: Con, n: nat, i: nat, k: nat)
    requires Valid(c) && i < HEIGHT && k < ROW_SIZE
    ensures Shown(LinesInserted(c, n), i, k) ==
      if i < c.y then Shown(c, i, k)
      else if i >= c.y + n then Shown(c, i - n, k)
      else if k % 2 == 0 then SPACE else c.eraseStyle
    decreases n
  {
    hide LineInserted, Valid, Shown;
    if n > 0 {
      LinesInsertedOnly(c, n - 1);
      InsertedOnce(LinesInserted(c, n - 1), i, k);
      InsertedLinesShow(c, n - 1, if i > c.y then i - 1 else i, k);
      if i < c.y {
        InsertedLinesShow(c, n - 1, i, k);
      }
    }
  }

  lemma {:induction false} LinesInsertedOnly(c: Con, n: nat)
    requires Valid(c)
    ensures LinesInserted(c, n) == c.(mem := LinesInserted(c, n).mem)
  {
    hide LineInserted, Valid;
    if n > 0 {
      LinesInsertedOnly(c, n - 1);
    }
  }

  // Byte k of row i of memory, counted from the top of the page; behind the end of memory all is blank.
  function RowByte(c: Con, i: nat, k: nat): byte
    requires Valid(c) && k < ROW_SIZE
  {
    if c.screen + i * ROW_SIZE < MEM_END then c.mem[c.screen + i * ROW_SIZE + k]
    else if k % 2 == 0 then SPACE else c.eraseStyle
  }

  predicate LastRow(c: Con, i: nat) {
    c.screen + (i + 1) * ROW_SIZE == MEM_END
  }

  predicate OddBelow(c: Con, i: nat) {
    i > c.y && (i - c.y) % 2 == 1
  }

  // The row that n times delete_line leaves in the place of row i: every second row behind the
  // cursor's is replaced by the one below, which is the last of memory only the first time.
  function LeftAt(c: Con, i: nat, n: nat): nat {
    if n == 0 then i
    else if LastRow(c, i) then i + 1
    else if OddBelow(c, i) then (if LastRow(c, i + 1) && n > 1 then i + 2 else i + 1)
    else i
  }

  lemma DeletedOnce(c: Con, i: nat, k: nat)
    requires Valid(c) && k < ROW_SIZE && c.screen + i * ROW_SIZE < MEM_END
    ensures var d := c.(mem := LineDeleted(c.mem, RowStart(c), c.eraseStyle));
      Valid(d) && RowByte(d, i, k) == RowByte(c, if LastRow(c, i) || OddBelow(c, i) then i + 1 else i, k)
  {
    var a := c.screen + i * ROW_SIZE + k;
    assert i >= c.y ==> (a - RowStart(c)) / ROW_SIZE == i - c.y;
  }

  // There is a row below, or this is the last of memory.
  lemma NextRow(c: Con, i: nat)
    requires Valid(c) && c.screen + i * ROW_SIZE < MEM_END
    ensures LastRow(c, i) || c.screen + (i + 1) * ROW_SIZE < MEM_END
  {}

  lemma BehindTheEnd(c: Con, d: Con, i: nat, k: nat)
    requires Valid(c) && Valid(d) && d == c.(mem := d.mem) && k < ROW_SIZE && LastRow(c, i)
    ensures RowByte(d, i + 1, k) == RowByte(c, i + 1, k)
  {}

  lemma {:induction false} DeletedLinesStay(c: Con, n: nat, i: nat, k: nat)
    requires Valid(c) && k < ROW_SIZE && c.screen + i * ROW_SIZE < MEM_END
    ensures RowByte(LinesDeleted(c, n), i, k) == RowByte(c, LeftAt(c, i, n), k)
    decreases n
  {
    hide LineDeleted, Valid, RowByte;
    if n > 0 {
      var d := LinesDeleted(c, n - 1);
      LinesDeletedOnly(c, n - 1);
      DeletedOnce(d, i, k);
      NextRow(c, i);
      if LastRow(c, i) {
        BehindTheEnd(c, d, i, k);
      } else if OddBelow(c, i) {
        DeletedLinesStay(c, n - 1, i + 1, k);
      } else {
        DeletedLinesStay(c, n - 1, i, k);
      }
    }
  }

  lemma {:induction false} LinesDeletedOnly(c: Con, n: nat)
    requires Valid(c)
    ensures LinesDeleted(c, n) == c.(mem := LinesDeleted(c, n).mem)
  {
    hide LineDeleted, Valid;
    if n > 0 {
      LinesDeletedOnly(c, n - 1);
    }
  }

  // What deleting n rows from the cursor's on should show: they go, and the rows below move up.
  ghost predicate ShowsDeleted(c: Con, n: nat, d: Con)
    requires Valid(c) && Valid(d)
  {
    forall i: nat, k: nat :: i < HEIGHT && k < ROW_SIZE ==>
      Shown(d, i, k) == if i < c.y then Shown(c, i, k) else RowByte(c, i + n, k)
  }

  ghost predicate Alike(c: Con, i: nat, j: nat)
    requires Valid(c)
  {
    forall k: nat :: k < ROW_SIZE ==> RowByte(c, i, k) == RowByte(c, j, k)
  }

  // csi_M deletes n rows just when, from the cursor's row on, what is left in the place of a
  // row was like the n-th row below that.
  lemma DeletedLinesIff(c: Con, n: nat)
    requires Valid(c)
    ensures ShowsDeleted(c, n, LinesDeleted(c, n)) <==>
      forall i: nat :: c.y <= i < HEIGHT ==> Alike(c, LeftAt(c, i, n), i + n)
  {
    var d := LinesDeleted(c, n);
    LinesDeletedOnly(c, n);
    forall i: nat, k: nat | i < HEIGHT && k < ROW_SIZE
      ensures Shown(d, i, k) == RowByte(c, LeftAt(c, i, n), k) && (i < c.y ==> LeftAt(c, i, n) == i)
    {
      DeletedLinesStay(c, n, i, k);
    }
    assert forall i: nat, k: nat :: i < HEIGHT && k < ROW_SIZE ==> Shown(c, i, k) == RowByte(c, i, k);
    hide LinesDeleted, Shown, RowByte, LeftAt;
    if ShowsDeleted(c, n, d) {
      forall i: nat | c.y <= i < HEIGHT ensures Alike(c, LeftAt(c, i, n), i + n) {
        forall k: nat | k < ROW_SIZE ensures RowByte(c, LeftAt(c, i, n), k) == RowByte(c, i + n, k) {
          assert Shown(d, i, k) == RowByte(c, LeftAt(c, i, n), k);
        }
      }
    }
    if forall i: nat :: c.y <= i < HEIGHT ==> Alike(c, LeftAt(c, i, n), i + n) {
      forall i: nat, k: nat | i < HEIGHT && k < ROW_SIZE
        ensures Shown(d, i, k) == if i < c.y then Shown(c, i, k) else RowByte(c, i + n, k)
      {
        assert i >= c.y ==> Alike(c, LeftAt(c, i, n), i + n);
      }
    }
  }

  // The page ends above the last row of memory.
  lemma PageAbove(c: Con, i: nat)
    requires Valid(c) && i < HEIGHT
    ensures !LastRow(c, i)
  {}

  // For one row: the cursor's row, and every second one below it, was like the next.
  lemma DeletedLineIff(c: Con)
    requires Valid(c)
    ensures ShowsDeleted(c, 1, LinesDeleted(c, 1)) <==>
      forall i: nat :: c.y <= i < HEIGHT && !OddBelow(c, i) ==> Alike(c, i, i + 1)
  {
    hide LinesDeleted, RowByte, Valid, ShowsDeleted;
    DeletedLinesIff(c, 1);
    forall i: nat | c.y <= i < HEIGHT ensures LeftAt(c, i, 1) == if OddBelow(c, i) then i + 1 else i {
      PageAbove(c, i);
    }
    hide LeftAt, OddBelow;
    if forall i: nat :: c.y <= i < HEIGHT ==> Alike(c, LeftAt(c, i, 1), i + 1) {
      forall i: nat | c.y <= i < HEIGHT && !OddBelow(c, i) ensures Alike(c, i, i + 1) {
        assert Alike(c, LeftAt(c, i, 1), i + 1);
      }
    }
  }

  // "a" and ESC [ M on an empty screen: the row is still there.
  lemma DeletedLineSeen(mem: Mem)
    requires |mem| == MEM_BYTES
    ensures var c := Written(Cleared(mem), [0x61, 0x1B, 0x5B, 0x4D]);
      Valid(c) && c.state == Nor && Shown(c, 0, 0) == 0x61
  {
    var c := Cleared(mem);
    var d := Typed(c, 0x61);
    assert Step(c, 0x61) == d && Valid(d);
    assert Step(d, 0x1B) == d.(state := Esc);
    assert Step(d.(state := Esc), 0x5B) == d.(state := Que);
    var e := NoArgs(d).(argc := 1, state := Nor);
    assert ArgTaken(NoArgs(d), 0x4D).(state := Nor) == e;
    assert Step(d.(state := Que), 0x4D) == Sequence(e, 0x4D) == LinesDeleted(e, 1);
    DeletedLinesStay(e, 1, 0, 0);
    var bytes: seq<byte> := [0x61, 0x1B, 0x5B, 0x4D];
    hide Step, LinesDeleted, Typed;
    assert bytes[1..] == [0x1B, 0x5B, 0x4D] && bytes[2..] == [0x5B, 0x4D] && bytes[3..] == [0x4D] && bytes[4..] == [];
    assert bytes[1..][1..] == bytes[2..] && bytes[2..][1..] == bytes[3..] && bytes[3..][1..] == bytes[4..];
    assert Written(d.(state := Que), bytes[3..]) == LinesDeleted(e, 1);
    assert Written(d, bytes[1..]) == Written(d.(state := Esc), bytes[2..]) == Written(d.(state := Que), bytes[3..]);
  }

  // csi_P: on the page n cells go from the cursor's on, and blanks come in at the margin. Past
  // the margin it is the first cell of the next row that becomes blank.
  lemma {:induction false} CharsDeletedShow(c: Con, n: nat, i: nat, k: nat)
    requires Valid(c) && i < HEIGHT && k < ROW_SIZE && n > 0
    ensures Shown(CharsDeleted(c, n), i, k) ==
      if c.x == WIDTH then
        (if i == c.y + 1 && k == 0 then SPACE else if i == c.y + 1 && k == 1 then c.eraseStyle else Shown(c, i, k))
      else if i != c.y || k < 2 * c.x then Shown(c, i, k)
      else if k + 2 * n < ROW_SIZE then Shown(c, i, k + 2 * n)
      else if k % 2 == 0 then SPACE else c.eraseStyle
    decreases n
  {
    hide CharDeleted, Valid, Shown;
    var d := CharsDeleted(c, n - 1);
    CharDeletedShows(d, i, k);
    if n > 1 {
      CharsDeletedShow(c, n - 1, i, k);
      if k + 2 < ROW_SIZE {
        CharsDeletedShow(c, n - 1, i, k + 2);
      }
    }
  }

  lemma CharDeletedShows(c: Con, i: nat, k: nat)
    requires Valid(c) && i < HEIGHT && k < ROW_SIZE
    ensures var d := c.(mem := CharDeleted(c.mem, c.pos, Behind(c), c.eraseStyle));
      Valid(d) && Shown(d, i, k) ==
        if c.x == WIDTH then
          (if i == c.y + 1 && k == 0 then SPACE else if i == c.y + 1 && k == 1 then c.eraseStyle else Shown(c, i, k))
        else if i != c.y || k < 2 * c.x then Shown(c, i, k)
        else if k + 2 < ROW_SIZE then Shown(c, i, k + 2)
        else if k % 2 == 0 then SPACE else c.eraseStyle
  {
    PageCell(c, i, k);
    var a := c.screen + i * ROW_SIZE + k;
    assert i == c.y ==> a == c.pos - 2 * c.x + k;
  }

  // csi_at: the cells from the cursor on move right by n; the n cells in their place are blank, in
  // the style that the cursor's had. Past the margin only the first character of the next row is
  // blanked.
  lemma {:induction false} CharsInsertedShow(c: Con, n: nat, i: nat, k: nat)
    requires Valid(c) && i < HEIGHT && k < ROW_SIZE && n > 0
    ensures Shown(CharsInserted(c, n), i, k) ==
      if c.x == WIDTH then (if i == c.y + 1 && k == 0 then SPACE else Shown(c, i, k))
      else if i != c.y || k < 2 * c.x then Shown(c, i, k)
      else if k >= 2 * c.x + 2 * n then Shown(c, i, k - 2 * n)
      else if k % 2 == 0 then SPACE else Shown(c, i, 2 * c.x + 1)
    decreases n
  {
    hide CharInserted, Shown;
    var d := CharsInserted(c, n - 1);
    CharInsertedShows(d, i, k);
    if n > 1 {
      CharsInsertedShow(c, n - 1, i, k);
      if k >= 2 {
        CharsInsertedShow(c, n - 1, i, k - 2);
      }
    }
  }

  lemma CharInsertedShows(c: Con, i: nat, k: nat)
    requires Valid(c) && i < HEIGHT && k < ROW_SIZE
    ensures var d := c.(mem := CharInserted(c.mem, c.pos, Behind(c)));
      Valid(d) && Shown(d, i, k) ==
        if c.x == WIDTH then (if i == c.y + 1 && k == 0 then SPACE else Shown(c, i, k))
        else if i != c.y || k < 2 * c.x then Shown(c, i, k)
        else if k == 2 * c.x then SPACE
        else if k == 2 * c.x + 1 then Shown(c, i, k) else Shown(c, i, k - 2)
  {
    PageCell(c, i, k);
    var a := c.screen + i * ROW_SIZE + k;
    assert i == c.y ==> a == c.pos - 2 * c.x + k;
  }

  // The cursor's cell or one behind it, in reading order.
  predicate AtOrBehind(c: Con, i: nat, k: nat) {
    i > c.y || (i == c.y && k >= 2 * c.x)
  }

  // csi_J blanks the page from the cursor on, up to the cursor, or all of it.
  lemma ClearedShows(c: Con, i: nat, k: nat)
    requires Valid(c) && i < HEIGHT && k < ROW_SIZE
    ensures Valid(CsiJ(c))
    ensures Shown(CsiJ(c), i, k) ==
      if (c.args[0] == 0 && AtOrBehind(c, i, k)) || (c.args[0] == 1 && !AtOrBehind(c, i, k)) || c.args[0] == 2
      then (if k % 2 == 0 then SPACE else c.eraseStyle) else Shown(c, i, k)
  {
    PageCell(c, i, k);
  }

  // csi_K does the same within the cursor's row.
  lemma ClearedRowShows(c: Con, i: nat, k: nat)
    requires Valid(c) && i < HEIGHT && k < ROW_SIZE
    ensures Valid(CsiK(c))
    ensures Shown(CsiK(c), i, k) ==
      if i == c.y && ((c.args[0] == 0 && k >= 2 * c.x) || (c.args[0] == 1 && k < 2 * c.x) || c.args[0] == 2)
      then (if k % 2 == 0 then SPACE else c.eraseStyle) else Shown(c, i, k)
  {
    PageCell(c, i, k);
  }

  // Addresses compare as places on the page do.
  lemma PageCell(c: Con, i: nat, k: nat)
    requires Valid(c) && i < HEIGHT && k < ROW_SIZE
    ensures var a := c.screen + i * ROW_SIZE + k;
      && c.screen <= a < c.screen + SCR_SIZE
      && (a >= c.pos <==> AtOrBehind(c, i, k))
      && (i == c.y <==> c.pos - 2 * c.x <= a < c.pos - 2 * c.x + ROW_SIZE)
      && (a - c.screen) % 2 == k % 2 && (a - c.pos) % 2 == k % 2
  {
    var a := c.screen + i * ROW_SIZE + k;
    assert a - c.screen == 2 * (WIDTH * i) + k && a - c.pos == 2 * (WIDTH * (i - c.y) - c.x) + k;
    SameParity(WIDTH * i, k);
    SameParity(WIDTH * (i - c.y) - c.x, k);
  }

  lemma SameParity(m: int, k: nat)
    ensures (2 * m + k) % 2 == k % 2
  {}

  // Characters stay within the page: chr changes the cursor's cell, after a scroll if need be, and no other.
  lemma ChrShows(c: Con, ch: byte, i: nat, k: nat)
    requires Valid(c) && i < HEIGHT && k < ROW_SIZE
    ensures var d := if c.x >= WIDTH then Wrapped(c) else c;
      && Valid(d) && d.x < WIDTH && Valid(Chr(c, ch))
      && Shown(Chr(c, ch), i, k) ==
         (if i == d.y && k == 2 * d.x then ch else if i == d.y && k == 2 * d.x + 1 then c.style else Shown(d, i, k))
  {
    hide Lf, Typed, Shown;
    WrapKeeps(c);
    var d := if c.x >= WIDTH then Wrapped(c) else c;
    hide Wrapped;
    TypedShows(d, ch, i, k);
  }

  lemma TypedShows(c: Con, ch: byte, i: nat, k: nat)
    requires Valid(c) && c.x < WIDTH && i < HEIGHT && k < ROW_SIZE
    ensures Valid(Typed(c, ch))
    ensures Shown(Typed(c, ch), i, k) ==
      if i == c.y && k == 2 * c.x then ch else if i == c.y && k == 2 * c.x + 1 then c.style else Shown(c, i, k)
  {
    AtCursor(c, i, k);
  }

  // The cursor's cell, by address and by place.
  lemma AtCursor(c: Con, i: nat, k: nat)
    requires Valid(c) && c.x < WIDTH && i < HEIGHT && k < ROW_SIZE
    ensures c.screen + i * ROW_SIZE + k == c.pos <==> i == c.y && k == 2 * c.x
    ensures c.screen + i * ROW_SIZE + k == c.pos + 1 <==> i == c.y && k == 2 * c.x + 1
  {}

  // Sixteen arguments stop the console for good: no byte written after that does anything.
  lemma {:induction false} StuckForever(c: Con, bytes: seq<byte>)
    requires Valid(c) && c.state == Arg && c.argc == ARG_NR
    ensures Written(c, bytes) == c
    decreases |bytes|
  {
    if bytes != [] {
      StuckForever(c, bytes[1..]);
    }
  }

  // The console gets back to its normal state after some bytes just when it is not stuck.
  lemma StuckIff(c: Con)
    requires Valid(c)
    ensures (exists bytes: seq<byte> :: Written(c, bytes).state == Nor) <==> !(c.state == Arg && c.argc == ARG_NR)
  {
    if c.state == Arg && c.argc == ARG_NR {
      forall bytes: seq<byte> ensures Written(c, bytes).state != Nor {
        StuckForever(c, bytes);
      }
    } else {
      BackToNormal(c);
    }
  }

  // A final byte that no sequence knows.
  const OTHER: byte := 0x7A

  lemma BackToNormal(c: Con)
    requires Valid(c) && !(c.state == Arg && c.argc == ARG_NR)
    ensures exists bytes: seq<byte> :: Written(c, bytes).state == Nor
  {
    if c.state == Nor {
      assert Written(c, []) == c;
    } else if c.state == Esc {
      var d := c.(state := Que);
      assert Step(c, 0x5B) == d;
      LastByte(d);
      assert [0x5B as byte, OTHER][1..] == [OTHER];
      assert Written(c, [0x5B, OTHER]).state == Nor;
    } else {
      LastByte(c);
    }
  }

  lemma OtherDoesNothing(c: Con)
    requires Valid(c)
    ensures Sequence(c, OTHER) == c
  {
    hide SetXy, LinesInserted, LinesDeleted, CharsDeleted, CharsInserted, CsiJ, CsiK, CsiM;
  }

  lemma LastByte(c: Con)
    requires Valid(c) && (c.state == Que || c.state == Csi || (c.state == Arg && c.argc < ARG_NR))
    ensures Written(c, [OTHER]).state == Nor
  {
    var d := if c.state == Que then NoArgs(c) else c;
    OtherDoesNothing(c.(state := Nor));
    OtherDoesNothing(ArgTaken(d, OTHER).(state := Nor));
    hide Sequence;
    StepKeeps(c, OTHER);
    assert Step(c, OTHER).state == Nor;
    hide Step;
    assert Written(Step(c, OTHER), [OTHER][1..]) == Step(c, OTHER);
  }

  // The input that stops it: ESC [ and sixteen semicolons.
  lemma SixteenStop(mem: Mem)
    requires |mem| == MEM_BYTES
    ensures var c := Written(Cleared(mem), [0x1B, 0x5B] + seq(ARG_NR, i => 0x3B));
      c.state == Arg && c.argc == ARG_NR
  {
    var c := Cleared(mem);
    var tail: seq<byte> := seq(ARG_NR, i => 0x3B);
    var d := c.(state := Que);
    assert Step(c, 0x1B) == c.(state := Esc) && Step(c.(state := Esc), 0x5B) == d;
    var bytes: seq<byte> := [0x1B, 0x5B] + tail;
    assert bytes[1..] == [0x5B] + tail && bytes[1..][1..] == tail;
    assert Written(c, bytes) == Written(c.(state := Esc), bytes[1..]) == Written(d, tail);
    assert Step(d, 0x3B) == NoArgs(d).(argc := 1);
    assert tail[0] == 0x3B && tail[1..] == seq(ARG_NR - 1, i => 0x3B);
    Semicolons(Step(d, 0x3B), ARG_NR - 1);
  }

  lemma {:induction false} Semicolons(c: Con, n: nat)
    requires Valid(c) && c.state == Arg && c.argc + n <= ARG_NR
    ensures Written(c, seq(n, i => 0x3B)) == c.(argc := c.argc + n)
    decreases n
  {
    if n > 0 {
      var bytes: seq<byte> := seq(n, i => 0x3B);
      assert bytes[1..] == seq(n - 1, i => 0x3B);
      assert Step(c, 0x3B) == c.(argc := c.argc + 1);
      Semicolons(Step(c, 0x3B), n - 1);
    }
  }

  // ESC alone does not return to the normal state either: the console stays in it through all
  // the bytes just when none of them is '['.
  lemma {:induction false} EscapeStays(c: Con, bytes: seq<byte>)
    requires Valid(c) && c.state == Esc
    ensures (forall n: nat :: n <= |bytes| ==> Written(c, bytes[..n]).state == Esc) <==> Code('[') !in bytes
    decreases |bytes|
  {
    if bytes != [] {
      var d := Step(c, bytes[0]);
      EscapeStep(c, bytes[0]);
      StepKeeps(c, bytes[0]);
      assert bytes == [bytes[0]] + bytes[1..];
      hide Step, Valid;
      forall n: nat | 0 < n <= |bytes| ensures Written(c, bytes[..n]) == Written(d, bytes[1..][..n - 1]) {
        assert bytes[..n][0] == bytes[0] && bytes[..n][1..] == bytes[1..][..n - 1];
      }
      if bytes[0] == Code('[') {
        assert Written(c, bytes[..1]) == Written(d, bytes[1..][..0]) == d;
      } else {
        EscapeStays(d, bytes[1..]);
        assert Written(c, bytes[..0]) == c;
        forall n: nat | n <= |bytes[1..]| ensures Written(d, bytes[1..][..n]) == Written(c, bytes[..n + 1]) {}
      }
    }
  }

  lemma EscapeStep(c: Con, ch: byte)
    requires Valid(c) && c.state == Esc
    ensures Step(c, ch).state == if ch == Code('[') then Que else Esc
  {
    LfState(c);
  }

  // So text behind ESC and a letter is not shown: "ESC E" and then any text without '['.
  lemma EscapeSwallows(mem: Mem, text: seq<byte>)
    requires |mem| == MEM_BYTES && Code('[') !in text
    ensures Written(Cleared(mem), [0x1B] + text).state == Esc
  {
    var c := Cleared(mem);
    var bytes: seq<byte> := [0x1B] + text;
    assert bytes[1..] == text;
    assert Step(c, 0x1B) == c.(state := Esc);
    EscapeStays(c.(state := Esc), text);
    assert text[..|text|] == text;
  }

  lemma LfState(c: Con)
    requires Valid(c)
    ensures Lf(c).state == c.state
  {}
}
