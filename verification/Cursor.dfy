// Where the cursor goes, what numbers and colours a sequence is given, and what comes of them:
// src/kernel/console.c against the plain meaning of each control byte and final byte.
module Cursor {
  import opened Terminal

  // ------------------------------------------------------------- control bytes

  function Down(y: nat): nat {
    if y + 1 < HEIGHT then y + 1 else y
  }

  // Column and row after byte ch of plain text.
  function Where(ch: byte, x: nat, y: nat): (nat, nat) {
    if ch == 0x00 || ch == 0x07 || ch == 0x7F || ch == 0x1B then (x, y)
    else if ch == 0x08 then (Less1(x), y)
    else if ch == 0x09 then
      var stop := (x / 8 + 1) * 8;
      if stop < WIDTH then (stop, y) else (stop - WIDTH, Down(y))
    else if ch == 0x0A then (0, Down(y))
    else if ch == 0x0B || ch == 0x0C then (x, Down(y))
    else if ch == 0x0D then (0, y)
    else if x < WIDTH then (x + 1, y)
    else (x - WIDTH + 1, Down(y))
  }

  lemma LfWhere(c: Con)
    requires Valid(c)
    ensures Lf(c).x == c.x && Lf(c).y == Down(c.y)
  {}

  lemma NormalGoes(c: Con, ch: byte)
    requires Valid(c)
    ensures (Normal(c, ch).x, Normal(c, ch).y) == Where(ch, c.x, c.y)
  {
    hide ScrollUp, Erased;
    LfWhere(c);
    if c.x >= WIDTH {
      WrapKeeps(c);
      LfWhere(c.(x := c.x - WIDTH, pos := c.pos - ROW_SIZE));
    }
    if ch == 0x09 {
      TabGoes(c);
    }
    hide Lf;
  }

  lemma TabGoes(c: Con)
    requires Valid(c)
    ensures (Tab(c).x, Tab(c).y) == Where(0x09, c.x, c.y)
  {
    hide ScrollUp;
    var offset := 8 - c.x % 8;
    var d := c.(x := c.x + offset, pos := c.pos + 2 * offset);
    assert d.x == (c.x / 8 + 1) * 8;
    if d.x >= WIDTH {
      LfWhere(d.(x := d.x - WIDTH, pos := d.pos - ROW_SIZE));
    }
    hide Lf;
  }

  // Going down scrolls the page just when the cursor is in its last row.
  lemma LfShows(c: Con, i: nat, k: nat)
    requires Valid(c) && i < HEIGHT && k < ROW_SIZE
    ensures Valid(Lf(c))
    ensures Shown(Lf(c), i, k) ==
      if c.y + 1 < HEIGHT then Shown(c, i, k)
      else if i < HEIGHT - 1 then Shown(c, i + 1, k) else if k % 2 == 0 then SPACE else c.eraseStyle
  {
    ScrollShows(c, i, k);
    hide ScrollUp;
  }

  // A backspace blanks the cell it goes back to, DEL the cursor's.
  lemma EraseShows(c: Con, i: nat, k: nat)
    requires Valid(c) && i < HEIGHT && k < ROW_SIZE
    ensures Valid(Bs(c)) && Valid(Del(c))
    ensures Shown(Bs(c), i, k) ==
      if c.x > 0 && i == c.y && (k == 2 * c.x - 2 || k == 2 * c.x - 1) then (if k % 2 == 0 then SPACE else c.eraseStyle)
      else Shown(c, i, k)
    ensures c.x < WIDTH ==>
      Shown(Del(c), i, k) ==
      if i == c.y && (k == 2 * c.x || k == 2 * c.x + 1) then (if k % 2 == 0 then SPACE else c.eraseStyle)
      else Shown(c, i, k)
  {
    PageCell(c, i, k);
    var a := c.screen + i * ROW_SIZE + k;
    assert i == c.y ==> a == c.pos - 2 * c.x + k;
    assert i < c.y ==> a < c.pos - 2 * c.x && i > c.y ==> a >= c.pos - 2 * c.x + ROW_SIZE;
  }

  // ------------------------------------------------------------- cursor sequences

  predicate Moves(ch: byte) {
    ch == Code('A') || ch == Code('B') || ch == Code('C') || ch == Code('D') || ch == Code('E') || ch == Code('F')
    || ch == Code('G') || ch == Code('`') || ch == Code('a') || ch == Code('d') || ch == Code('e') || ch == Code('f')
    || ch == Code('H')
  }

  // Where final byte ch asks for, by its first two arguments; rows and columns count from 0 here.
  function Target(ch: byte, x: nat, y: nat, a: nat, b: nat): (int, int)
    requires Moves(ch)
  {
    var n := if a == 0 then 1 else a;
    if ch == Code('A') then (x, y - n)                                     // up
    else if ch == Code('B') || ch == Code('e') then (x, y + n)             // down
    else if ch == Code('C') || ch == Code('a') then (x + n, y)             // forward
    else if ch == Code('D') then (x - n, y)                                // back
    else if ch == Code('E') then (0, y + n)                                // down, to the first column
    else if ch == Code('F') then (0, y - n)                                // up, to the first column
    else if ch == Code('G') || ch == Code('`') then (n - 1, y)             // to column n
    else if ch == Code('d') then (x, n - 1)                                // to row n
    else ((if b == 0 then 1 else b) - 1, n - 1)                            // to row n and column b
  }

  predicate OnScreen(p: (int, int)) {
    0 <= p.0 <= WIDTH && 0 <= p.1 < HEIGHT
  }

  // A target that is not on the screen leaves the cursor where it is.
  function Landing(p: (int, int), x: nat, y: nat): (int, int) {
    if OnScreen(p) then p else (x, y)
  }

  // Sums of 32 bits that wrap can bring a far target back onto the screen.
  predicate Wraps(p: (int, int)) {
    p.0 >= U32 || p.1 >= U32 || p.0 < WIDTH + 1 - U32 || p.1 < HEIGHT - U32
  }

  lemma MoveWraps(c: Con, ch: byte)
    requires Valid(c) && Moves(ch) && c.args[0] < U32 && c.args[1] < U32
    ensures var p, d := Target(ch, c.x, c.y, c.args[0], c.args[1]), Sequence(c, ch);
      (d.x, d.y) == Landing((p.0 % U32, p.1 % U32), c.x, c.y)
  {
    var p := Target(ch, c.x, c.y, c.args[0], c.args[1]);
    MoveSets(c, ch);
    hide Sequence, Target, Moves;
    assert p.0 % U32 >= 0 && p.1 % U32 >= 0;
  }

  // Every one of them ends in set_xy, with 32-bit sums.
  lemma MoveSets(c: Con, ch: byte)
    requires Valid(c) && Moves(ch) && c.args[0] < U32 && c.args[1] < U32
    ensures var p, d := Target(ch, c.x, c.y, c.args[0], c.args[1]), Sequence(c, ch);
      var e := SetXy(c, p.0 % U32, p.1 % U32);
      d.x == e.x && d.y == e.y
  {
    hide Sequence, Target, SetXy, Valid;
    if ch == Code('A') || ch == Code('B') || ch == Code('e') {
      RowMoves(c, ch);
    } else if ch == Code('C') || ch == Code('a') || ch == Code('D') {
      ColumnMoves(c, ch);
    } else if ch == Code('E') || ch == Code('F') {
      LineMoves(c, ch);
    } else {
      PlaceMoves(c, ch);
    }
  }

  lemma RowMoves(c: Con, ch: byte)
    requires Valid(c) && c.args[0] < U32 && c.args[1] < U32 && (ch == Code('A') || ch == Code('B') || ch == Code('e'))
    ensures var p, d := Target(ch, c.x, c.y, c.args[0], c.args[1]), Sequence(c, ch);
      var e := SetXy(c, p.0 % U32, p.1 % U32);
      d.x == e.x && d.y == e.y
  {
    var p := Target(ch, c.x, c.y, c.args[0], c.args[1]);
    hide LinesInserted, LinesDeleted, CharsDeleted, CharsInserted, CsiJ, CsiK, CsiM, Saved, SetXy;
    SmallMod(p.0);
    SetAnyArgs(c, c.args[0 := Atleast1(c.args[0])], p.0 % U32, p.1 % U32);
  }

  lemma ColumnMoves(c: Con, ch: byte)
    requires Valid(c) && c.args[0] < U32 && c.args[1] < U32 && (ch == Code('C') || ch == Code('a') || ch == Code('D'))
    ensures var p, d := Target(ch, c.x, c.y, c.args[0], c.args[1]), Sequence(c, ch);
      var e := SetXy(c, p.0 % U32, p.1 % U32);
      d.x == e.x && d.y == e.y
  {
    var p := Target(ch, c.x, c.y, c.args[0], c.args[1]);
    hide LinesInserted, LinesDeleted, CharsDeleted, CharsInserted, CsiJ, CsiK, CsiM, Saved, SetXy;
    SmallMod(p.1);
    SetAnyArgs(c, c.args[0 := Atleast1(c.args[0])], p.0 % U32, p.1 % U32);
  }

  lemma LineMoves(c: Con, ch: byte)
    requires Valid(c) && c.args[0] < U32 && c.args[1] < U32 && (ch == Code('E') || ch == Code('F'))
    ensures var p, d := Target(ch, c.x, c.y, c.args[0], c.args[1]), Sequence(c, ch);
      var e := SetXy(c, p.0 % U32, p.1 % U32);
      d.x == e.x && d.y == e.y
  {
    var p := Target(ch, c.x, c.y, c.args[0], c.args[1]);
    hide LinesInserted, LinesDeleted, CharsDeleted, CharsInserted, CsiJ, CsiK, CsiM, Saved, SetXy;
    SmallMod(p.0);
    SetAnyArgs(c, c.args[0 := Atleast1(c.args[0])], p.0 % U32, p.1 % U32);
  }

  lemma PlaceMoves(c: Con, ch: byte)
    requires Valid(c) && c.args[0] < U32 && c.args[1] < U32
    requires ch == Code('G') || ch == Code('`') || ch == Code('d') || ch == Code('H') || ch == Code('f')
    ensures var p, d := Target(ch, c.x, c.y, c.args[0], c.args[1]), Sequence(c, ch);
      var e := SetXy(c, p.0 % U32, p.1 % U32);
      d.x == e.x && d.y == e.y
  {
    var p := Target(ch, c.x, c.y, c.args[0], c.args[1]);
    hide LinesInserted, LinesDeleted, CharsDeleted, CharsInserted, CsiJ, CsiK, CsiM, Saved, SetXy;
    SmallMod(p.0);
    SmallMod(p.1);
    SetAnyArgs(c, c.args[0 := Less1(c.args[0])], p.0 % U32, p.1 % U32);
    SetAnyArgs(c, c.args[0 := Less1(c.args[0])][1 := Less1(c.args[1])], p.0 % U32, p.1 % U32);
  }

  lemma SmallMod(v: int)
    ensures 0 <= v < U32 ==> v % U32 == v
  {}

  lemma SetAnyArgs(c: Con, args: seq<nat>, x: nat, y: nat)
    ensures SetXy(c.(args := args), x, y).x == SetXy(c, x, y).x && SetXy(c.(args := args), x, y).y == SetXy(c, x, y).y
  {}

  lemma TargetBounds(c: Con, ch: byte)
    requires Valid(c) && Moves(ch) && c.args[0] < U32 && c.args[1] < U32
    ensures var p := Target(ch, c.x, c.y, c.args[0], c.args[1]);
      -U32 < p.0 < 2 * U32 - 1 && -U32 < p.1 < 2 * U32 - 1
      && (p.0 >= U32 ==> p.0 - U32 < c.x && p.1 == c.y) && (p.1 >= U32 ==> p.1 - U32 < c.y && (p.0 == c.x || p.0 == 0))
      && (p.0 < 0 ==> p.1 == c.y && p.0 + U32 > c.x) && (p.1 < 0 ==> (p.0 == c.x || p.0 == 0) && p.1 + U32 > c.y)
  {}

  // The cursor goes where the sequence asks for, or nowhere when that is off the screen, just
  // when no sum wraps around onto it.
  lemma MovesIff(c: Con, ch: byte)
    requires Valid(c) && Moves(ch) && c.args[0] < U32 && c.args[1] < U32
    ensures var p, d := Target(ch, c.x, c.y, c.args[0], c.args[1]), Sequence(c, ch);
      (d.x, d.y) == Landing(p, c.x, c.y) <==> !Wraps(p)
  {
    var p := Target(ch, c.x, c.y, c.args[0], c.args[1]);
    MoveWraps(c, ch);
    TargetBounds(c, ch);
    hide Sequence, Target, Moves, Valid;
    WrappedAt(p.0);
    WrappedAt(p.1);
  }

  lemma WrappedAt(v: int)
    requires -U32 < v < 2 * U32
    ensures v % U32 == if v < 0 then v + U32 else if v >= U32 then v - U32 else v
  {}

  // Nothing else changes but the arguments taken.
  lemma MoveOnly(c: Con, ch: byte)
    requires Valid(c) && Moves(ch)
    ensures var d := Sequence(c, ch);
      d == c.(x := d.x, y := d.y, pos := c.screen + d.y * ROW_SIZE + 2 * d.x, args := d.args)
  {
    hide LinesInserted, LinesDeleted, CharsDeleted, CharsInserted, CsiJ, CsiK, CsiM, Saved;
  }

  // Far enough down is up.
  lemma FarDown(c: Con)
    requires Valid(c) && c.y > 0 && c.args[0] == U32 - 1
    ensures Sequence(c, 0x42).y == c.y - 1 && Sequence(c, 0x42).x == c.x
  {
    hide LinesInserted, LinesDeleted, CharsDeleted, CharsInserted, CsiJ, CsiK, CsiM, Saved;
    WrappedAt(c.y + c.args[0]);
  }

  // --------------------------------------------------------------- saved cursor

  predicate SavedOnScreen(c: Con) {
    c.savedX <= WIDTH && c.savedY < HEIGHT
  }

  // ESC 7 and CSI s.
  predicate Saves(c: Con, ch: byte)
    requires Valid(c)
  {
    (c.state == Esc && ch == Code('7')) || (Ends(c, ch) && ch == Code('s'))
  }

  // ESC 8 and CSI u.
  predicate Restores(c: Con, ch: byte)
    requires Valid(c)
  {
    (c.state == Esc && ch == Code('8')) || (Ends(c, ch) && ch == Code('u'))
  }

  // The byte is the final one of a sequence.
  predicate Ends(c: Con, ch: byte)
    requires Valid(c)
  {
    match c.state
    case Nor => false
    case Esc => false
    case Que => ch != Code('?') && EndsArgs(NoArgs(c), ch)
    case Arg => EndsArgs(c, ch)
    case Csi => true
  }

  lemma LfSaves(c: Con)
    requires Valid(c)
    ensures Lf(c).savedX == c.savedX && Lf(c).savedY == c.savedY
  {}

  lemma SequenceSaves(c: Con, ch: byte)
    requires Valid(c)
    ensures var d := Sequence(c, ch);
      (d.savedX, d.savedY) == if ch == Code('s') then (c.x, c.y) else (c.savedX, c.savedY)
  {
    hide Erased, LineInserted, LineDeleted, StyleAfter, Sub32, Add32;
    LinesSaved(c, Times(c.args[0], HEIGHT));
  }

  lemma LinesSaved(c: Con, n: nat)
    requires Valid(c)
    ensures LinesInserted(c, n).savedX == c.savedX && LinesInserted(c, n).savedY == c.savedY
    ensures LinesDeleted(c, n).savedX == c.savedX && LinesDeleted(c, n).savedY == c.savedY
  {
    LinesInsertedOnly(c, n);
    LinesDeletedOnly(c, n);
  }

  lemma NormalSaves(c: Con, ch: byte)
    requires Valid(c)
    ensures Normal(c, ch).savedX == c.savedX && Normal(c, ch).savedY == c.savedY
  {
    hide Erased, ScrollUp;
    LfSaves(c);
    if c.x >= WIDTH {
      WrapKeeps(c);
      LfSaves(c.(x := c.x - WIDTH, pos := c.pos - ROW_SIZE));
    }
    var offset := 8 - c.x % 8;
    var d := c.(x := c.x + offset, pos := c.pos + 2 * offset);
    if d.x >= WIDTH {
      LfSaves(d.(x := d.x - WIDTH, pos := d.pos - ROW_SIZE));
    }
    hide Lf;
  }

  // Only those two save, and what they save is the cursor.
  lemma StepSaves(c: Con, ch: byte)
    requires Valid(c)
    ensures var d := Step(c, ch);
      (d.savedX, d.savedY) == if Saves(c, ch) then (c.x, c.y) else (c.savedX, c.savedY)
  {
    NormalSaves(c, ch);
    LfSaves(c);
    hide Normal, Sequence, Lf;
    SequenceSaves(ArgTaken(NoArgs(c), ch).(state := Nor), ch);
    SequenceSaves(ArgTaken(c, ch).(state := Nor), ch);
    SequenceSaves(c.(state := Nor), ch);
  }

  // And those two bring it back.
  lemma StepRestores(c: Con, ch: byte)
    requires Valid(c) && SavedOnScreen(c) && Restores(c, ch)
    ensures Step(c, ch).x == c.savedX && Step(c, ch).y == c.savedY
  {}

  ghost predicate NoneSaves(c: Con, bytes: seq<byte>)
    requires Valid(c)
    decreases |bytes|
  {
    bytes == [] || (!Saves(c, bytes[0]) && (StepKeeps(c, bytes[0]); NoneSaves(Step(c, bytes[0]), bytes[1..])))
  }

  lemma {:induction false} SavedStays(c: Con, bytes: seq<byte>)
    requires Valid(c) && NoneSaves(c, bytes)
    ensures Valid(Written(c, bytes))
    ensures Written(c, bytes).savedX == c.savedX && Written(c, bytes).savedY == c.savedY
    decreases |bytes|
  {
    hide Valid, Step, Saves;
    if bytes != [] {
      StepKeeps(c, bytes[0]);
      StepSaves(c, bytes[0]);
      SavedStays(Step(c, bytes[0]), bytes[1..]);
    }
  }

  // Whatever is written in between, a restored cursor is where it was saved.
  lemma SaveThenRestore(c: Con, save: byte, bytes: seq<byte>, restore: byte)
    requires Valid(c) && Saves(c, save)
    ensures Valid(Step(c, save))
    ensures NoneSaves(Step(c, save), bytes) ==>
      var d := Written(Step(c, save), bytes);
      Valid(d) && (Restores(d, restore) ==>
        Valid(Step(d, restore)) && Step(d, restore).x == c.x && Step(d, restore).y == c.y)
  {
    StepKeeps(c, save);
    StepSaves(c, save);
    var e := Step(c, save);
    assert c.x <= WIDTH && c.y < HEIGHT;
    hide Valid, Step, Saves;
    if NoneSaves(e, bytes) {
      SavedStays(e, bytes);
      var d := Written(e, bytes);
      if Restores(d, restore) {
        StepKeeps(d, restore);
        StepRestores(d, restore);
      }
    }
  }

  // ------------------------------------------------------------------- arguments

  predicate IsDigit(ch: byte) {
    Code('0') <= ch <= Code('9')
  }

  function Decimal(digits: seq<byte>): nat
    requires forall i :: 0 <= i < |digits| ==> IsDigit(digits[i])
  {
    if digits == [] then 0
    else
      assert IsDigit(digits[|digits| - 1]);
      Decimal(digits[..|digits| - 1]) * 10 + digits[|digits| - 1] as nat - Code('0')
  }

  lemma {:induction false} WrittenAppend(c: Con, bytes: seq<byte>, ch: byte)
    requires Valid(c)
    ensures Valid(Written(c, bytes)) && Written(c, bytes + [ch]) == Step(Written(c, bytes), ch)
    decreases |bytes|
  {
    hide Valid, Step;
    WrittenKeeps(c, bytes);
    if bytes == [] {
      assert bytes + [ch] == [ch] && [ch][1..] == [];
      StepKeeps(c, ch);
    } else {
      assert (bytes + [ch])[0] == bytes[0] && (bytes + [ch])[1..] == bytes[1..] + [ch];
      StepKeeps(c, bytes[0]);
      WrittenAppend(Step(c, bytes[0]), bytes[1..], ch);
    }
  }

  // The digits behind the parameter bytes before them are a number, in 32 bits.
  lemma {:induction false} DigitsAreDecimal(c: Con, digits: seq<byte>)
    requires Valid(c) && c.state == Arg && c.argc < ARG_NR && c.args[c.argc] == 0
    requires forall i :: 0 <= i < |digits| ==> IsDigit(digits[i])
    ensures Written(c, digits) == c.(args := c.args[c.argc := Decimal(digits) % U32])
    decreases |digits|
  {
    if digits != [] {
      var init, ch := digits[..|digits| - 1], digits[|digits| - 1];
      assert digits == init + [ch];
      DigitsAreDecimal(c, init);
      WrittenAppend(c, init, ch);
      var d := Written(c, init);
      DigitStep(d, ch);
      ModDigit(Decimal(init), ch - Code('0'));
    }
  }

  lemma DigitStep(c: Con, ch: byte)
    requires Valid(c) && c.state == Arg && c.argc < ARG_NR && IsDigit(ch)
    ensures Step(c, ch) == c.(args := c.args[c.argc := (c.args[c.argc] * 10 + ch - Code('0')) % U32])
  {}

  lemma ModDigit(v: nat, n: nat)
    ensures (v % U32 * 10 + n) % U32 == (v * 10 + n) % U32
  {
    var q, r := v / U32, v % U32;
    assert v * 10 + n == (r * 10 + n) + 10 * q * U32;
    MultipleMod(r * 10 + n, 10 * q);
  }

  lemma {:induction false} MultipleMod(v: nat, k: nat)
    ensures (v + k * U32) % U32 == v % U32
  {
    if k > 0 {
      MultipleMod(v, k - 1);
      assert v + k * U32 == (v + (k - 1) * U32) + U32;
    }
  }

  // ------------------------------------------------------------ a whole sequence

  lemma {:induction false} WrittenInTwo(c: Con, a: seq<byte>, b: seq<byte>)
    requires Valid(c)
    ensures Valid(Written(c, a)) && Written(c, a + b) == Written(Written(c, a), b)
    decreases |a|
  {
    hide Valid, Step;
    WrittenKeeps(c, a);
    if a == [] {
      assert a + b == b;
    } else {
      StepKeeps(c, a[0]);
      assert (a + b)[0] == a[0] && (a + b)[1..] == a[1..] + b;
      WrittenInTwo(Step(c, a[0]), a[1..], b);
    }
  }

  lemma IntroSteps(c: Con, ch: byte)
    requires Valid(c) && c.state == Nor && ch != Code('?')
    ensures Step(c, 0x1B) == c.(state := Esc) && Step(c.(state := Esc), 0x5B) == c.(state := Que)
    ensures Valid(NoArgs(c)) && Step(c.(state := Que), ch) == Step(NoArgs(c), ch)
  {
    hide Sequence;
    assert NoArgs(c.(state := Que)) == NoArgs(c);
  }

  // ESC and [ clear the arguments, whatever was taken before.
  lemma Introduced(c: Con, rest: seq<byte>)
    requires Valid(c) && c.state == Nor && rest != [] && rest[0] != Code('?')
    ensures Valid(NoArgs(c)) && Written(c, [0x1B, 0x5B] + rest) == Written(NoArgs(c), rest)
  {
    hide Step;
    IntroSteps(c, rest[0]);
    var bytes: seq<byte> := [0x1B, 0x5B];
    assert (bytes + rest)[1..] == [0x5B] + rest && ([0x5B] + rest)[1..] == rest;
    assert Written(c, bytes + rest) == Written(c.(state := Esc), [0x5B] + rest);
  }

  lemma FinalByte(c: Con, ch: byte)
    requires Valid(c) && c.state == Arg && c.argc < ARG_NR && Moves(ch)
    ensures Step(c, ch) == Sequence(c.(argc := c.argc + 1, state := Nor), ch)
  {
    hide Sequence;
  }

  // a ; b and a final byte: the sequence is done with the two numbers as its arguments.
  lemma ArgumentsTaken(e: Con, a: seq<byte>, b: seq<byte>, ch: byte)
    requires Valid(e) && e.state == Arg && e.argc == 0 && e.args[0] == 0 && e.args[1] == 0 && Moves(ch)
    requires (forall i :: 0 <= i < |a| ==> IsDigit(a[i])) && (forall i :: 0 <= i < |b| ==> IsDigit(b[i]))
    ensures var k := e.(args := e.args[0 := Decimal(a) % U32][1 := Decimal(b) % U32], argc := 2, state := Nor);
      Valid(k) && Written(e, a + ([0x3B] + (b + [ch]))) == Sequence(k, ch)
  {
    hide Sequence, Step, Moves, Written, Decimal;
    WrittenInTwo(e, a, [0x3B] + (b + [ch]));
    DigitsAreDecimal(e, a);
    var f := e.(args := e.args[0 := Decimal(a) % U32]);
    Separated(f, b + [ch]);
    var g := f.(argc := 1);
    WrittenInTwo(g, b, [ch]);
    DigitsAreDecimal(g, b);
    var h := g.(args := g.args[1 := Decimal(b) % U32]);
    OneByte(h, ch);
    FinalByte(h, ch);
  }

  // From the normal state ESC [ a ; b and a final byte, with numbers of any length, leave the
  // console in that state and the cursor where the sequence asks for, unless a sum wraps.
  lemma SequenceGoes(c: Con, a: seq<byte>, b: seq<byte>, ch: byte)
    requires Valid(c) && c.state == Nor && Moves(ch)
    requires (forall i :: 0 <= i < |a| ==> IsDigit(a[i])) && (forall i :: 0 <= i < |b| ==> IsDigit(b[i]))
    ensures var d := Written(c, [0x1B, 0x5B] + (a + ([0x3B] + (b + [ch]))));
      var p := Target(ch, c.x, c.y, Decimal(a) % U32, Decimal(b) % U32);
      d.state == Nor && d.mem == c.mem && ((d.x, d.y) == Landing(p, c.x, c.y) <==> !Wraps(p))
  {
    hide Sequence, Step, Moves, Target, Wraps, Landing, Written, Decimal;
    var rest := a + ([0x3B] + (b + [ch]));
    assert rest[0] == if a == [] then 0x3B else a[0];
    Introduced(c, rest);
    var e := NoArgs(c);
    ArgumentsTaken(e, a, b, ch);
    var k := e.(args := e.args[0 := Decimal(a) % U32][1 := Decimal(b) % U32], argc := 2, state := Nor);
    MovesIff(k, ch);
    MoveOnly(k, ch);
  }

  lemma OneByte(c: Con, ch: byte)
    requires Valid(c)
    ensures Written(c, [ch]) == Step(c, ch)
  {
    hide Step, Valid;
    StepKeeps(c, ch);
    assert [ch][1..] == [];
  }

  lemma Separated(c: Con, rest: seq<byte>)
    requires Valid(c) && c.state == Arg && c.argc < ARG_NR
    ensures Valid(c.(argc := c.argc + 1)) && Written(c, [0x3B] + rest) == Written(c.(argc := c.argc + 1), rest)
  {
    assert Step(c, 0x3B) == c.(argc := c.argc + 1);
    assert ([0x3B] + rest)[1..] == rest;
    hide Step;
  }

  // Behind an ESC: E and D go down, 8 back to the saved place, anything else nowhere.
  lemma EscapeGoes(c: Con, ch: byte)
    requires Valid(c) && SavedOnScreen(c)
    ensures (Escape(c, ch).x, Escape(c, ch).y) ==
      if ch == Code('E') then (0, Down(c.y)) else if ch == Code('D') then (c.x, Down(c.y))
      else if ch == Code('8') then (c.savedX, c.savedY) else (c.x, c.y)
  {
    LfWhere(c);
    hide Lf;
  }

  // -------------------------------------------------------------------- colours

  // Bits 0 to 2 are the colour of the text, 3 its brightness, 4 to 6 the background's colour,
  // and 7 makes it blink. Each number sets its own bits ...
  lemma StyleBits(style: byte, a: nat)
    ensures 30 <= a <= 37 ==> Styled(style, a) % 8 == a - 30 && Styled(style, a) / 8 == style / 8
    ensures 40 <= a <= 47 ==> Styled(style, a) % 16 == style % 16 && Styled(style, a) / 16 % 8 == a - 40
                              && Styled(style, a) / 128 == style / 128
    ensures a == BLINK ==> Styled(style, a) / 128 == 1 && Styled(style, a) % 128 == style % 128
  {
    var s := Styled(style, a);
    if 30 <= a <= 37 {
      Quotient8(s, style / 8, a - 30);
    } else if 40 <= a <= 47 {
      BackBits(style, a - 40);
    } else if a == BLINK && style < 128 {
      Quotient128(s, 1, style);
    }
  }

  lemma BackBits(style: byte, k: nat)
    requires k < 8
    ensures var s := style / 128 * 128 + style % 16 + k * 16;
      s % 16 == style % 16 && s / 16 % 8 == k && s / 128 == style / 128
  {
    var s := style / 128 * 128 + style % 16 + k * 16;
    Quotient16(s, style / 128 * 8 + k, style % 16);
    Quotient128(s, style / 128, style % 16 + k * 16);
    Quotient8(style / 128 * 8 + k, style / 128, k);
  }

  lemma Quotient8(v: int, q: int, r: int)
    requires v == q * 8 + r && 0 <= r < 8
    ensures v / 8 == q && v % 8 == r
  {}

  lemma Quotient16(v: int, q: int, r: int)
    requires v == q * 16 + r && 0 <= r < 16
    ensures v / 16 == q && v % 16 == r
  {}

  lemma Quotient128(v: int, q: int, r: int)
    requires v == q * 128 + r && 0 <= r < 128
    ensures v / 128 == q && v % 128 == r
  {}

  // ... 7 exchanges text and background, and 0 and 1 set all of them.
  lemma StyleWhole(style: byte)
    ensures var s := Styled(style, 7); s % 16 == style / 16 && s / 16 == style % 16 && Styled(s, 7) == style
    ensures Styled(style, 0) == 7 && Styled(style, 1) == 15
  {
    Quotient16(Styled(style, 7), style % 16, style / 16);
  }

  // csi_m takes its arguments in order, from no style at all, and blanks get the style from then on.
  lemma {:induction false} StyleAppend(args: seq<nat>, n: nat)
    requires n < |args|
    ensures StyleAfter(args, 0) == 0 && StyleAfter(args, n + 1) == Styled(StyleAfter(args, n), args[n])
  {}
}
