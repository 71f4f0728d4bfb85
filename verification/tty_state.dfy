/** A terminal (clks/kernel/tty.c) on values: the cell grid, the rows that have scrolled off it,
    and the automaton for control sequences (ECMA-48, sections 5.4 and 8.3). */
module TtyState {
  import opened Machine

  const MAX_ROWS: nat := 128
  const MAX_COLS: nat := 256
  const SCROLLBACK: nat := 256
  const MAX_PARAMS: nat := 95
  const MAX_VALUES: nat := 16
  const DEFAULT_FG: nat := 0xE6E6E6
  const DEFAULT_BG: nat := 0x101010
  const ESC: char := 27 as char
  const BACKSPACE: char := 8 as char

  datatype Cell = Cell(ch: char, fg: nat, bg: nat, bold: bool, underline: bool)

  type Row = seq<Cell>

  const BLANK: Cell := Cell(' ', DEFAULT_FG, DEFAULT_BG, false, false)

  function BlankRow(cols: nat): Row {
    seq(cols, _ => BLANK)
  }

  datatype Pen = Pen(fg: nat, bg: nat, bold: bool, underline: bool, inverse: bool)

  const PLAIN: Pen := Pen(DEFAULT_FG, DEFAULT_BG, false, false, false)

  /** `limit` rows of scrollback are kept (256 in the kernel); `rows` counts the rows above the
      status bar; `history` holds the rows that have scrolled off, oldest first; `params` is what
      has been read of a control sequence. */
  datatype State = State(limit: nat, rows: nat, cols: nat, screen: seq<Row>, history: seq<Row>, offset: nat,
                         row: nat, col: nat, pen: Pen, savedRow: nat, savedCol: nat,
                         escape: bool, csi: bool, params: string, blink: bool)

  ghost predicate GridOk(rows: nat, cols: nat, screen: seq<Row>, history: seq<Row>) {
    && |screen| == rows
    && (forall r :: 0 <= r < |screen| ==> |screen[r]| == cols)
    && (forall r :: 0 <= r < |history| ==> |history[r]| == cols)
  }

  /** The cursor is on the screen, and the parameters fit their buffer. */
  ghost predicate Ok(t: State) {
    && 0 < t.rows <= MAX_ROWS && 0 < t.cols <= MAX_COLS
    && GridOk(t.rows, t.cols, t.screen, t.history)
    && t.row < t.rows && t.col < t.cols && |t.params| <= MAX_PARAMS
    && t.offset <= |t.history| <= t.limit && t.limit > 0
  }

  lemma CursorOk(t: State)
    requires Ok(t)
    ensures t.row < t.rows <= MAX_ROWS && t.col < t.cols <= MAX_COLS && |t.screen| == t.rows && |t.screen[t.row]| == t.cols
  {
  }

  ghost predicate Kept(t: State, r: State) {
    Ok(r) && r.rows == t.rows && r.cols == t.cols && r.limit == t.limit
  }

  // ----- the document -----

  /** All rows there are, oldest first. */
  function Document(t: State): seq<Row> {
    t.history + t.screen
  }

  function Last(rows: seq<Row>, n: nat): (r: seq<Row>)
    ensures |r| <= n
  {
    if |rows| <= n then rows else rows[|rows|-n..]
  }

  /** clks_tty_scroll_up */
  function ScrollUp(t: State): (r: State)
    requires Ok(t)
    ensures Kept(t, r) && r == t.(screen := r.screen, history := r.history)
  {
    var pushed := t.history + [t.screen[0]];
    t.(history := Last(pushed, t.limit), screen := t.screen[1..] + [BlankRow(t.cols)])
  }

  // ----- printing -----

  function CellOf(pen: Pen, ch: char): Cell {
    if pen.inverse then Cell(ch, pen.bg, pen.fg, pen.bold, pen.underline)
    else Cell(ch, pen.fg, pen.bg, pen.bold, pen.underline)
  }

  function SetCell(t: State, row: nat, col: nat, c: Cell): (r: State)
    requires Ok(t) && row < t.rows && col < t.cols
    ensures Kept(t, r) && r == t.(screen := r.screen)
  {
    t.(screen := t.screen[row := t.screen[row][col := c]])
  }

  /** The cursor goes to the first column of the next row, which may have to be made. */
  function NewLine(t: State): (r: State)
    requires Ok(t)
    ensures Kept(t, r) && r.col == 0
    ensures r == t.(screen := r.screen, history := r.history, row := r.row, col := r.col)
  {
    if t.row + 1 >= t.rows then ScrollUp(t).(col := 0, row := t.rows - 1) else t.(col := 0, row := t.row + 1)
  }

  function PutVisible(t: State, ch: char): (r: State)
    requires Ok(t)
    ensures Kept(t, r)
    ensures r == t.(screen := r.screen, history := r.history, row := r.row, col := r.col)
  {
    var printed := SetCell(t, t.row, t.col, CellOf(t.pen, ch));
    if t.col + 1 >= t.cols then NewLine(printed) else printed.(col := t.col + 1)
  }

  /** Where a backspace leads: one cell back, also across the start of a row. */
  function Back(t: State): (p: (nat, nat))
    requires Ok(t) && !(t.row == 0 && t.col == 0)
    ensures p.0 < t.rows && p.1 < t.cols && p.0 * t.cols + p.1 + 1 == t.row * t.cols + t.col
  {
    if t.col == 0 then (t.row - 1, t.cols - 1) else (t.row, t.col - 1)
  }

  /** clks_tty_put_char_raw */
  function PutRaw(t: State, ch: char): (r: State)
    requires Ok(t)
    ensures Kept(t, r)
    ensures r == t.(screen := r.screen, history := r.history, row := r.row, col := r.col)
  {
    if ch == '\r' then t.(col := 0)
    else if ch == '\n' then NewLine(t)
    else if ch == BACKSPACE then
      if t.row == 0 && t.col == 0 then t
      else SetCell(t, Back(t).0, Back(t).1, CellOf(t.pen, ' ')).(row := Back(t).0, col := Back(t).1)
    else if ch == '\t' then PutVisible(PutVisible(PutVisible(PutVisible(t, ' '), ' '), ' '), ' ')
    else PutVisible(t, ch)
  }

  // ----- parameters -----

  /** The text between the semicolons. */
  function Parts(s: string): (ps: seq<string>)
    ensures ps != []
  {
    if s == "" then [""]
    else
      var front, last := Parts(s[..|s|-1]), s[|s|-1];
      if last == ';' then front + [""] else front[|front|-1 := front[|front|-1] + [last]]
  }

  lemma PartsStep(s: string, c: char)
    ensures Parts(s + [c]) == if c == ';' then Parts(s) + [""] else Parts(s)[|Parts(s)|-1 := Parts(s)[|Parts(s)|-1] + [c]]
  {
    assert (s + [c])[..|s|] == s;
  }

  predicate IsDigit(c: char) {
    '0' <= c <= '9'
  }

  /** The digits of a part as a number, in 32-bit arithmetic; other characters do not count. */
  function Number(s: string): (n: nat)
    ensures n < U32
  {
    if s == "" then 0
    else
      var n, c := Number(s[..|s|-1]), s[|s|-1];
      if IsDigit(c) then (n * 10 + (c as nat - '0' as nat)) % U32 else n
  }

  lemma NumberNext(s: string, c: char)
    ensures Number(s + [c]) == if IsDigit(c) then (Number(s) * 10 + (c as nat - '0' as nat)) % U32 else Number(s)
  {
    assert (s + [c])[..|s|] == s;
  }

  function Numbers(ps: seq<string>): (vs: seq<nat>)
    ensures |vs| == |ps| && forall i :: 0 <= i < |ps| ==> vs[i] == Number(ps[i]) < U32
  {
    seq(|ps|, i requires 0 <= i < |ps| => Number(ps[i]))
  }

  /** The values of a parameter string: at most 16 of them, and at least one. */
  function Values(s: string): (vs: seq<nat>)
    ensures 0 < |vs| <= MAX_VALUES && forall v :: v in vs ==> v < U32
  {
    var ps := Parts(s);
    Numbers(if |ps| > MAX_VALUES then ps[..MAX_VALUES] else ps)
  }

  /** Missing and zero parameters stand for a default. */
  function Param(vs: seq<nat>, i: nat, default_: nat): nat {
    if i >= |vs| || vs[i] == 0 then default_ else vs[i]
  }

  // ----- colours and styles -----

  const PALETTE: seq<nat> := [
    0x000000, 0xCD3131, 0x0DBC79, 0xE5E510, 0x2472C8, 0xBC3FBC, 0x11A8CD, 0xE5E5E5,
    0x666666, 0xF14C4C, 0x23D18B, 0xF5F543, 0x3B8EEA, 0xD670D6, 0x29B8DB, 0xFFFFFF]

  function Palette(i: nat): nat {
    if i < 16 then PALETTE[i] else DEFAULT_FG
  }

  const STEPS: seq<nat> := [0, 95, 135, 175, 215, 255]

  function Rgb(r: nat, g: nat, b: nat): nat {
    r * 0x1_0000 + g * 0x100 + b
  }

  function Color256(i: nat): nat {
    if i < 16 then Palette(i)
    else if i <= 231 then
      var n := i - 16;
      assert n / 36 <= 5;
      Rgb(STEPS[n / 36], STEPS[n / 6 % 6], STEPS[n % 6])
    else if i <= 255 then
      var gray := 8 + (i - 232) * 10;
      Rgb(gray, gray, gray)
    else DEFAULT_FG
  }

  function Clamp255(v: nat): nat {
    if v > 255 then 255 else v
  }

  function WithColor(pen: Pen, code: nat, color: nat): Pen {
    if code == 38 then pen.(fg := color) else pen.(bg := color)
  }

  /** One graphic rendition code, with the number of values that it takes. */
  function SgrStep(pen: Pen, vs: seq<nat>): (r: (Pen, nat))
    requires vs != []
    ensures 1 <= r.1 <= |vs|
  {
    var code := vs[0];
    if code == 0 then (PLAIN, 1)
    else if code == 1 then (pen.(bold := true), 1)
    else if code == 4 then (pen.(underline := true), 1)
    else if code == 7 then (pen.(inverse := true), 1)
    else if code == 21 || code == 22 then (pen.(bold := false), 1)
    else if code == 24 then (pen.(underline := false), 1)
    else if code == 27 then (pen.(inverse := false), 1)
    else if code == 39 then (pen.(fg := DEFAULT_FG), 1)
    else if code == 49 then (pen.(bg := DEFAULT_BG), 1)
    else if 30 <= code <= 37 then (pen.(fg := Palette(code - 30 + if pen.bold then 8 else 0)), 1)
    else if 90 <= code <= 97 then (pen.(fg := Palette(code - 90 + 8)), 1)
    else if 40 <= code <= 47 then (pen.(bg := Palette(code - 40)), 1)
    else if 100 <= code <= 107 then (pen.(bg := Palette(code - 100 + 8)), 1)
    else if (code == 38 || code == 48) && |vs| > 2 && vs[1] == 5 then (WithColor(pen, code, Color256(vs[2])), 3)
    else if (code == 38 || code == 48) && |vs| > 4 && vs[1] == 2 then
      (WithColor(pen, code, Rgb(Clamp255(vs[2]), Clamp255(vs[3]), Clamp255(vs[4]))), 5)
    else (pen, 1)
  }

  function Sgr(pen: Pen, vs: seq<nat>): Pen
    decreases |vs|
  {
    if vs == [] then pen else Sgr(SgrStep(pen, vs).0, vs[SgrStep(pen, vs).1..])
  }

  // ----- erasing -----

  /** The cells that an erase function covers, in reading order from the cursor. */
  predicate Erased(mode: nat, row: nat, col: nat, r: int, c: int) {
    if mode == 0 then r > row || (r == row && c >= col)
    else if mode == 1 then r < row || (r == row && c <= col)
    else true
  }

  function EraseRow(cells: Row, mode: nat, row: nat, col: nat, r: int): (s: Row)
    ensures |s| == |cells|
    ensures forall c :: 0 <= c < |s| ==> s[c] == if Erased(mode, row, col, r, c) then BLANK else cells[c]
  {
    seq(|cells|, c requires 0 <= c < |cells| => if Erased(mode, row, col, r, c) then BLANK else cells[c])
  }

  /** clks_tty_ansi_clear_line_mode */
  function ClearLine(t: State, mode: nat): (r: State)
    requires Ok(t)
    ensures Kept(t, r) && r == t.(screen := r.screen)
  {
    t.(screen := t.screen[t.row := EraseRow(t.screen[t.row], mode, t.row, t.col, t.row)])
  }

  function EraseScreen(screen: seq<Row>, mode: nat, row: nat, col: nat): (s: seq<Row>)
    ensures |s| == |screen| && forall r :: 0 <= r < |s| ==> s[r] == EraseRow(screen[r], mode, row, col, r)
  {
    seq(|screen|, r requires 0 <= r < |screen| => EraseRow(screen[r], mode, row, col, r))
  }

  /** clks_tty_ansi_clear_screen_mode; mode 3 also forgets the rows that have scrolled off. */
  function ClearScreen(t: State, mode: nat): (r: State)
    requires Ok(t)
    ensures Kept(t, r) && (t.offset == 0 ==> r.offset == 0)
  {
    var s := t.(screen := EraseScreen(t.screen, mode, t.row, t.col));
    if mode == 3 then s.(history := [], offset := 0) else s
  }

  // ----- cursor motion -----

  function Min(a: nat, b: nat): nat {
    if a < b then a else b
  }

  /** Forward motion in 32-bit arithmetic, stopped at `max` unless the sum wraps around. */
  function Forward(at: nat, n: nat, max: nat): (r: nat)
    requires at <= max < U32 && n < U32
    ensures r <= max
  {
    if (at + n) % U32 > max then max else (at + n) % U32
  }

  function Backward(at: nat, n: nat): (r: nat)
    ensures r <= at
  {
    if n > at then 0 else at - n
  }

  /** A one-based position, stopped at the last one of `count`. */
  function Position(v: nat, count: nat): (r: nat)
    requires count > 0
    ensures r < count
  {
    if v > 0 && v - 1 >= count then count - 1 else if v > 0 then v - 1 else 0
  }

  function Restore(t: State): (r: State)
    requires Ok(t)
    ensures Kept(t, r) && r == t.(row := r.row, col := r.col)
  {
    t.(row := Min(t.savedRow, t.rows - 1), col := Min(t.savedCol, t.cols - 1))
  }

  /** clks_tty_ansi_process_csi_final */
  function Csi(t: State, final: char): (r: State)
    requires Ok(t)
    ensures Kept(t, r) && (t.offset == 0 ==> r.offset == 0)
  {
    hide Values, ClearLine, ClearScreen, Control;
    if final == 'J' then ClearScreen(t, Values(t.params)[0])
    else if final == 'K' then ClearLine(t, Values(t.params)[0])
    else Control(t, final)
  }

  /** What the control functions work on that leave the cells alone. */
  datatype Cursor = Cursor(row: nat, col: nat, pen: Pen, savedRow: nat, savedCol: nat, blink: bool)

  function CursorOf(t: State): Cursor {
    Cursor(t.row, t.col, t.pen, t.savedRow, t.savedCol, t.blink)
  }

  function WithCursor(t: State, c: Cursor): State {
    t.(row := c.row, col := c.col, pen := c.pen, savedRow := c.savedRow, savedCol := c.savedCol, blink := c.blink)
  }

  /** The final characters of the cursor motions. */
  predicate IsMotion(final: char) {
    final == 'H' || final == 'f' || 'A' <= final <= 'G' || final == 'd'
  }

  /** Where a motion with parameters `n` and `n2` leads. */
  function Target(row: nat, col: nat, rows: nat, cols: nat, n: nat, n2: nat, final: char): (p: (nat, nat))
    requires row < rows <= MAX_ROWS && col < cols <= MAX_COLS && n < U32 && IsMotion(final)
    ensures p.0 < rows && p.1 < cols
  {
    hide Position, Forward, Backward;
    if final == 'A' then (Backward(row, n), col)
    else if final == 'B' then (Forward(row, n, rows - 1), col)
    else if final == 'C' then (row, Forward(col, n, cols - 1))
    else if final == 'D' then (row, Backward(col, n))
    else if final == 'E' then (Forward(row, n, rows - 1), 0)
    else if final == 'F' then (Backward(row, n), 0)
    else if final == 'G' then (row, Position(n, cols))
    else if final == 'd' then (Position(n, rows), col)
    else (Position(n, rows), Position(n2, cols))
  }

  /** The effect of a control function on a screen of `rows` by `cols`. */
  function Moved(c: Cursor, rows: nat, cols: nat, params: string, final: char): (r: Cursor)
    requires c.row < rows <= MAX_ROWS && c.col < cols <= MAX_COLS
    ensures r.row < rows && r.col < cols
  {
    hide Values, Sgr, Target;
    var vs := Values(params);
    assert forall i :: 0 <= i < |vs| ==> vs[i] in vs;
    var n, n2 := Param(vs, 0, 1), Param(vs, 1, 1);
    if IsMotion(final) then
      var p := Target(c.row, c.col, rows, cols, n, n2, final);
      c.(row := p.0, col := p.1)
    else if final == 'm' then c.(pen := Sgr(c.pen, vs))
    else if final == 's' then c.(savedRow := c.row, savedCol := c.col)
    else if final == 'u' then c.(row := Min(c.savedRow, rows - 1), col := Min(c.savedCol, cols - 1))
    else if (final == 'h' || final == 'l') && params != "" && params[0] == '?' && vs[0] == 25 then c.(blink := final == 'h')
    else c
  }

  function Control(t: State, final: char): (r: State)
    requires Ok(t)
    ensures Kept(t, r)
    ensures r == t.(pen := r.pen, row := r.row, col := r.col, savedRow := r.savedRow, savedCol := r.savedCol, blink := r.blink)
  {
    hide Moved;
    WithCursor(t, Moved(CursorOf(t), t.rows, t.cols, t.params, final))
  }

  // ----- the automaton -----

  function Reset(t: State): State {
    t.(escape := false, csi := false, params := "")
  }

  predicate IsParam(ch: char) {
    IsDigit(ch) || ch == ';' || ch == '?'
  }

  /** clks_tty_ansi_process_byte, and printing where that does not take the byte. */
  function Step(t: State, ch: char): (r: State)
    requires Ok(t)
    ensures Kept(t, r)
  {
    if !t.escape then
      if ch == ESC then t.(escape := true, csi := false, params := "") else PutRaw(t, ch)
    else if !t.csi then
      if ch == '[' then t.(csi := true)
      else if ch == '7' then Reset(t.(savedRow := t.row, savedCol := t.col))
      else if ch == '8' then Reset(Restore(t))
      else Reset(t)
    else if IsParam(ch) then
      if |t.params| < MAX_PARAMS then t.(params := t.params + [ch]) else Reset(t)
    else Reset(Csi(t, ch))
  }

  function Steps(t: State, text: string): (r: State)
    requires Ok(t)
    ensures Kept(t, r)
  {
    if text == "" then t else Step(Steps(t, text[..|text|-1]), text[|text|-1])
  }

  /** clks_tty_write_n: a write shows the screen again before it changes it. */
  function Write(t: State, text: string): (r: State)
    requires Ok(t)
    ensures Kept(t, r)
  {
    if text == "" then t else Steps(t.(offset := 0), text)
  }
}
