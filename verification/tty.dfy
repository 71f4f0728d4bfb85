/** A terminal (clks/kernel/tty.c) with its grid, ring of scrolled rows and parser state updated
    in place. */
module Tty {
  import opened Machine
  import opened TtyState

  class Terminal {
    const rows: nat
    const cols: nat
    const screen: array<Row>
    const ring: array<Row>
    var head: nat
    var count: nat
    var offset: nat
    var row: nat
    var col: nat
    var pen: Pen
    var savedRow: nat
    var savedCol: nat
    var escape: bool
    var csi: bool
    const params: array<char>
    var len: nat
    var blink: bool

    /** The rows that have scrolled off, oldest first. */
    ghost function History(): (h: seq<Row>)
      reads `head, `count, ring
      requires ring.Length == SCROLLBACK && head < SCROLLBACK && count <= SCROLLBACK
      ensures |h| == count
    {
      if count < SCROLLBACK then ring[..count] else ring[head..] + ring[..head]
    }

    ghost predicate Shape()
      reads this, params
    {
      && screen.Length == rows && ring.Length == SCROLLBACK && params.Length == MAX_PARAMS + 1
      && head < SCROLLBACK && count <= SCROLLBACK && (count < SCROLLBACK ==> head == count)
      && len <= MAX_PARAMS && params[len] == 0 as char
    }

    ghost function View(): State
      reads this, screen, ring, params
      requires Shape()
    {
      State(SCROLLBACK, rows, cols, screen[..], History(), offset, row, col, pen, savedRow, savedCol,
            escape, csi, params[..len], blink)
    }

    /** The parameter buffer is terminated, the ring is in step with its counters, and the
        cursor is on the screen. */
    ghost predicate Valid()
      reads this, screen, ring, params
    {
      Shape() && Ok(View())
    }

    /** clks_tty_init for one terminal on a frame buffer of `height` by `width` cells */
    constructor (height: nat, width: nat)
      requires 0 < height <= MAX_ROWS && 0 < width <= MAX_COLS
      ensures Valid() && fresh(screen) && fresh(ring) && fresh(params)
      ensures var content := if height > 1 then height - 1 else height;
              View() == State(SCROLLBACK, content, width, seq(content, _ => BlankRow(width)), [], 0, 0, 0, PLAIN, 0, 0,
                              false, false, "", true)
    {
      var content := if height > 1 then height - 1 else height;
      var blank := BlankRow(width);
      rows, cols := content, width;
      screen := new Row[content](i => blank);
      ring := new Row[SCROLLBACK](i => []);
      params := new char[MAX_PARAMS + 1](i => 0 as char);
      head, count, offset, row, col, pen, savedRow, savedCol := 0, 0, 0, 0, 0, PLAIN, 0, 0;
      escape, csi, len, blink := false, false, 0, true;
      new;
      assert screen[..] == seq(content, _ => BlankRow(width));
    }

    // ----- scrolling -----

    /** clks_tty_scrollback_push_row */
    method PushRow(r: nat)
      requires Shape() && r < rows
      modifies this`head, this`count, ring
      ensures Shape() && History() == Last(old(History()) + [screen[r]], SCROLLBACK)
      ensures count >= old(count)
    {
      ghost var was := History();
      var slot := head;
      ring[slot] := screen[r];
      head := (slot + 1) % SCROLLBACK;
      if count < SCROLLBACK {
        count := count + 1;
      }
      assert History() == Last(was + [screen[r]], SCROLLBACK);
    }

    /** clks_tty_fill_row */
    method FillRow(r: nat)
      requires Shape() && r < rows && |screen[r]| == cols
      modifies screen
      ensures screen[..] == old(screen[..])[r := BlankRow(cols)]
    {
      var c := 0;
      while c < cols
        invariant c <= cols && |screen[r]| == cols && forall k :: 0 <= k < c ==> screen[r][k] == BLANK
        invariant forall k :: 0 <= k < rows && k != r ==> screen[k] == old(screen[k])
      {
        screen[r] := screen[r][c := BLANK];
        c := c + 1;
      }
      assert screen[r] == BlankRow(cols);
    }

    /** The copying loop of clks_tty_scroll_up */
    method ShiftRows()
      requires Shape() && rows > 0
      modifies screen
      ensures screen[..] == old(screen[..])[1..] + [old(screen[rows-1])]
    {
      var r := 1;
      while r < rows
        invariant 1 <= r <= rows
        invariant forall k :: 0 <= k < r - 1 ==> screen[k] == old(screen[..])[k+1]
        invariant forall k :: r - 1 <= k < rows ==> screen[k] == old(screen[..])[k]
      {
        screen[r-1] := screen[r];
        r := r + 1;
      }
      assert screen[..] == old(screen[..])[1..] + [old(screen[rows-1])];
    }

    /** clks_tty_scroll_up */
    method Scroll()
      requires Valid()
      modifies this`head, this`count, ring, screen
      ensures Valid() && View() == ScrollUp(old(View()))
    {
      hide Last, History;
      ghost var t := View();
      PushRow(0);
      ShiftRows();
      FillRow(rows - 1);
      assert screen[..] == t.screen[1..] + [BlankRow(cols)];
      assert View() == ScrollUp(t);
    }

    lemma Moves(t: State, r: nat, c: nat)
      requires Ok(t) && r < t.rows && c < t.cols
      ensures ScrollUp(t.(row := r, col := c)) == ScrollUp(t).(row := r, col := c)
    {
    }

    // ----- printing -----

    /** clks_tty_put_visible */
    method PutCell(r: nat, c: nat, ch: char)
      requires Valid() && r < rows && c < cols
      modifies screen
      ensures Valid() && View() == SetCell(old(View()), r, c, CellOf(pen, ch))
    {
      ghost var t := View();
      var cell := if pen.inverse then Cell(ch, pen.bg, pen.fg, pen.bold, pen.underline)
                  else Cell(ch, pen.fg, pen.bg, pen.bold, pen.underline);
      screen[r] := screen[r][c := cell];
      assert screen[..] == t.screen[r := t.screen[r][c := CellOf(pen, ch)]];
      assert View() == SetCell(t, r, c, CellOf(pen, ch));
    }

    /** The move to a new row, as it stands in clks_tty_put_char_raw twice. */
    method ToNewLine()
      requires Valid()
      modifies this`head, this`count, this`row, this`col, ring, screen
      ensures Valid() && View() == NewLine(old(View()))
    {
      hide TtyState.ScrollUp, GridOk, History;
      ghost var t := View();
      Moves(t, t.row, 0);
      col := 0;
      if row + 1 >= rows {
        Scroll();
        row := rows - 1;
      } else {
        row := row + 1;
      }
    }

    method Print(ch: char)
      requires Valid()
      modifies this`head, this`count, this`row, this`col, ring, screen
      ensures Valid() && View() == PutVisible(old(View()), ch)
    {
      hide NewLine, GridOk, CellOf, SetCell;
      PutCell(row, col, ch);
      if col + 1 >= cols {
        ToNewLine();
      } else {
        col := col + 1;
      }
    }

    /** clks_tty_put_char_raw */
    method PutCharRaw(ch: char)
      requires Valid()
      modifies this`head, this`count, this`row, this`col, ring, screen
      ensures Valid() && View() == PutRaw(old(View()), ch)
    {
      hide NewLine, GridOk, CellOf, SetCell, PutVisible, History;
      if ch == '\r' {
        col := 0;
      } else if ch == '\n' {
        ToNewLine();
      } else if ch == BACKSPACE {
        if col == 0 && row == 0 {
          return;
        }
        var r, c := row, col;
        if c == 0 {
          r := r - 1;
          c := cols - 1;
        } else {
          c := c - 1;
        }
        PutCell(r, c, ' ');
        row, col := r, c;
      } else if ch == '\t' {
        Print(' ');
        Print(' ');
        Print(' ');
        Print(' ');
      } else {
        Print(ch);
      }
    }

    // ----- erasing -----

    /** The column loop that each erase function runs over part of one row. */
    method EraseCells(r: nat, start: nat, end: nat)
      requires Shape() && r < rows && |screen[r]| == cols && start <= cols && end <= cols
      modifies screen
      ensures forall k :: 0 <= k < rows && k != r ==> screen[k] == old(screen[k])
      ensures |screen[r]| == cols
      ensures forall c :: 0 <= c < cols ==> screen[r][c] == if start <= c < end then BLANK else old(screen[r])[c]
    {
      var c := start;
      while c < end
        invariant start <= c && (c <= end || c == start) && |screen[r]| == cols
        invariant forall k :: 0 <= k < rows && k != r ==> screen[k] == old(screen[k])
        invariant forall j :: 0 <= j < cols ==> screen[r][j] == if start <= j < c && j < end then BLANK else old(screen[r])[j]
      {
        screen[r] := screen[r][c := BLANK];
        c := c + 1;
      }
    }

    /** clks_tty_ansi_clear_line_mode */
    method ClearLineMode(mode: nat)
      requires Valid()
      modifies screen
      ensures Valid() && View() == ClearLine(old(View()), mode)
    {
      hide History;
      ghost var t := View();
      assert |t.screen[row]| == cols;
      var start, end := 0, cols;
      if mode == 0 {
        start := col;
      } else if mode == 1 {
        end := col + 1;
      }
      EraseCells(row, start, end);
      assert screen[row] == EraseRow(t.screen[row], mode, row, col, row);
      assert screen[..] == t.screen[row := screen[row]];
      assert View() == ClearLine(t, mode);
    }

    /** The row loops of clks_tty_ansi_clear_screen_mode */
    method EraseRows(mode: nat)
      requires Valid()
      modifies screen
      ensures screen[..] == EraseScreen(old(screen[..]), mode, row, col)
    {
      hide History;
      ghost var was := screen[..];
      var first := if mode == 0 then row else 0;
      var last := if mode == 1 then row + 1 else rows;
      var r := first;
      while r < last
        invariant first <= r <= last
        invariant forall k :: 0 <= k < rows ==> |screen[k]| == cols
        invariant forall k :: 0 <= k < rows ==>
                    screen[k] == if first <= k < r then EraseRow(was[k], mode, row, col, k) else was[k]
      {
        assert screen[r] == was[r];
        var start := if mode == 0 && r == row then col else 0;
        var end := if mode == 1 && r == row then col + 1 else cols;
        EraseCells(r, start, end);
        assert screen[r] == EraseRow(was[r], mode, row, col, r);
        r := r + 1;
      }
      Untouched(was, mode, row, col, first, last);
    }

    /** Rows that the loops do not visit have no cell to erase. */
    lemma Untouched(was: seq<Row>, mode: nat, row: nat, col: nat, first: nat, last: nat)
      requires first == (if mode == 0 then row else 0) && last == (if mode == 1 then row + 1 else |was|) && row < |was|
      ensures forall k :: 0 <= k < |was| && !(first <= k < last) ==> EraseRow(was[k], mode, row, col, k) == was[k]
    {
    }

    /** clks_tty_ansi_clear_screen_mode */
    method ClearScreenMode(mode: nat)
      requires Valid()
      modifies this`head, this`count, this`offset, screen
      ensures Valid() && View() == ClearScreen(old(View()), mode)
    {
      hide EraseScreen, EraseRow;
      ghost var t := View();
      EraseRows(mode);
      if mode == 3 {
        head, count, offset := 0, 0, 0;
      }
      assert View() == ClearScreen(t, mode);
    }

    // ----- control sequences -----

    /** clks_tty_ansi_parse_params on the first `len` characters of the buffer */
    method ParseParams() returns (values: seq<nat>)
      requires Shape()
      ensures values == Values(params[..len])
    {
      hide Parts, Number, Numbers;
      if len == 0 {
        OneEmpty();
        return [0];
      }
      values := [];
      var value, hasDigit := 0, false;
      var i := 0;
      ghost var done: seq<string> := [];
      ghost var part := "";
      NothingRead();
      while i < len
        invariant i <= len && Parts(params[..i]) == done + [part] && value == Number(part)
        invariant values == Folded(done) && (!hasDigit ==> value == 0)
      {
        var ch := params[i];
        PartsNext(params[..i], ch, done, part);
        assert params[..i+1] == params[..i] + [ch];
        NumberNext(part, ch);
        if IsDigit(ch) {
          hasDigit := true;
          value := (value * 10 + (ch as nat - '0' as nat)) % U32;
          part := part + [ch];
        } else if ch == ';' {
          if |values| < MAX_VALUES {
            values := values + [if hasDigit then value else 0];
          }
          done, part := done + [part], "";
          value, hasDigit := 0, false;
        } else {
          part := part + [ch];
        }
        i := i + 1;
      }
      if |values| < MAX_VALUES {
        values := values + [if hasDigit then value else 0];
      }
    }

    /** The values of the first 16 parts. */
    ghost function Folded(ps: seq<string>): seq<nat> {
      Numbers(if |ps| > MAX_VALUES then ps[..MAX_VALUES] else ps)
    }

    lemma OneEmpty()
      ensures Values("") == [0]
    {
    }

    lemma NothingRead()
      ensures Parts("") == [""] && Number("") == 0 && Folded([]) == []
    {
    }

    lemma PartsNext(s: string, c: char, done: seq<string>, part: string)
      requires Parts(s) == done + [part]
      ensures Parts(s + [c]) == if c == ';' then done + [part] + [""] else done + [part + [c]]
    {
      PartsStep(s, c);
    }

    /** clks_tty_ansi_apply_sgr_params */
    method ApplySgr(values: seq<nat>)
      modifies this`pen
      ensures pen == Sgr(old(pen), values)
    {
      var i := 0;
      assert values[0..] == values;
      while i < |values|
        invariant i <= |values| && Sgr(pen, values[i..]) == Sgr(old(pen), values)
      {
        ghost var rest, before, at := values[i..], pen, i;
        var code := values[i];
        if code == 0 {
          pen := PLAIN;
        } else if code == 1 {
          pen := pen.(bold := true);
        } else if code == 4 {
          pen := pen.(underline := true);
        } else if code == 7 {
          pen := pen.(inverse := true);
        } else if code == 21 || code == 22 {
          pen := pen.(bold := false);
        } else if code == 24 {
          pen := pen.(underline := false);
        } else if code == 27 {
          pen := pen.(inverse := false);
        } else if code == 39 {
          pen := pen.(fg := DEFAULT_FG);
        } else if code == 49 {
          pen := pen.(bg := DEFAULT_BG);
        } else if 30 <= code <= 37 {
          var index := code - 30;
          if pen.bold {
            index := index + 8;
          }
          pen := pen.(fg := Palette(index));
        } else if 90 <= code <= 97 {
          pen := pen.(fg := Palette(code - 90 + 8));
        } else if 40 <= code <= 47 {
          pen := pen.(bg := Palette(code - 40));
        } else if 100 <= code <= 107 {
          pen := pen.(bg := Palette(code - 100 + 8));
        } else if (code == 38 || code == 48) && i + 1 < |values| {
          var mode := values[i+1];
          if mode == 5 && i + 2 < |values| {
            pen := WithColor(pen, code, Color256(values[i+2]));
            i := i + 2;
          } else if mode == 2 && i + 4 < |values| {
            pen := WithColor(pen, code, Rgb(Clamp255(values[i+2]), Clamp255(values[i+3]), Clamp255(values[i+4])));
            i := i + 4;
          }
        }
        i := i + 1;
        assert SgrStep(before, rest) == (pen, i - at);
        assert rest[i-at..] == values[i..];
      }
    }

    /** The forward motions, in 32-bit arithmetic */
    method Advance(at: nat, n: nat, max: nat) returns (r: nat)
      requires at <= max < U32 && n < U32
      ensures r == Forward(at, n, max)
    {
      if (at + n) % U32 > max {
        return max;
      }
      return (at + n) % U32;
    }

    /** A one-based position, as in H, f, G and d */
    method PositionOf(v: nat, size: nat) returns (r: nat)
      requires size > 0
      ensures r == Position(v, size)
    {
      r := v;
      if r > 0 {
        r := r - 1;
      }
      if r >= size {
        r := size - 1;
      }
    }

    /** The return to the saved cursor, as in ESC 8 and CSI u */
    method RestoreCursor()
      requires Valid()
      modifies this`row, this`col
      ensures Valid() && View() == Restore(old(View()))
    {
      hide History, GridOk;
      var r, c := savedRow, savedCol;
      if r >= rows {
        r := rows - 1;
      }
      if c >= cols {
        c := cols - 1;
      }
      row, col := r, c;
    }

    /** The cursor motions of clks_tty_ansi_process_csi_final */
    method MotionTarget(final: char, n: nat, n2: nat) returns (r: nat, c: nat)
      requires Valid() && n < U32 && IsMotion(final)
      ensures (r, c) == Target(row, col, rows, cols, n, n2, final)
    {
      hide History, GridOk, Position, Forward;
      r, c := row, col;
      if final == 'H' || final == 'f' {
        r := PositionOf(n, rows);
        c := PositionOf(n2, cols);
      } else if final == 'A' {
        r := if n > r then 0 else r - n;
      } else if final == 'B' {
        r := Advance(r, n, rows - 1);
      } else if final == 'C' {
        c := Advance(c, n, cols - 1);
      } else if final == 'D' {
        c := if n > c then 0 else c - n;
      } else if final == 'E' {
        r := Advance(r, n, rows - 1);
        c := 0;
      } else if final == 'F' {
        r := if n > r then 0 else r - n;
        c := 0;
      } else if final == 'G' {
        c := PositionOf(n, cols);
      } else if final == 'd' {
        r := PositionOf(n, rows);
      }
    }

    /** The branches of clks_tty_ansi_process_csi_final that leave the cells alone */
    method ControlFinal(final: char)
      requires Valid() && final != 'J' && final != 'K'
      modifies this`row, this`col, this`pen, this`savedRow, this`savedCol, this`blink
      ensures Valid() && View() == Control(old(View()), final)
    {
      hide History, GridOk, Values, Sgr, Target, Param, IsMotion;
      var values := ParseParams();
      var n, n2 := Param(values, 0, 1), Param(values, 1, 1);
      InRange(values, 0);
      if IsMotion(final) {
        var r, c := MotionTarget(final, n, n2);
        row, col := r, c;
      } else if final == 'm' {
        ApplySgr(values);
      } else if final == 's' {
        savedRow, savedCol := row, col;
      } else if final == 'u' {
        RestoreCursor();
      } else if (final == 'h' || final == 'l') && len > 0 && params[0] == '?' {
        if values[0] == 25 {
          blink := final == 'h';
        }
      }
    }

    lemma InRange(values: seq<nat>, i: nat)
      requires forall v :: v in values ==> v < U32
      ensures Param(values, i, 1) < U32
    {
      if i < |values| { assert values[i] in values; }
    }

    /** clks_tty_ansi_process_csi_final */
    method CsiFinal(final: char)
      requires Valid()
      modifies this`row, this`col, this`pen, this`savedRow, this`savedCol, this`blink, this`head, this`count, this`offset, screen
      ensures Valid() && View() == Csi(old(View()), final)
    {
      hide History, GridOk, Values, ClearScreen, ClearLine, Control;
      if final == 'J' {
        var values := ParseParams();
        ClearScreenMode(values[0]);
      } else if final == 'K' {
        var values := ParseParams();
        ClearLineMode(values[0]);
      } else {
        ControlFinal(final);
      }
    }

    /** clks_tty_reset_ansi_state */
    method ResetAnsi()
      requires Valid()
      modifies this`escape, this`csi, this`len, params
      ensures Valid() && View() == Reset(old(View()))
    {
      hide History, GridOk;
      escape, csi, len := false, false, 0;
      params[0] := 0 as char;
      assert params[..0] == "";
    }

    /** One more parameter character, which drops the whole sequence when the buffer is full. */
    method AddParam(ch: char)
      requires Valid() && escape && csi
      modifies this`escape, this`csi, this`len, params
      ensures Valid()
      ensures View() == if |old(View()).params| < MAX_PARAMS then old(View()).(params := old(View()).params + [ch])
                        else Reset(old(View()))
    {
      hide History, GridOk;
      ghost var t := View();
      if len < MAX_PARAMS {
        params[len] := ch;
        len := len + 1;
        params[len] := 0 as char;
        assert params[..len] == t.params + [ch];
      } else {
        ResetAnsi();
      }
    }

    /** clks_tty_ansi_process_byte inside an escape sequence */
    method Escaped(ch: char)
      requires Valid() && escape
      modifies this, screen, params
      ensures Valid() && View() == Step(old(View()), ch)
    {
      hide History, GridOk, Csi, Restore, Reset, PutRaw;
      if !csi {
        if ch == '[' {
          csi := true;
          return;
        }
        if ch == '7' {
          savedRow, savedCol := row, col;
        } else if ch == '8' {
          RestoreCursor();
        }
        ResetAnsi();
        return;
      }
      if IsParam(ch) {
        AddParam(ch);
        return;
      }
      CsiFinal(ch);
      ResetAnsi();
    }

    /** One character of a write */
    method Feed(ch: char)
      requires Valid()
      modifies this, screen, ring, params
      ensures Valid() && View() == Step(old(View()), ch)
    {
      hide History, GridOk, Csi, Restore, Reset, PutRaw;
      if escape {
        Escaped(ch);
      } else if ch == ESC {
        escape, csi, len := true, false, 0;
        params[0] := 0 as char;
        assert params[..0] == "";
      } else {
        PutCharRaw(ch);
      }
    }

    /** clks_tty_write_n */
    method WriteN(text: string)
      requires Valid()
      modifies this, screen, ring, params
      ensures Valid() && View() == Write(old(View()), text)
    {
      hide History, GridOk, Step;
      if |text| == 0 {
        return;
      }
      offset := 0;
      ghost var t := View();
      var i := 0;
      while i < |text|
        invariant i <= |text| && Valid() && View() == Steps(t, text[..i])
      {
        Feed(text[i]);
        assert text[..i+1][..i] == text[..i];
        i := i + 1;
      }
      assert text[..i] == text;
    }

    // ----- showing -----

    /** clks_tty_scrollback_logical_to_physical */
    method LogicalToPhysical(k: nat) returns (p: nat)
      requires Valid() && k < count
      ensures p < SCROLLBACK && ring[p] == History()[k]
    {
      if count < SCROLLBACK {
        return k;
      }
      p := (head + k) % SCROLLBACK;
    }

    /** One row of clks_tty_redraw_active, from the ring or from the screen */
    method DocumentRow(at: nat) returns (r: Row)
      requires Valid() && at < count + rows
      ensures at < |Document(View())| && r == Document(View())[at]
    {
      hide History, GridOk;
      if at < count {
        var p := LogicalToPhysical(at);
        return ring[p];
      }
      var source := at - count;
      if source >= rows {
        assert false;
      }
      return screen[source];
    }

    /** The rows that clks_tty_redraw_active draws: as many as fit the screen, beginning `offset`
        rows before it. */
    method Redraw() returns (drawn: seq<Row>)
      requires Valid()
      ensures drawn == Document(View())[count-offset..count-offset+rows]
    {
      hide History, GridOk, Document;
      ghost var doc := Document(View());
      DocumentSize();
      var start := count - offset;
      drawn := [];
      var r := 0;
      while r < rows
        invariant r <= rows && |drawn| == r && forall k :: 0 <= k < r ==> drawn[k] == doc[start+k]
      {
        var next := DocumentRow(start + r);
        drawn := drawn + [next];
        r := r + 1;
      }
    }

    lemma DocumentSize()
      requires Valid()
      ensures |Document(View())| == count + rows && offset <= count
    {
    }

    /** clks_tty_scrollback_page_up: one screen back, as far as there are rows */
    method PageUp()
      requires Valid()
      modifies this`offset
      ensures Valid() && View() == old(View()).(offset := Min(old(offset) + rows, count))
    {
      hide History, GridOk;
      if count == 0 {
        return;
      }
      var next := offset + rows;
      if next > count {
        next := count;
      }
      offset := next;
    }

    /** clks_tty_scrollback_page_down: one screen on, as far as the current one */
    method PageDown()
      requires Valid()
      modifies this`offset
      ensures Valid() && View() == old(View()).(offset := if old(offset) > rows then old(offset) - rows else 0)
    {
      hide History, GridOk;
      if offset == 0 {
        return;
      }
      offset := if offset > rows then offset - rows else 0;
    }
  }
}
