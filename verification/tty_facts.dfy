/** What holds of a terminal for every stream of characters. */
module TtyFacts {
  import opened Machine
  import opened TtyState

  // ----- chunks -----

  lemma {:induction false} StepsTwice(t: State, a: string, b: string)
    requires Ok(t)
    ensures Steps(t, a + b) == Steps(Steps(t, a), b)
  {
    hide Step, Ok;
    if b == "" {
      assert a + b == a;
    } else {
      assert (a + b)[..|a|+|b|-1] == a + b[..|b|-1];
      StepsTwice(t, a, b[..|b|-1]);
    }
  }

  lemma StepOffset(t: State, ch: char)
    requires Ok(t) && t.offset == 0
    ensures Step(t, ch).offset == 0
  {
  }

  lemma {:induction false} StepsOffset(t: State, text: string)
    requires Ok(t) && t.offset == 0
    ensures Steps(t, text).offset == 0
  {
    hide Step, Ok;
    if text != "" {
      StepsOffset(t, text[..|text|-1]);
      StepOffset(Steps(t, text[..|text|-1]), text[|text|-1]);
    }
  }

  /** However a stream is cut in two writes, the same screen, cursor and parser state result. */
  lemma WriteTwice(t: State, a: string, b: string)
    requires Ok(t)
    ensures Write(t, a + b) == Write(Write(t, a), b)
  {
    hide Steps, Ok;
    if a == "" {
      assert a + b == b;
    } else if b == "" {
      assert a + b == a;
    } else {
      var shown := t.(offset := 0);
      ShownOk(t);
      StepsTwice(shown, a, b);
      StepsOffset(shown, a);
    }
  }

  lemma ShownOk(t: State)
    requires Ok(t)
    ensures Ok(t.(offset := 0))
  {
  }

  function Concat(chunks: seq<string>): string {
    if chunks == [] then "" else Concat(chunks[..|chunks|-1]) + chunks[|chunks|-1]
  }

  function WriteChunks(t: State, chunks: seq<string>): (r: State)
    requires Ok(t)
    ensures Ok(r)
  {
    if chunks == [] then t else Write(WriteChunks(t, chunks[..|chunks|-1]), chunks[|chunks|-1])
  }

  lemma {:induction false} ChunksDoNotMatter(t: State, chunks: seq<string>)
    requires Ok(t)
    ensures WriteChunks(t, chunks) == Write(t, Concat(chunks))
  {
    hide Write, Ok;
    if chunks == [] {
      assert Write(t, "") == t by { NothingWritten(t); }
    } else {
      ChunksDoNotMatter(t, chunks[..|chunks|-1]);
      WriteTwice(t, Concat(chunks[..|chunks|-1]), chunks[|chunks|-1]);
    }
  }

  lemma NothingWritten(t: State)
    requires Ok(t)
    ensures Write(t, "") == t
  {
  }

  // ----- the document -----

  /** Scrolling appends a blank row, and drops the oldest row once the limit is reached. */
  lemma ScrollDocument(t: State)
    requires Ok(t)
    ensures Document(ScrollUp(t))
         == (if |t.history| < t.limit then Document(t) else Document(t)[1..]) + [BlankRow(t.cols)]
  {
    var pushed := t.history + [t.screen[0]];
    assert Document(t) == pushed + t.screen[1..];
    if |t.history| == t.limit {
      assert Document(t)[1..] == pushed[1..] + t.screen[1..];
    }
  }

  /** `t` is like `u` but remembers fewer of the rows that have scrolled off. */
  ghost predicate Forgets(t: State, u: State) {
    && t.limit <= u.limit && t.history == Last(u.history, t.limit) && t.offset == u.offset == 0
    && t == u.(limit := t.limit, history := t.history)
  }

  lemma LastOfPushed(h: seq<Row>, r: Row, n: nat, m: nat)
    requires 0 < n <= m
    ensures Last(Last(h, n) + [r], n) == Last(Last(h + [r], m), n)
  {
    hide Last;
    LastPush(h, r, n);
    LastOfLast(h + [r], n, m);
  }

  lemma LastPush(h: seq<Row>, r: Row, n: nat)
    requires n > 0
    ensures Last(Last(h, n) + [r], n) == Last(h + [r], n)
  {
    if |h| > n {
      var k := |h| - n;
      assert (h[k..] + [r])[1..] == h[k+1..] + [r];
      assert (h + [r])[k+1..] == h[k+1..] + [r];
    }
  }

  lemma LastOfLast(h: seq<Row>, n: nat, m: nat)
    requires n <= m
    ensures Last(Last(h, m), n) == Last(h, n)
  {
    if |h| > m { assert h[|h|-m..][m-n..] == h[|h|-n..]; }
  }

  lemma ScrollForgets(t: State, u: State)
    requires Ok(t) && Ok(u) && Forgets(t, u)
    ensures Forgets(ScrollUp(t), ScrollUp(u))
  {
    hide Ok, Last;
    HistoryFits(u);
    HistoryFits(t);
    LastOfPushed(u.history, u.screen[0], t.limit, u.limit);
  }

  lemma NewLineForgets(t: State, u: State)
    requires Ok(t) && Ok(u) && Forgets(t, u)
    ensures Forgets(NewLine(t), NewLine(u))
  {
    hide Ok, Last, ScrollUp;
    ScrollForgets(t, u);
  }

  lemma PutForgets(t: State, u: State, ch: char)
    requires Ok(t) && Ok(u) && Forgets(t, u)
    ensures Forgets(PutVisible(t, ch), PutVisible(u, ch))
  {
    hide Ok, Last, NewLine, CellOf;
    CursorOk(t);
    CursorOk(u);
    NewLineForgets(SetCell(t, t.row, t.col, CellOf(t.pen, ch)), SetCell(u, u.row, u.col, CellOf(u.pen, ch)));
  }

  lemma RawForgets(t: State, u: State, ch: char)
    requires Ok(t) && Ok(u) && Forgets(t, u)
    ensures Forgets(PutRaw(t, ch), PutRaw(u, ch))
  {
    hide Ok, Last, NewLine, PutVisible, CellOf;
    if ch == '\n' {
      NewLineForgets(t, u);
    } else if ch == '\t' {
      PutForgets(t, u, ' ');
      var (t1, u1) := (PutVisible(t, ' '), PutVisible(u, ' '));
      PutForgets(t1, u1, ' ');
      var (t2, u2) := (PutVisible(t1, ' '), PutVisible(u1, ' '));
      PutForgets(t2, u2, ' ');
      PutForgets(PutVisible(t2, ' '), PutVisible(u2, ' '), ' ');
    } else if ch != '\r' && ch != BACKSPACE {
      PutForgets(t, u, ch);
    }
  }

  lemma CsiForgets(t: State, u: State, final: char)
    requires Ok(t) && Ok(u) && Forgets(t, u)
    ensures Forgets(Csi(t, final), Csi(u, final))
  {
    hide Ok, Values, ClearScreen, ClearLine, Control, Forgets;
    ForgetsParams(t, u);
    var mode := Values(t.params)[0];
    if final == 'J' {
      ClearForgets(t, u, mode);
    } else if final == 'K' {
      LineForgets(t, u, mode);
    } else {
      ControlForgets(t, u, final);
    }
  }

  lemma ForgetsParams(t: State, u: State)
    requires Forgets(t, u)
    ensures t.params == u.params
  {
  }

  lemma ControlForgets(t: State, u: State, final: char)
    requires Ok(t) && Ok(u) && Forgets(t, u)
    ensures Forgets(Control(t, final), Control(u, final))
  {
  }

  lemma ClearForgets(t: State, u: State, mode: nat)
    requires Ok(t) && Ok(u) && Forgets(t, u)
    ensures Forgets(ClearScreen(t, mode), ClearScreen(u, mode))
  {
  }

  lemma LineForgets(t: State, u: State, mode: nat)
    requires Ok(t) && Ok(u) && Forgets(t, u)
    ensures Forgets(ClearLine(t, mode), ClearLine(u, mode))
  {
  }

  lemma StepForgets(t: State, u: State, ch: char)
    requires Ok(t) && Ok(u) && Forgets(t, u)
    ensures Forgets(Step(t, ch), Step(u, ch))
  {
    hide Ok, Last, PutRaw, Csi;
    RawForgets(t, u, ch);
    CsiForgets(t, u, ch);
  }

  /** For every stream, scrollback with a limit holds exactly the last rows of what a terminal
      with more room holds; screen, cursor and parser state do not depend on the limit. */
  lemma {:induction false} LimitOnlyForgets(t: State, u: State, text: string)
    requires Ok(t) && Ok(u) && Forgets(t, u)
    ensures Forgets(Steps(t, text), Steps(u, text))
  {
    hide Ok, Step, Forgets;
    if text != "" {
      var front := text[..|text|-1];
      LimitOnlyForgets(t, u, front);
      StepForgets(Steps(t, front), Steps(u, front), text[|text|-1]);
    }
  }

  // ----- what single bytes do -----

  predicate IsGraphic(ch: char) {
    ch != ESC && ch != '\r' && ch != '\n' && ch != '\t' && ch != BACKSPACE
  }

  /** A printed character appears at the cursor, no other cell on the screen changes, and the
      cursor goes one cell on in reading order, unless the screen ends there. */
  lemma PrintShows(t: State, ch: char)
    requires Ok(t) && !t.escape && IsGraphic(ch) && !(t.col + 1 == t.cols && t.row + 1 == t.rows)
    ensures var r := Step(t, ch);
            && r.history == t.history && r.row < t.rows && r.col < t.cols
            && r.row * t.cols + r.col == t.row * t.cols + t.col + 1
            && forall i, j :: 0 <= i < t.rows && 0 <= j < t.cols ==>
                 r.screen[i][j] == if i == t.row && j == t.col then CellOf(t.pen, ch) else t.screen[i][j]
  {
    hide CellOf;
  }

  /** At the end of the last line everything moves up by one row, and the oldest row is forgotten
      when there is no more room. */
  lemma PrintScrolls(t: State, ch: char)
    requires Ok(t) && !t.escape && IsGraphic(ch) && t.col + 1 == t.cols && t.row + 1 == t.rows
    ensures var r := Step(t, ch);
            var above := if |t.history| < t.limit then Document(t)[..|Document(t)|-1] else Document(t)[1..|Document(t)|-1];
            Document(r) == above + [t.screen[t.row][t.col := CellOf(t.pen, ch)], BlankRow(t.cols)]
            && r.row == t.row && r.col == 0
  {
    hide CellOf, Ok, Step, ScrollUp, Document;
    CursorOk(t);
    LastCell(t, ch);
    var printed := SetCell(t, t.row, t.col, CellOf(t.pen, ch));
    ScrollDocument(printed);
    PrintedDocument(t, CellOf(t.pen, ch));
    var front, row := Document(t)[..|Document(t)|-1], t.screen[t.row][t.col := CellOf(t.pen, ch)];
    assert front + [row] + [BlankRow(t.cols)] == front + [row, BlankRow(t.cols)];
    if |t.history| >= t.limit {
      assert (front + [row])[1..] == front[1..] + [row];
      assert front[1..] == Document(t)[1..|Document(t)|-1];
      assert front[1..] + [row] + [BlankRow(t.cols)] == front[1..] + [row, BlankRow(t.cols)];
    }
  }

  /** What printing in the last cell does. */
  lemma LastCell(t: State, ch: char)
    requires Ok(t) && !t.escape && IsGraphic(ch) && t.col + 1 == t.cols && t.row + 1 == t.rows
    ensures var printed := SetCell(t, t.row, t.col, CellOf(t.pen, ch));
            && Ok(printed) && Step(t, ch) == ScrollUp(printed).(col := 0, row := t.rows - 1)
            && Document(Step(t, ch)) == Document(ScrollUp(printed))
  {
    hide CellOf;
  }

  /** The document after a change in the last row. */
  lemma PrintedDocument(t: State, c: Cell)
    requires Ok(t) && t.row + 1 == t.rows
    ensures |Document(t)| > 0 && Document(SetCell(t, t.row, t.col, c)) == Document(t)[..|Document(t)|-1] + [t.screen[t.row][t.col := c]]
    ensures |t.history| >= t.limit ==> |Document(t)| > 1
  {
  }

  lemma HistoryFits(t: State)
    requires Ok(t)
    ensures |t.history| <= t.limit && t.limit > 0 && |t.screen| == t.rows > 0
  {
  }

  /** Erasing the screen blanks the cells from the cursor on, or up to it, in reading order, or
      all of them, and keeps every other cell. */
  lemma EraseInReadingOrder(t: State, mode: nat, r: nat, c: nat)
    requires Ok(t) && r < t.rows && c < t.cols
    ensures var e := ClearScreen(t, mode); var at, here := r * t.cols + c, t.row * t.cols + t.col;
            e.screen[r][c]
              == (if mode == 0 && at < here then t.screen[r][c] else if mode == 1 && at > here then t.screen[r][c] else BLANK)
  {
    RowsInOrder(r, c, t.row, t.col, t.cols);
    RowsInOrder(t.row, t.col, r, c, t.cols);
  }

  lemma RowsInOrder(r: nat, c: nat, r2: nat, c2: nat, cols: nat)
    requires c < cols
    ensures r < r2 ==> r * cols + c < r2 * cols + c2
  {
    if r < r2 {
      var d := r2 - r - 1;
      assert d * cols >= 0;
      assert r2 * cols == r * cols + cols + d * cols;
    }
  }

  /** Erasing up to the cursor and from it on, in either order, leaves a blank screen. */
  lemma EraseHalves(t: State)
    requires Ok(t)
    ensures ClearScreen(ClearScreen(t, 0), 1) == ClearScreen(ClearScreen(t, 1), 0)
         == t.(screen := seq(t.rows, _ => BlankRow(t.cols)))
  {
    EraseHalf(t, 0, 1);
    EraseHalf(t, 1, 0);
  }

  lemma EraseHalf(t: State, mode: nat, mode2: nat)
    requires Ok(t) && ((mode == 0 && mode2 == 1) || (mode == 1 && mode2 == 0))
    ensures ClearScreen(ClearScreen(t, mode), mode2) == t.(screen := seq(t.rows, _ => BlankRow(t.cols)))
  {
    var blank, e := seq(t.rows, _ => BlankRow(t.cols)), ClearScreen(ClearScreen(t, mode), mode2);
    forall r | 0 <= r < t.rows
      ensures e.screen[r] == blank[r]
    {
      assert |blank[r]| == t.cols;
    }
    assert e.screen == blank;
  }

  // ----- saving the cursor -----

  /** Text without escapes, outside an escape sequence, neither saves a cursor nor opens one. */
  lemma PlainKeepsSaved(t: State, ch: char)
    requires Ok(t) && !t.escape && ch != ESC
    ensures var r := Step(t, ch); !r.escape && r.savedRow == t.savedRow && r.savedCol == t.savedCol
  {
  }

  lemma {:induction false} PlainTextKeepsSaved(t: State, text: string)
    requires Ok(t) && !t.escape && ESC !in text
    ensures var r := Steps(t, text); !r.escape && r.savedRow == t.savedRow && r.savedCol == t.savedCol
  {
    hide Ok, Step;
    if text != "" {
      var front := text[..|text|-1];
      assert forall c :: c in front ==> c in text;
      PlainTextKeepsSaved(t, front);
      PlainKeepsSaved(Steps(t, front), text[|text|-1]);
    }
  }

  /** The cursor comes back to where it was saved, whatever text is written in between. */
  lemma SaveRestore(t: State, text: string)
    requires Ok(t) && !t.escape && ESC !in text
    ensures var r := Steps(t, [ESC, '7'] + text + [ESC, '8']);
            r.row == t.row && r.col == t.col && !r.escape
  {
    hide Ok, Steps;
    var saved := Steps(t, [ESC, '7']);
    TwoSteps(t, ESC, '7');
    CursorOk(t);
    StepsTwice(t, [ESC, '7'], text);
    PlainTextKeepsSaved(saved, text);
    var written := Steps(saved, text);
    StepsTwice(t, [ESC, '7'] + text, [ESC, '8']);
    TwoSteps(written, ESC, '8');
  }

  lemma TwoSteps(t: State, a: char, b: char)
    requires Ok(t)
    ensures Steps(t, [a, b]) == Step(Step(t, a), b)
  {
    hide Ok, Step;
    var text := [a, b];
    assert text[..1] == [a] && text[..1][..0] == "";
    assert Steps(t, [a]) == Step(Steps(t, ""), a) by { assert [a][..0] == ""; }
  }
}
