/** What each control character and each control sequence does to a terminal (clks/kernel/tty.c;
    ECMA-48, sections 5.4, 8.3.39, 8.3.41 and 8.3.117). */
module TtyCodes {
  import opened Machine
  import opened TtyState
  import opened TtyFacts
  import opened TtyMotion

  // ----- control characters -----

  /** A line feed leads to the start of the next row and changes no cell. */
  lemma LineFeed(t: State)
    requires Ok(t) && !t.escape && t.row + 1 < t.rows
    ensures Step(t, '\n') == t.(row := t.row + 1, col := 0)
  {
  }

  /** In the last row everything moves up by one row instead. */
  lemma LineFeedScrolls(t: State)
    requires Ok(t) && !t.escape && t.row + 1 == t.rows
    ensures var r := Step(t, '\n');
            && r == t.(screen := r.screen, history := r.history, col := 0)
            && Document(r) == (if |t.history| < t.limit then Document(t) else Document(t)[1..]) + [BlankRow(t.cols)]
  {
    hide Document, ScrollUp;
    ScrollDocument(t);
    SameDocument(ScrollUp(t), Step(t, '\n'));
  }

  lemma SameDocument(t: State, r: State)
    requires r.screen == t.screen && r.history == t.history
    ensures Document(r) == Document(t)
  {
  }

  /** A carriage return leads to the start of the row. */
  lemma CarriageReturn(t: State)
    requires Ok(t) && !t.escape
    ensures Step(t, '\r') == t.(col := 0)
  {
  }

  /** A backspace leads one cell back in reading order, blanks that cell and no other; at the very
      start it does nothing. */
  lemma BackspaceBlanks(t: State)
    requires Ok(t) && !t.escape
    ensures t.row == 0 && t.col == 0 ==> Step(t, 8 as char) == t
    ensures t.row > 0 || t.col > 0 ==>
              var r := Step(t, 8 as char);
              && r == t.(screen := r.screen, row := r.row, col := r.col)
              && r.row < t.rows && r.col < t.cols && r.row * t.cols + r.col + 1 == t.row * t.cols + t.col
              && forall i, j :: 0 <= i < t.rows && 0 <= j < t.cols ==>
                   r.screen[i][j] == if i == r.row && j == r.col then CellOf(t.pen, ' ') else t.screen[i][j]
  {
    hide CellOf;
  }

  /** A tab is four spaces. */
  lemma TabIsSpaces(t: State)
    requires Ok(t) && !t.escape
    ensures Step(t, '\t') == Step(Step(Step(Step(t, ' '), ' '), ' '), ' ')
  {
    hide PutVisible;
  }

  /** What is printed has the colours of the pen, the other way round if they are inverted, and
      its styles. */
  lemma PrintedCell(pen: Pen, ch: char)
    ensures var c := CellOf(pen, ch);
            && c.ch == ch && c.bold == pen.bold && c.underline == pen.underline
            && c.fg == (if pen.inverse then pen.bg else pen.fg) && c.bg == if pen.inverse then pen.fg else pen.bg
  {
  }

  // ----- how a sequence is read -----

  /** The text of a sequence between its introducer and its final character. */
  predicate IsParamText(text: string) {
    forall c :: c in text ==> IsDigit(c) || c == ';' || c == '?'
  }

  /** Escape and a bracket begin a sequence, and up to 95 characters of it are kept as they are. */
  lemma {:induction false} SequenceIsRead(t: State, text: string)
    requires Ok(t) && !t.escape && IsParamText(text) && |text| <= 95
    ensures Steps(t, [ESC, '['] + text) == t.(escape := true, csi := true, params := text)
  {
    hide Ok, Steps;
    if text == "" {
      TwoSteps(t, ESC, '[');
      Begins(t);
      assert [ESC, '['] + text == [ESC, '['];
    } else {
      var front, c := text[..|text|-1], text[|text|-1];
      assert c in text && forall x :: x in front ==> x in text;
      SequenceIsRead(t, front);
      assert [ESC, '['] + text == ([ESC, '['] + front) + [c];
      StepsTwice(t, [ESC, '['] + front, [c]);
      var m := Steps(t, [ESC, '['] + front);
      OneStep(m, c);
      Collects(m, c);
      assert front + [c] == text;
    }
  }

  lemma Begins(t: State)
    requires Ok(t) && !t.escape
    ensures Step(Step(t, ESC), '[') == t.(escape := true, csi := true, params := "")
  {
  }

  lemma Collects(t: State, c: char)
    requires Ok(t) && t.escape && t.csi && IsParam(c) && |t.params| < 95
    ensures Step(t, c) == t.(params := t.params + [c])
  {
  }

  lemma OneStep(t: State, c: char)
    requires Ok(t)
    ensures Steps(t, [c]) == Step(t, c)
  {
    hide Ok, Step;
    assert [c][..0] == "";
    assert Steps(t, [c]) == Step(Steps(t, [c][..0]), c);
  }

  /** One character more, and the sequence is dropped. */
  lemma TooLongIsDropped(t: State, text: string)
    requires Ok(t) && !t.escape && IsParamText(text) && |text| == 96
    ensures Steps(t, [ESC, '['] + text) == t.(csi := false, params := "")
  {
    hide Ok, Steps;
    var front, c := text[..95], text[95];
    assert text == front + [c] && c in text && forall x :: x in front ==> x in text;
    SequenceIsRead(t, front);
    assert [ESC, '['] + text == ([ESC, '['] + front) + [c];
    StepsTwice(t, [ESC, '['] + front, [c]);
    var m := Steps(t, [ESC, '['] + front);
    OneStep(m, c);
    Drops(m, c);
  }

  lemma Drops(t: State, c: char)
    requires Ok(t) && t.escape && t.csi && IsParam(c) && |t.params| == 95
    ensures Step(t, c) == t.(escape := false, csi := false, params := "")
  {
  }

  // ----- erasing -----

  const ERASED: Cell := Cell(' ', 0xE6E6E6, 0x101010, false, false)

  /** K erases the row of the cursor: from it on without a number or with 0, up to it with 1, and
      all of it with any other number. */
  lemma EraseInLine(t: State)
    requires Ok(t) && t.escape && t.csi && IsNumber(t.params)
    ensures var r, n := Step(t, 'K'), ValueOf(t.params) % U32;
            && r == Reset(t.(screen := r.screen)) && |r.screen| == |t.screen| == t.rows
            && (forall i :: 0 <= i < t.rows ==> |r.screen[i]| == |t.screen[i]| == t.cols)
            && forall i, j :: 0 <= i < t.rows && 0 <= j < t.cols ==>
                 r.screen[i][j] == if i == t.row && (n == 0 ==> j >= t.col) && (n == 1 ==> j <= t.col) then ERASED else t.screen[i][j]
  {
    hide Ok, Values, ValueOf, IsNumber, ClearLine, Control;
    OneValue(t.params);
    CursorOk(t);
    var n := Values(t.params)[0];
    LineCleared(t, n);
    var c := ClearLine(t, n);
    assert Step(t, 'K') == Reset(c);
    var r := Step(t, 'K');
    assert r.screen == c.screen && n == ValueOf(t.params) % U32;
    forall i, j | 0 <= i < t.rows && 0 <= j < t.cols
      ensures r.screen[i][j] == if i == t.row && (n == 0 ==> j >= t.col) && (n == 1 ==> j <= t.col) then ERASED else t.screen[i][j]
    {
      assert c.screen[i][j] == if i == t.row && (n == 0 ==> j >= t.col) && (n == 1 ==> j <= t.col) then ERASED else t.screen[i][j];
    }
  }

  lemma LineCleared(t: State, n: nat)
    requires Ok(t)
    ensures var r := ClearLine(t, n);
            && r == t.(screen := r.screen) && |r.screen| == |t.screen| == t.rows
            && (forall i :: 0 <= i < t.rows ==> |r.screen[i]| == |t.screen[i]| == t.cols)
            && forall i, j :: 0 <= i < t.rows && 0 <= j < t.cols ==>
                 r.screen[i][j] == if i == t.row && (n == 0 ==> j >= t.col) && (n == 1 ==> j <= t.col) then ERASED else t.screen[i][j]
  {
  }

  /** J erases the screen: from the cursor on without a number or with 0, up to it with 1, in
      reading order, and all of it with any other number; 3 forgets the scrollback as well. */
  lemma EraseInDisplay(t: State)
    requires Ok(t) && t.escape && t.csi && IsNumber(t.params)
    ensures var r, n := Step(t, 'J'), ValueOf(t.params) % U32;
            && r == Reset(t.(screen := r.screen, history := r.history, offset := r.offset)) && |r.screen| == |t.screen| == t.rows
            && (if n == 3 then r.history == [] && r.offset == 0 else r.history == t.history && r.offset == t.offset)
            && (forall i :: 0 <= i < t.rows ==> |r.screen[i]| == |t.screen[i]| == t.cols)
            && forall i, j :: 0 <= i < t.rows && 0 <= j < t.cols ==>
                 var at, here := i * t.cols + j, t.row * t.cols + t.col;
                 r.screen[i][j] == if (n == 0 ==> at >= here) && (n == 1 ==> at <= here) then ERASED else t.screen[i][j]
  {
    hide Ok, Values, ValueOf, IsNumber, ClearScreen, Control;
    OneValue(t.params);
    var n := Values(t.params)[0];
    var r := ClearScreen(t, n);
    assert Step(t, 'J') == Reset(r);
    ScreenCleared(t, n);
    forall i, j | 0 <= i < t.rows && 0 <= j < t.cols
      ensures var at, here := i * t.cols + j, t.row * t.cols + t.col;
              r.screen[i][j] == if (n == 0 ==> at >= here) && (n == 1 ==> at <= here) then ERASED else t.screen[i][j]
    {
      EraseInReadingOrder(t, n, i, j);
    }
  }

  lemma ScreenCleared(t: State, n: nat)
    requires Ok(t)
    ensures var r := ClearScreen(t, n);
            && r == t.(screen := r.screen, history := r.history, offset := r.offset) && |r.screen| == t.rows == |t.screen|
            && (if n == 3 then r.history == [] && r.offset == 0 else r.history == t.history && r.offset == t.offset)
            && forall i :: 0 <= i < t.rows ==> |r.screen[i]| == |t.screen[i]| == t.cols
  {
  }

  // ----- the cursor -----

  /** s saves the position of the cursor, and u leads back to it, or to the edge. */
  lemma SavesAndRestores(t: State)
    requires Ok(t) && t.escape && t.csi
    ensures Step(t, 's') == Reset(t.(savedRow := t.row, savedCol := t.col))
    ensures Step(t, 'u') == Reset(t.(row := if t.savedRow < t.rows then t.savedRow else t.rows - 1,
                                     col := if t.savedCol < t.cols then t.savedCol else t.cols - 1))
  {
    hide Values, Sgr, Target;
  }

  /** h and l switch the blinking of the cursor on and off for the private number 25. */
  lemma BlinkSwitches(t: State, text: string)
    requires Ok(t) && t.escape && t.csi && t.params == "?" + text && IsNumber(text) && ValueOf(text) == 25
    ensures Step(t, 'h') == Reset(t.(blink := true)) && Step(t, 'l') == Reset(t.(blink := false))
  {
    hide Values, Sgr, Target, ValueOf, IsNumber, Ok;
    PrivateValue(text);
    assert t.params[0] == '?';
    assert Step(t, 'h') == Reset(Control(t, 'h')) && Step(t, 'l') == Reset(Control(t, 'l'));
  }

  /** A question mark in front of a number is passed over. */
  lemma {:induction false} NumberBehind(text: string)
    requires IsNumber(text)
    ensures Number("?" + text) == Number(text) && ';' !in "?" + text
  {
    hide Number;
    if text == "" {
      NumberNext("", '?');
      assert "?" + text == "" + ['?'];
    } else {
      var front, c := text[..|text|-1], text[|text|-1];
      assert text == front + [c] && c in text && forall x :: x in front ==> x in text;
      NumberBehind(front);
      NumberNext(front, c);
      assert "?" + text == ("?" + front) + [c];
      NumberNext("?" + front, c);
    }
  }

  lemma PrivateValue(text: string)
    requires IsNumber(text)
    ensures |Values("?" + text)| == 1 && Values("?" + text)[0] == ValueOf(text) % U32
  {
    hide Parts, Number, ValueOf, IsNumber;
    NumberBehind(text);
    NumberOfDigits(text);
    OnePart("?" + text);
  }

  /** Any other final character only ends the sequence. */
  lemma OthersIgnored(t: State, final: char)
    requires Ok(t) && t.escape && t.csi && !IsParam(final) && !IsMotion(final)
    requires final !in "JKmsuhl"
    ensures Step(t, final) == Reset(t)
  {
    hide Values, Sgr, Target;
  }

  // ----- colours and styles -----

  /** Codes that stand alone, with the pen that each of them gives. */
  lemma SgrCodes(pen: Pen, code: nat)
    ensures var p := Sgr(pen, [code]);
            && (code == 0 ==> p == Pen(0xE6E6E6, 0x101010, false, false, false))
            && (code == 1 ==> p == pen.(bold := true)) && (code == 21 || code == 22 ==> p == pen.(bold := false))
            && (code == 4 ==> p == pen.(underline := true)) && (code == 24 ==> p == pen.(underline := false))
            && (code == 7 ==> p == pen.(inverse := true)) && (code == 27 ==> p == pen.(inverse := false))
            && (code == 39 ==> p == pen.(fg := 0xE6E6E6)) && (code == 49 ==> p == pen.(bg := 0x101010))
            && (30 <= code <= 37 ==> p == pen.(fg := if pen.bold then Bright(code - 30) else Dark(code - 30)))
            && (40 <= code <= 47 ==> p == pen.(bg := Dark(code - 40)))
            && (90 <= code <= 97 ==> p == pen.(fg := Bright(code - 90)))
            && (100 <= code <= 107 ==> p == pen.(bg := Bright(code - 100)))
            && (!IsSgr(code) ==> p == pen)
  {
    hide Sgr, SgrStep, Palette, Dark, Bright;
    OneSgr(pen, code);
    StyleCodes(pen, code);
    ColourCodes(pen, code);
    OtherCodes(pen, code);
  }

  lemma StyleCodes(pen: Pen, code: nat)
    ensures var p := SgrStep(pen, [code]).0;
            && (code == 0 ==> p == Pen(0xE6E6E6, 0x101010, false, false, false))
            && (code == 1 ==> p == pen.(bold := true)) && (code == 21 || code == 22 ==> p == pen.(bold := false))
            && (code == 4 ==> p == pen.(underline := true)) && (code == 24 ==> p == pen.(underline := false))
            && (code == 7 ==> p == pen.(inverse := true)) && (code == 27 ==> p == pen.(inverse := false))
            && (code == 39 ==> p == pen.(fg := 0xE6E6E6)) && (code == 49 ==> p == pen.(bg := 0x101010))
  {
  }

  lemma ColourCodes(pen: Pen, code: nat)
    ensures var p := SgrStep(pen, [code]).0;
            && (30 <= code <= 37 ==> p == pen.(fg := if pen.bold then Bright(code - 30) else Dark(code - 30)))
            && (40 <= code <= 47 ==> p == pen.(bg := Dark(code - 40)))
            && (90 <= code <= 97 ==> p == pen.(fg := Bright(code - 90)))
            && (100 <= code <= 107 ==> p == pen.(bg := Bright(code - 100)))
  {
    hide Palette, Dark, Bright;
    if 30 <= code <= 37 { Sixteen(code - 30); }
    if 40 <= code <= 47 { Sixteen(code - 40); }
    if 90 <= code <= 97 { Sixteen(code - 90); }
    if 100 <= code <= 107 { Sixteen(code - 100); }
  }

  lemma Sixteen(i: nat)
    requires i < 8
    ensures Palette(i) == Dark(i) && Palette(i + 8) == Bright(i)
  {
  }

  lemma OtherCodes(pen: Pen, code: nat)
    ensures !IsSgr(code) ==> SgrStep(pen, [code]).0 == pen
  {
  }

  predicate IsSgr(code: nat) {
    code in {0, 1, 4, 7, 21, 22, 24, 27, 39, 49} || 30 <= code <= 37 || 40 <= code <= 47 || 90 <= code <= 97 || 100 <= code <= 107
  }

  /** Black, red, green, yellow, blue, magenta, cyan and white. */
  function Dark(i: nat): nat
    requires i < 8
  {
    match i
    case 0 => 0x000000
    case 1 => 0xCD3131
    case 2 => 0x0DBC79
    case 3 => 0xE5E510
    case 4 => 0x2472C8
    case 5 => 0xBC3FBC
    case 6 => 0x11A8CD
    case _ => 0xE5E5E5
  }

  function Bright(i: nat): nat
    requires i < 8
  {
    match i
    case 0 => 0x666666
    case 1 => 0xF14C4C
    case 2 => 0x23D18B
    case 3 => 0xF5F543
    case 4 => 0x3B8EEA
    case 5 => 0xD670D6
    case 6 => 0x29B8DB
    case _ => 0xFFFFFF
  }

  lemma OneSgr(pen: Pen, code: nat)
    ensures Sgr(pen, [code]) == SgrStep(pen, [code]).0
  {
    hide SgrStep;
    assert Sgr(SgrStep(pen, [code]).0, []) == SgrStep(pen, [code]).0;
    assert SgrStep(pen, [code]).1 == 1 && [code][1..] == [];
  }

  /** Codes work one after the other, unless the first ones ask for a colour by number. */
  lemma {:induction false} SgrInTurn(pen: Pen, a: seq<nat>, b: seq<nat>)
    requires 38 !in a && 48 !in a
    ensures Sgr(pen, a + b) == Sgr(Sgr(pen, a), b)
    decreases |a|
  {
    hide Sgr;
    NoSgr(pen);
    if a == [] {
      assert a + b == b;
    } else {
      AloneFirst(pen, a[0], a[1..]);
      AloneFirst(pen, a[0], a[1..] + b);
      assert a[0] in a && a == [a[0]] + a[1..] && a + b == [a[0]] + (a[1..] + b);
      assert forall x :: x in a[1..] ==> x in a;
      SgrInTurn(Sgr(pen, [a[0]]), a[1..], b);
    }
  }

  lemma NoSgr(pen: Pen)
    ensures Sgr(pen, []) == pen
  {
  }

  lemma AloneFirst(pen: Pen, code: nat, rest: seq<nat>)
    requires code != 38 && code != 48
    ensures Sgr(pen, [code] + rest) == Sgr(Sgr(pen, [code]), rest)
  {
    OneSgr(pen, code);
    var vs := [code] + rest;
    assert vs[1..] == rest && SgrStep(pen, vs) == SgrStep(pen, [code]);
  }

  /** 38 and 48 followed by 5 choose one of 256 colours: the sixteen of the other codes, a cube of
      six levels each of red, green and blue, and 24 greys; a greater number stands for the default. */
  lemma SgrNumbered(pen: Pen, i: nat, rest: seq<nat>)
    ensures Sgr(pen, [38, 5, i] + rest) == Sgr(pen.(fg := Numbered(i)), rest)
    ensures Sgr(pen, [48, 5, i] + rest) == Sgr(pen.(bg := Numbered(i)), rest)
    ensures i < 8 ==> Numbered(i) == Dark(i)
    ensures 8 <= i < 16 ==> Numbered(i) == Bright(i - 8)
    ensures 232 <= i < 256 ==> Numbered(i) == (8 + 10 * (i - 232)) * 0x010101
    ensures i >= 256 ==> Numbered(i) == 0xE6E6E6
  {
    hide Numbered;
    var vs, ws := [38, 5, i] + rest, [48, 5, i] + rest;
    assert vs[3..] == rest == ws[3..];
    assert SgrStep(pen, vs) == (pen.(fg := Numbered(i)), 3) && SgrStep(pen, ws) == (pen.(bg := Numbered(i)), 3) by { NumberedSteps(pen, i, rest); }
    NumberedFlat(i);
  }

  function Numbered(i: nat): nat {
    Color256(i)
  }

  lemma NumberedSteps(pen: Pen, i: nat, rest: seq<nat>)
    ensures SgrStep(pen, [38, 5, i] + rest) == (pen.(fg := Numbered(i)), 3)
    ensures SgrStep(pen, [48, 5, i] + rest) == (pen.(bg := Numbered(i)), 3)
  {
    hide Color256;
  }

  lemma NumberedFlat(i: nat)
    ensures i < 8 ==> Numbered(i) == Dark(i)
    ensures 8 <= i < 16 ==> Numbered(i) == Bright(i - 8)
    ensures 232 <= i < 256 ==> Numbered(i) == (8 + 10 * (i - 232)) * 0x010101
    ensures i >= 256 ==> Numbered(i) == 0xE6E6E6
  {
  }

  /** A colour of the cube. */
  lemma NumberedCube(r: nat, g: nat, b: nat)
    requires r < 6 && g < 6 && b < 6
    ensures Numbered(16 + 36 * r + 6 * g + b) == Level(r) * 0x1_0000 + Level(g) * 0x100 + Level(b)
  {
    var n := 36 * r + 6 * g + b;
    CubeParts(r, g, b);
    Levels(r);
    Levels(g);
    Levels(b);
    assert 16 + 36 * r + 6 * g + b == 16 + n && n <= 215;
  }

  lemma CubeParts(r: nat, g: nat, b: nat)
    requires r < 6 && g < 6 && b < 6
    ensures var n := 36 * r + 6 * g + b; n / 36 == r && n / 6 % 6 == g && n % 6 == b
  {
    var n := 36 * r + 6 * g + b;
    assert n / 6 == 6 * r + g && n % 6 == b;
    assert (6 * r + g) % 6 == g;
  }

  lemma Levels(i: nat)
    requires i < 6
    ensures STEPS[i] == Level(i)
  {
  }

  function Level(i: nat): nat {
    if i == 0 then 0 else 55 + 40 * i
  }

  /** 38 and 48 followed by 2 take red, green and blue themselves, each at most 255. */
  lemma SgrDirect(pen: Pen, r: nat, g: nat, b: nat, rest: seq<nat>)
    requires r <= 255 && g <= 255 && b <= 255
    ensures Sgr(pen, [38, 2, r, g, b] + rest) == Sgr(pen.(fg := r * 0x1_0000 + g * 0x100 + b), rest)
    ensures Sgr(pen, [48, 2, r, g, b] + rest) == Sgr(pen.(bg := r * 0x1_0000 + g * 0x100 + b), rest)
  {
    hide SgrStep;
    var vs, ws := [38, 2, r, g, b] + rest, [48, 2, r, g, b] + rest;
    assert vs[5..] == rest == ws[5..];
    DirectSteps(pen, r, g, b, rest);
  }

  lemma DirectSteps(pen: Pen, r: nat, g: nat, b: nat, rest: seq<nat>)
    requires r <= 255 && g <= 255 && b <= 255
    ensures SgrStep(pen, [38, 2, r, g, b] + rest) == (pen.(fg := r * 0x1_0000 + g * 0x100 + b), 5)
    ensures SgrStep(pen, [48, 2, r, g, b] + rest) == (pen.(bg := r * 0x1_0000 + g * 0x100 + b), 5)
  {
    hide Color256, Palette;
  }

  /** m changes the pen alone, by the numbers that are written. */
  lemma RenditionStep(t: State, xs: seq<string>)
    requires Ok(t) && t.escape && t.csi && 0 < |xs| <= 16 && (forall x :: x in xs ==> IsNumber(x) && ValueOf(x) < U32)
    requires t.params == ParamText(xs)
    ensures Step(t, 'm') == Reset(t.(pen := Sgr(t.pen, seq(|xs|, i requires 0 <= i < |xs| => ValueOf(xs[i])))))
  {
    hide Values, Sgr, Target, ValueOf, IsNumber, Ok, ParamText;
    ParamsReadBack(xs);
    assert forall i :: 0 <= i < |xs| ==> xs[i] in xs;
    assert Values(t.params) == seq(|xs|, i requires 0 <= i < |xs| => ValueOf(xs[i]));
    assert Step(t, 'm') == Reset(Control(t, 'm'));
  }
}
