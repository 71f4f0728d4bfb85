/** Control sequences with numbers, as written and as read (clks/kernel/tty.c), and where the
    cursor motions lead (ECMA-48, sections 8.3.18 to 8.3.22). */
module TtyMotion {
  import opened Machine
  import opened TtyState
  import N = Numbers

  // ----- numbers in a sequence -----

  lemma TenTimes(a: nat, d: nat)
    ensures (a % U32 * 10 + d) % U32 == (a * 10 + d) % U32
  {
    var q := a / U32;
    assert a == q * U32 + a % U32;
    assert a * 10 + d == (a % U32 * 10 + d) + q * 10 * U32;
  }

  /** Digits, with or without zeros in front; no digits at all stand for zero. */
  predicate IsNumber(text: string) {
    N.AllDigits(text, 10)
  }

  function ValueOf(text: string): nat
    requires IsNumber(text)
  {
    N.ValueOf(text, 10)
  }

  /** A number of any length is read modulo 2^32. */
  lemma {:induction false} NumberOfDigits(text: string)
    requires IsNumber(text)
    ensures Number(text) == ValueOf(text) % U32 && ';' !in text
  {
    hide Number;
    if text == "" {
      NumberOfNothing();
    } else {
      var front, c := text[..|text|-1], text[|text|-1];
      assert text == front + [c] && c in text;
      assert forall x :: x in front ==> x in text;
      NumberOfDigits(front);
      NumberNext(front, c);
      TenTimes(ValueOf(front), N.DigitValue(c));
    }
  }

  lemma NumberOfNothing()
    ensures Number("") == 0
  {
  }

  lemma {:induction false} OnePart(s: string)
    requires ';' !in s
    ensures Parts(s) == [s]
  {
    if s != "" {
      var front := s[..|s|-1];
      assert forall c :: c in front ==> c in s;
      OnePart(front);
      assert s == front + [s[|s|-1]];
    }
  }

  /** Parts of a text that goes on with a part that has no semicolon. */
  lemma {:induction false} PartsOn(a: string, b: string)
    requires ';' !in b
    ensures Parts(a + ";" + b) == Parts(a) + [b]
  {
    hide Parts;
    if b == "" {
      assert a + ";" + b == a + [';'];
      PartsStep(a, ';');
    } else {
      var front, c := b[..|b|-1], b[|b|-1];
      assert forall x :: x in front ==> x in b;
      PartsOn(a, front);
      assert a + ";" + b == (a + ";" + front) + [c];
      PartsStep(a + ";" + front, c);
      var ps := Parts(a) + [front];
      assert front + [c] == b;
      assert ps[|ps|-1 := b] == Parts(a) + [b];
    }
  }

  /** A parameter string made of these texts. */
  function ParamText(xs: seq<string>): string {
    if xs == [] then ""
    else if |xs| == 1 then xs[0]
    else ParamText(xs[..|xs|-1]) + ";" + xs[|xs|-1]
  }

  lemma {:induction false} PartsOfText(xs: seq<string>)
    requires xs != [] && forall x :: x in xs ==> ';' !in x
    ensures Parts(ParamText(xs)) == xs
  {
    hide Parts;
    var front, last := xs[..|xs|-1], xs[|xs|-1];
    if |xs| == 1 {
      OnePart(last);
    } else {
      PartsOfText(front);
      PartsOn(ParamText(front), last);
    }
  }

  /** Up to 16 numbers written as parameters are read back, each modulo 2^32. */
  lemma ParamsRead(xs: seq<string>)
    requires 0 < |xs| <= MAX_VALUES && forall x :: x in xs ==> IsNumber(x)
    ensures |Values(ParamText(xs))| == |xs|
    ensures forall i :: 0 <= i < |xs| ==> Values(ParamText(xs))[i] == ValueOf(xs[i]) % U32
  {
    hide Parts, Number, ParamText, IsNumber, ValueOf;
    forall x | x in xs
      ensures ';' !in x
    {
      NumberOfDigits(x);
    }
    PartsOfText(xs);
    forall i | 0 <= i < |xs|
      ensures Values(ParamText(xs))[i] == ValueOf(xs[i]) % U32
    {
      NumberOfDigits(xs[i]);
    }
  }

  /** Written parameters are read back if and only if all of them are below 2^32. */
  lemma ParamsReadBack(xs: seq<string>)
    requires 0 < |xs| <= MAX_VALUES && forall x :: x in xs ==> IsNumber(x)
    ensures |Values(ParamText(xs))| == |xs|
    ensures (forall i :: 0 <= i < |xs| ==> Values(ParamText(xs))[i] == ValueOf(xs[i]))
       <==> (forall i :: 0 <= i < |xs| ==> ValueOf(xs[i]) < U32)
  {
    hide Values, ParamText, ValueOf, IsNumber;
    ParamsRead(xs);
  }

  lemma OneText(text: string)
    ensures ParamText([text]) == text
  {
  }

  lemma OneValue(text: string)
    requires IsNumber(text)
    ensures |Values(text)| == 1 && Values(text)[0] == ValueOf(text) % U32
  {
    hide Values, ParamText, ValueOf, IsNumber;
    OneText(text);
    ParamsRead([text]);
  }

  // ----- where a motion leads -----

  /** A number that is missing or zero stands for one. */
  function Given(n: nat): (m: nat)
    ensures m > 0
  {
    if n == 0 then 1 else n
  }

  /** The number that the terminal works with when `n` is written. */
  function Read(n: nat): (m: nat)
    ensures 0 < m < U32
  {
    Given(n % U32)
  }

  /** Where the standard wants a motion to lead: as far as is written, or to the edge. */
  function Meant(row: nat, col: nat, rows: nat, cols: nat, n: nat, n2: nat, final: char): (p: (nat, nat))
    requires row < rows && col < cols && n > 0 && n2 > 0 && IsMotion(final)
    ensures p.0 < rows && p.1 < cols
  {
    if final == 'A' then (if n > row then 0 else row - n, col)
    else if final == 'B' then (Min(row + n, rows - 1), col)
    else if final == 'C' then (row, Min(col + n, cols - 1))
    else if final == 'D' then (row, if n > col then 0 else col - n)
    else if final == 'E' then (Min(row + n, rows - 1), 0)
    else if final == 'F' then (if n > row then 0 else row - n, 0)
    else if final == 'G' then (row, Min(n - 1, cols - 1))
    else if final == 'd' then (Min(n - 1, rows - 1), col)
    else (Min(n - 1, rows - 1), Min(n2 - 1, cols - 1))
  }

  /** The number is small enough, or what is read of it leads to the edge all the same. */
  predicate Meets(at: nat, edge: nat, n: nat) {
    n < U32 || at + Read(n) >= edge
  }

  /** The numbers with which a motion does what the standard wants: they are not too large to be
      read, unless they lead to the edge, and a forward motion does not wrap around. */
  predicate Harmless(row: nat, col: nat, rows: nat, cols: nat, n: nat, n2: nat, final: char)
    requires row < rows && col < cols && IsMotion(final)
  {
    if final == 'A' || final == 'F' then Meets(0, row, n)
    else if final == 'D' then Meets(0, col, n)
    else if final == 'B' || final == 'E' then row + Read(n) < U32 && Meets(row, rows - 1, n)
    else if final == 'C' then col + Read(n) < U32 && Meets(col, cols - 1, n)
    else if final == 'G' then Meets(0, cols, n)
    else if final == 'd' then Meets(0, rows, n)
    else Meets(0, rows, n) && Meets(0, cols, n2)
  }

  /** Backward motion is exact, or stopped at the start, exactly for harmless numbers. */
  lemma BackwardExact(at: nat, n: nat)
    requires at < U32
    ensures Backward(at, Read(n)) == (if Given(n) > at then 0 else at - Given(n)) <==> Meets(0, at, n)
  {
    assert n < U32 ==> n % U32 == n;
  }

  /** Forward motion in wrapping arithmetic is exact, or stopped at the edge, exactly when the sum
      does not wrap around and the number was read in full or leads to the edge anyway. */
  lemma ForwardExact(at: nat, n: nat, max: nat)
    requires at <= max < U32
    ensures Forward(at, Read(n), max) == Min(at + Given(n), max) <==> at + Read(n) < U32 && Meets(at, max, n)
  {
    assert n < U32 ==> n % U32 == n;
  }

  lemma OneBasedExact(n: nat, count: nat)
    requires 0 < count < U32
    ensures Position(Read(n), count) == Min(Given(n) - 1, count - 1) <==> Meets(0, count, n)
  {
    assert n < U32 ==> n % U32 == n;
  }

  lemma TargetExact(row: nat, col: nat, rows: nat, cols: nat, n: nat, n2: nat, final: char)
    requires row < rows <= MAX_ROWS && col < cols <= MAX_COLS && IsMotion(final)
    ensures Target(row, col, rows, cols, Read(n), Read(n2), final) == Meant(row, col, rows, cols, Given(n), Given(n2), final)
       <==> Harmless(row, col, rows, cols, n, n2, final)
  {
    hide Read, Given, Meets, Forward, Backward, Position, Min;
    BackwardExact(row, n);
    BackwardExact(col, n);
    ForwardExact(row, n, rows - 1);
    ForwardExact(col, n, cols - 1);
    OneBasedExact(n, cols);
    OneBasedExact(n, rows);
    OneBasedExact(n2, cols);
  }

  /** The effect of a motion, by the parameters that are read. */
  lemma MotionStep(t: State, final: char)
    requires Ok(t) && t.escape && t.csi && IsMotion(final)
    ensures var vs := Values(t.params);
            var p := Target(t.row, t.col, t.rows, t.cols, Param(vs, 0, 1), Param(vs, 1, 1), final);
            Step(t, final) == Reset(t.(row := p.0, col := p.1))
  {
    hide Ok, Values, Sgr, ClearScreen, ClearLine, Restore, PutRaw, Target;
    CursorOk(t);
    assert Step(t, final) == Reset(Control(t, final));
  }

  /** A cursor motion with any number, however large and with any zeros in front, leads where the
      standard wants, and ends the sequence, if and only if the number is harmless. Without digits
      it is by one, or to the first row or column. */
  lemma MotionExact(t: State, final: char)
    requires Ok(t) && t.escape && t.csi && IsMotion(final) && IsNumber(t.params)
    ensures var n := ValueOf(t.params); var p := Meant(t.row, t.col, t.rows, t.cols, Given(n), 1, final);
            Step(t, final) == Reset(t.(row := p.0, col := p.1)) <==> Harmless(t.row, t.col, t.rows, t.cols, n, 1, final)
  {
    hide Ok, Values, Target, Meant, Harmless, ValueOf, IsNumber;
    CursorOk(t);
    OneValue(t.params);
    MotionStep(t, final);
    TargetExact(t.row, t.col, t.rows, t.cols, ValueOf(t.params), 1, final);
  }

  /** The same for a position with both of its numbers. */
  lemma PositionExact(t: State, a: string, b: string, final: char)
    requires Ok(t) && t.escape && t.csi && (final == 'H' || final == 'f') && IsNumber(a) && IsNumber(b)
    requires t.params == ParamText([a, b])
    ensures var n, n2 := ValueOf(a), ValueOf(b);
            var p := Meant(t.row, t.col, t.rows, t.cols, Given(n), Given(n2), final);
            Step(t, final) == Reset(t.(row := p.0, col := p.1)) <==> Meets(0, t.rows, n) && Meets(0, t.cols, n2)
  {
    hide Ok, Values, ParamText, Target, Meant, ValueOf, IsNumber;
    CursorOk(t);
    ParamsRead([a, b]);
    MotionStep(t, final);
    TargetExact(t.row, t.col, t.rows, t.cols, ValueOf(a), ValueOf(b), final);
  }

  /** Without a number a motion goes by one, or to the first row or column. */
  lemma MotionAlone(t: State, final: char)
    requires Ok(t) && t.escape && t.csi && IsMotion(final) && t.params == ""
    ensures var p := Meant(t.row, t.col, t.rows, t.cols, 1, 1, final);
            Step(t, final) == Reset(t.(row := p.0, col := p.1))
  {
    hide Ok, Values, Target, Meant;
    CursorOk(t);
    MotionExact(t, final);
  }

  /** Asked to move down by 2^32 - 1 rows, a cursor that is not in the first row goes up by one. */
  lemma DownGoesUp(t: State)
    requires Ok(t) && t.escape && t.csi && t.row > 0 && IsNumber(t.params) && ValueOf(t.params) == U32 - 1
    ensures Step(t, 'B') == Reset(t.(row := t.row - 1))
  {
    hide Ok, Values, ValueOf, IsNumber;
    CursorOk(t);
    OneValue(t.params);
    MotionStep(t, 'B');
  }

  /** Asked to move down by 2^32 + 1 rows, a cursor goes down by one. */
  lemma DownByOne(t: State)
    requires Ok(t) && t.escape && t.csi && t.row + 1 < t.rows && IsNumber(t.params) && ValueOf(t.params) == U32 + 1
    ensures Step(t, 'B') == Reset(t.(row := t.row + 1))
  {
    hide Ok, Values, ValueOf, IsNumber;
    CursorOk(t);
    OneValue(t.params);
    MotionStep(t, 'B');
  }

  /** Moving down and up again by the same number of rows comes back, unless the edge is met. */
  lemma DownAndUp(row: nat, n: nat, max: nat)
    requires row <= max < U32 && n < U32 && row + n <= max
    ensures Backward(Forward(row, n, max), n) == row
  {
  }
}
