/** What the conversions of the format functions print (cleonos/c/src/stdio.c; C11, 7.21.6.1). */
module StdioFacts {
  import opened Machine
  import opened Numbers
  import opened Stdlib
  import opened Stdio

  // ----- a format is read from left to right -----

  function Rest(args: seq<Arg>, a: nat): seq<Arg> {
    if a <= |args| then args[a..] else []
  }

  lemma ArgShift(args: seq<Arg>, a: nat, b: nat)
    ensures ArgAt(args, a + b) == ArgAt(Rest(args, a), b) && Rest(args, a + b) == Rest(Rest(args, a), b)
  {
  }

  lemma CharShift(fmt: string, i: nat, k: nat)
    requires i <= |fmt|
    ensures CharAt(fmt, i + k) == CharAt(fmt[i..], k)
  {
  }

  /** Both formats look the same from here on. */
  ghost predicate Behind(fmt: string, i: nat, g: string) {
    i <= |fmt| && g == fmt[i..]
  }

  lemma SameHere(fmt: string, i: nat, g: string, k: nat)
    requires Behind(fmt, i, g)
    ensures |fmt| == |g| + i && CharAt(g, k) == CharAt(fmt, i + k) && SpecAt(fmt, i + k) == SpecAt(g, k) + i
    ensures k < |g| ==> g[k] == fmt[i+k]
  {
    hide SpecAt;
    CharShift(fmt, i, k);
    SpecShift(fmt, i, k);
  }

  lemma {:induction false} ExpandBehind(fmt: string, i: nat, g: string, args: seq<Arg>, a: nat, rest: seq<Arg>, k: nat, b: nat)
    requires Behind(fmt, i, g) && rest == Rest(args, a)
    ensures Expand(fmt, i + k, args, a + b) == Expand(g, k, rest, b)
    decreases |g| - k
  {
    hide Converted, TakesArg, Expand, SpecAt, CharAt, ArgAt, Rest, Behind;
    ArgShift(args, a, b);
    SameHere(fmt, i, g, k);
    SameHere(fmt, i, g, k + 1);
    var at := i + k;
    if k >= |g| {
      ExpandEnds(fmt, at, args, a + b);
      ExpandEnds(g, k, rest, b);
    } else if g[k] != '%' {
      ExpandChar(fmt, at, args, a + b);
      ExpandChar(g, k, rest, b);
      ExpandBehind(fmt, i, g, args, a, rest, k + 1, b);
    } else if CharAt(g, k + 1) == '%' {
      ExpandPercent(fmt, at, args, a + b);
      ExpandPercent(g, k, rest, b);
      ExpandBehind(fmt, i, g, args, a, rest, k + 2, b);
    } else {
      var j := SpecAt(g, k + 1);
      SameHere(fmt, i, g, j);
      ExpandConversion(fmt, at, args, a + b);
      ExpandConversion(g, k, rest, b);
      if j < |g| { ExpandBehind(fmt, i, g, args, a, rest, j + 1, if TakesArg(g[j]) then b + 1 else b); }
    }
  }

  lemma ExpandEnds(fmt: string, i: nat, args: seq<Arg>, a: nat)
    requires i >= |fmt|
    ensures Expand(fmt, i, args, a) == ""
  {
  }

  lemma ExpandChar(fmt: string, i: nat, args: seq<Arg>, a: nat)
    requires i < |fmt| && fmt[i] != '%'
    ensures Expand(fmt, i, args, a) == [fmt[i]] + Expand(fmt, i + 1, args, a)
  {
  }

  lemma ExpandPercent(fmt: string, i: nat, args: seq<Arg>, a: nat)
    requires i < |fmt| && fmt[i] == '%' && CharAt(fmt, i + 1) == '%'
    ensures Expand(fmt, i, args, a) == "%" + Expand(fmt, i + 2, args, a)
  {
  }

  lemma ExpandConversion(fmt: string, i: nat, args: seq<Arg>, a: nat)
    requires i < |fmt| && fmt[i] == '%' && CharAt(fmt, i + 1) != '%'
    ensures var j := SpecAt(fmt, i + 1);
            Expand(fmt, i, args, a)
              == if j >= |fmt| then ""
                 else Converted(fmt[j], j > i + 1, ArgAt(args, a)) + Expand(fmt, j + 1, args, if TakesArg(fmt[j]) then a + 1 else a)
  {
    hide SpecAt;
    ExpandNext(fmt, i, args, a);
  }

  /** What is left of the format is expanded like a format of its own. */
  lemma ExpandFrom(fmt: string, i: nat, args: seq<Arg>, a: nat)
    requires i <= |fmt|
    ensures Expand(fmt, i, args, a) == Expand(fmt[i..], 0, Rest(args, a), 0)
  {
    hide Expand, Rest;
    ExpandBehind(fmt, i, fmt[i..], args, a, Rest(args, a), 0, 0);
  }

  lemma SpecShift(fmt: string, i: nat, k: nat)
    requires i <= |fmt|
    ensures SpecAt(fmt, i + k) == SpecAt(fmt[i..], k) + i
  {
    hide CharAt;
    CharShift(fmt, i, k);
    CharShift(fmt, i, k + 1);
  }

  /** Text without a percent sign stands for itself. */
  lemma {:induction false} TextStays(x: string, fmt: string, args: seq<Arg>)
    requires '%' !in x
    ensures Expand(x + fmt, 0, args, 0) == x + Expand(fmt, 0, args, 0)
    decreases |x|
  {
    hide Converted, TakesArg, Expand;
    if x == "" {
      assert x + fmt == fmt;
    } else {
      assert x[0] in x && forall c :: c in x[1..] ==> c in x;
      TextStays(x[1..], fmt, args);
      ExpandChar(x + fmt, 0, args, 0);
      ExpandFrom(x + fmt, 1, args, 0);
      assert (x + fmt)[1..] == x[1..] + fmt && Rest(args, 0) == args;
      assert [x[0]] + x[1..] == x;
    }
  }

  /** Two percent signs print one. */
  lemma PercentSign(fmt: string, args: seq<Arg>)
    ensures Expand("%%" + fmt, 0, args, 0) == "%" + Expand(fmt, 0, args, 0)
  {
    hide Converted, TakesArg;
    ExpandFrom("%%" + fmt, 2, args, 0);
    assert ("%%" + fmt)[2..] == fmt && Rest(args, 0) == args;
  }

  predicate IsModifier(m: string) {
    m == "" || m == "l" || m == "ll" || m == "z"
  }

  predicate IsSpec(c: char) {
    c == 's' || c == 'c' || c == 'd' || c == 'i' || c == 'u' || c == 'x' || c == 'X' || c == 'p'
  }

  /** Each conversion takes the next argument and prints its text; the rest of the format goes on
      with the rest of the arguments. */
  lemma ConversionPrints(m: string, c: char, fmt: string, arg: Arg, args: seq<Arg>)
    requires IsModifier(m) && IsSpec(c)
    ensures Expand("%" + m + [c] + fmt, 0, [arg] + args, 0) == Converted(c, m != "", arg) + Expand(fmt, 0, args, 0)
  {
    hide Converted;
    var whole, all := "%" + m + [c] + fmt, [arg] + args;
    var j := 1 + |m|;
    assert whole[0] == '%' && whole[j] == c && whole[1..j] == m;
    SpecBehind(whole, m, c);
    ExpandNext(whole, 0, all, 0);
    ExpandFrom(whole, j + 1, all, 1);
    assert whole[j+1..] == fmt && Rest(all, 1) == args;
  }

  lemma SpecBehind(whole: string, m: string, c: char)
    requires IsModifier(m) && IsSpec(c) && |whole| > 1 + |m| && whole[1+|m|] == c
    requires whole[1..1+|m|] == m
    ensures SpecAt(whole, 1) == 1 + |m| && CharAt(whole, 1) != '%'
  {
    if m != "" { assert whole[1] == whole[1..1+|m|][0]; }
    if m == "ll" { assert whole[2] == whole[1..1+|m|][1]; }
  }

  /** Any other character behind the percent sign is printed with it, and takes no argument. */
  lemma UnknownPrints(c: char, fmt: string, args: seq<Arg>)
    requires !IsSpec(c) && c != '%' && c != 'l' && c != 'z'
    ensures Expand("%" + [c] + fmt, 0, args, 0) == "%" + [c] + Expand(fmt, 0, args, 0)
  {
    hide Expand, Converted;
    var whole := "%" + [c] + fmt;
    assert whole[1] == c;
    UnknownText(c, ArgAt(args, 0));
    ExpandNext(whole, 0, args, 0);
    ExpandFrom(whole, 2, args, 0);
    assert whole[2..] == fmt && Rest(args, 0) == args;
  }

  lemma UnknownText(c: char, arg: Arg)
    requires !IsSpec(c)
    ensures Converted(c, false, arg) == "%" + [c] && !TakesArg(c)
  {
    hide Digits, Decimal;
  }

  // ----- the text of each conversion -----

  /** d and i print the int that the low 32 bits of the argument stand for, and with a length
      modifier the long that all 64 do. */
  lemma SignedText(v: int, bits: nat, c: char)
    requires (c == 'd' || c == 'i') && bits < U64
    ensures -0x8000_0000 <= v < 0x8000_0000 && bits % U32 == v % U32 ==> Converted(c, false, Word(bits)) == Decimal(v)
    ensures -0x8000_0000_0000_0000 <= v < 0x8000_0000_0000_0000 && bits == v % U64 ==> Converted(c, true, Word(bits)) == Decimal(v)
  {
    hide Decimal;
    if -0x8000_0000 <= v < 0 { assert v % U32 == v + U32; }
    if -0x8000_0000_0000_0000 <= v < 0 { assert v % U64 == v + U64; }
  }

  /** u prints the low 32 bits as an unsigned number, and with a length modifier all 64; x and X do
      so in hexadecimal, in lower and in upper case. */
  lemma UnsignedText(bits: nat)
    requires bits < U64
    ensures Converted('u', false, Word(bits)) == Digits(bits % U32, 10, false) && Converted('u', true, Word(bits)) == Digits(bits, 10, false)
    ensures Converted('x', false, Word(bits)) == Digits(bits % U32, 16, false) && Converted('x', true, Word(bits)) == Digits(bits, 16, false)
    ensures Converted('X', false, Word(bits)) == Digits(bits % U32, 16, true) && Converted('X', true, Word(bits)) == Digits(bits, 16, true)
  {
    hide Digits, Converted;
    DecimalText(bits);
    HexText(bits, false, false);
    HexText(bits, true, false);
    HexText(bits, false, true);
    HexText(bits, true, true);
  }

  lemma DecimalText(bits: nat)
    requires bits < U64
    ensures Converted('u', false, Word(bits)) == Digits(bits % U32, 10, false) && Converted('u', true, Word(bits)) == Digits(bits, 10, false)
  {
    hide Digits, Decimal;
  }

  lemma HexText(bits: nat, wide: bool, upper: bool)
    requires bits < U64
    ensures Converted(if upper then 'X' else 'x', wide, Word(bits)) == Digits(if wide then bits else bits % U32, 16, upper)
  {
    hide Digits, Decimal;
  }

  /** A pointer is printed in hexadecimal behind 0x, a character as itself, a string as it is, and
      one that is missing as such. */
  lemma OtherText(bits: nat, wide: bool, s: string)
    requires bits < U64
    ensures Converted('p', wide, Word(bits)) == "0x" + Digits(bits, 16, false)
    ensures Converted('c', wide, Word(bits)) == [(bits % 256) as char]
    ensures Converted('s', wide, Text(s)) == s && Converted('s', wide, NoText) == "(null)"
  {
    hide Digits;
  }

  /** So any int that is printed with %d, amid other text, is read back. */
  lemma IntReadsBack(x: string, v: int, bits: nat)
    requires '%' !in x && -0x8000_0000 <= v < 0x8000_0000 && bits < U64 && bits % U32 == v % U32
    ensures var s := Expand(x + "%d", 0, [Word(bits)], 0); s == x + Decimal(v) && Strtol(s[|x|..], 10).0 == v
  {
    hide Decimal, Converted, Strtol, Expand;
    var args := [Word(bits)];
    TextStays(x, "%d", args);
    ConversionPrints("", 'd', "", args[0], []);
    assert "%" + "" + ['d'] + "" == "%d" && [args[0]] + [] == args;
    SignedText(v, bits, 'd');
    NothingExpands();
    StrtolOfPrinted(v);
    var s := Expand(x + "%d", 0, args, 0);
    assert Decimal(v) + "" == Decimal(v) && s == x + Decimal(v) && s[|x|..] == Decimal(v);
  }

  lemma NothingExpands()
    ensures Expand("", 0, [], 0) == ""
  {
  }
}
