/** The number parsers of the C library (cleonos/c/src/libc_stdlib.c). */
module Stdlib {
  import opened Machine
  import opened Numbers

  const LONG_MAX: int := 0x7FFF_FFFF_FFFF_FFFF
  const LONG_MIN: int := -0x8000_0000_0000_0000
  const ULONG_MAX: nat := U64 - 1

  predicate IsSpace(c: char) {
    c == ' ' || 9 <= c as nat <= 13
  }

  /** The character at `i` of a terminated string. */
  function CharAt(s: string, i: nat): char {
    if i < |s| then s[i] else 0 as char
  }

  function SpaceEnd(s: string): (n: nat)
    ensures n <= |s| && (n < |s| ==> !IsSpace(s[n])) && forall k :: 0 <= k < n ==> IsSpace(s[k])
  {
    if s == "" || !IsSpace(s[0]) then 0
    else
      var n := 1 + SpaceEnd(s[1..]);
      assert forall k :: 1 <= k < n ==> s[k] == s[1..][k-1];
      n
  }

  /** Where the digits begin, their base, and the sign in front of them. */
  datatype Start = Start(negative: bool, base: int, at: nat)

  /** Skips white space, a sign and the prefix that the base allows. */
  function Head(s: string, base: int): (r: Start)
    ensures r.at <= |s|
  {
    var p0 := SpaceEnd(s);
    var signed := CharAt(s, p0) == '+' || CharAt(s, p0) == '-';
    var negative := CharAt(s, p0) == '-';
    var p := if signed then p0 + 1 else p0;
    var hex := CharAt(s, p) == '0' && (CharAt(s, p + 1) == 'x' || CharAt(s, p + 1) == 'X');
    if base == 0 then
      if CharAt(s, p) == '0' then
        if hex && IsDigitIn(CharAt(s, p + 2), 16) then Start(negative, 16, p + 2) else Start(negative, 8, p)
      else Start(negative, 10, p)
    else if base == 16 && hex then Start(negative, 16, p + 2)
    else Start(negative, base, p)
  }

  /** Length of the run of digits from `at` on. */
  function RunEnd(s: string, at: nat, base: nat): (e: nat)
    requires at <= |s|
    ensures at <= e <= |s| && AllDigits(s[at..e], base) && (e < |s| ==> !IsDigitIn(s[e], base))
    decreases |s| - at
  {
    if at == |s| || !IsDigitIn(s[at], base) then at
    else
      var e := RunEnd(s, at + 1, base);
      assert s[at..e] == [s[at]] + s[at+1..e];
      e
  }

  function Clamp(v: int): int {
    if v > LONG_MAX then LONG_MAX else if v < LONG_MIN then LONG_MIN else v
  }

  /** The digits that a parse takes, with their value; None when there are none. */
  function Number(s: string, base: int): (r: Option<(bool, nat, nat)>)
    ensures r.Some? ==> r.value.2 <= |s|
  {
    var h := Head(s, base);
    if h.base < 2 || h.base > 36 then None
    else
      var e := RunEnd(s, h.at, h.base);
      if e == h.at then None else Some((h.negative, ValueOf(s[h.at..e], h.base), e))
  }

  /** What strtol returns, and where it stops. */
  function Strtol(s: string, base: int): (r: (int, nat))
    ensures LONG_MIN <= r.0 <= LONG_MAX && r.1 <= |s|
  {
    match Number(s, base)
    case None => (0, 0)
    case Some((negative, v, e)) => (Clamp(if negative then -(v as int) else v), e)
  }

  /** What strtoul returns, and where it stops: a sign negates in 64 bits. */
  function Strtoul(s: string, base: int): (r: (nat, nat))
    ensures r.0 <= ULONG_MAX && r.1 <= |s|
  {
    match Number(s, base)
    case None => (0, 0)
    case Some((negative, v, e)) =>
      var c := if v > ULONG_MAX then ULONG_MAX else v;
      (if negative then (U64 - c) % U64 else c, e)
  }

  // ----- the loops -----

  method SkipSpace(s: string) returns (p: nat)
    ensures p == SpaceEnd(s)
  {
    p := 0;
    while p < |s| && IsSpace(s[p])
      invariant p <= |s| && forall k :: 0 <= k < p ==> IsSpace(s[k])
    {
      p := p + 1;
    }
  }

  /** Sign and prefix, as both parsers read them */
  method ReadHead(s: string, base: int) returns (r: Start)
    ensures r == Head(s, base)
  {
    var p := SkipSpace(s);
    var negative, b := false, base;
    if CharAt(s, p) == '+' || CharAt(s, p) == '-' {
      negative := CharAt(s, p) == '-';
      p := p + 1;
    }
    if b == 0 {
      if CharAt(s, p) == '0' {
        if (CharAt(s, p + 1) == 'x' || CharAt(s, p + 1) == 'X') && IsDigitIn(CharAt(s, p + 2), 16) {
          b := 16;
          p := p + 2;
        } else {
          b := 8;
        }
      } else {
        b := 10;
      }
    } else if b == 16 {
      if CharAt(s, p) == '0' && (CharAt(s, p + 1) == 'x' || CharAt(s, p + 1) == 'X') {
        p := p + 2;
      }
    }
    return Start(negative, b, p);
  }

  /** The digit loop: the value in 64 bits, stopped at `limit` from the first digit on that leads
      beyond it. */
  method ReadDigits(s: string, at: nat, base: nat, limit: nat) returns (value: nat, overflow: bool, p: nat)
    requires at <= |s| && 2 <= base <= 36 && 36 <= limit < U64
    ensures p == RunEnd(s, at, base)
    ensures overflow == (ValueOf(s[at..p], base) > limit)
    ensures value == if overflow then limit else ValueOf(s[at..p], base)
  {
    hide ValueOf;
    value, overflow, p := 0, false, at;
    NoDigits(base);
    assert s[at..at] == "";
    while p < |s|
      invariant at <= p <= |s| && AllDigits(s[at..p], base) && RunEnd(s, p, base) == RunEnd(s, at, base)
      invariant overflow == (ValueOf(s[at..p], base) > limit)
      invariant value == if overflow then limit else ValueOf(s[at..p], base)
    {
      var digit := DigitValue(s[p]);
      if digit < 0 || digit >= base {
        return;
      }
      OneMore(s[at..p], s[p], base);
      assert s[at..p+1] == s[at..p] + [s[p]];
      Exceeds(value, digit, base, limit);
      if overflow { Beyond(ValueOf(s[at..p], base), digit, base, limit); }
      if value > (limit - digit) / base {
        overflow := true;
        value := limit;
      } else if !overflow {
        value := value * base + digit;
      }
      p := p + 1;
    }
  }

  lemma NoDigits(base: nat)
    ensures ValueOf("", base) == 0
  {
  }

  lemma OneMore(s: string, c: char, base: nat)
    requires AllDigits(s, base) && IsDigitIn(c, base)
    ensures AllDigits(s + [c], base) && ValueOf(s + [c], base) == ValueOf(s, base) * base + DigitValue(c)
  {
  }

  /** The test that avoids computing the product. */
  lemma Exceeds(value: nat, digit: nat, base: nat, limit: nat)
    requires base > 0 && digit <= limit
    ensures value > (limit - digit) / base <==> value * base + digit > limit
  {
    var q := (limit - digit) / base;
    assert q * base <= limit - digit < (q + 1) * base;
    assert value > q ==> value * base >= (q + 1) * base;
    assert value <= q ==> value * base <= q * base;
  }

  lemma Beyond(value: nat, digit: nat, base: nat, limit: nat)
    requires 2 <= base <= 36 && digit < base && value > limit >= 36
    ensures value * base + digit > limit && limit > (limit - digit) / base
  {
    assert value * base >= value;
    Exceeds(limit, digit, base, limit);
    assert limit * base >= 2 * limit;
  }

  /** strtol */
  method ParseLong(s: string, base: int) returns (value: int, end: nat)
    ensures (value, end) == Strtol(s, base)
  {
    hide ValueOf, RunEnd;
    var h := ReadHead(s, base);
    if h.base < 2 || h.base > 36 {
      return 0, 0;
    }
    var limit := if h.negative then LONG_MAX + 1 else LONG_MAX;
    var v, overflow, p := ReadDigits(s, h.at, h.base, limit);
    if p == h.at {
      return 0, 0;
    }
    if overflow {
      return if h.negative then LONG_MIN else LONG_MAX, p;
    }
    if h.negative {
      if v == LONG_MAX + 1 {
        return LONG_MIN, p;
      }
      return -(v as int), p;
    }
    return v, p;
  }

  /** strtoul */
  method ParseUnsigned(s: string, base: int) returns (value: nat, end: nat)
    ensures (value, end) == Strtoul(s, base)
  {
    hide ValueOf, RunEnd;
    var h := ReadHead(s, base);
    if h.base < 2 || h.base > 36 {
      return 0, 0;
    }
    var v, overflow, p := ReadDigits(s, h.at, h.base, ULONG_MAX);
    if p == h.at {
      return 0, 0;
    }
    return if h.negative then (U64 - v) % U64 else v, p;
  }

  // ----- digit strings -----

  function Signed(negative: bool, digits: string): string {
    if negative then "-" + digits else digits
  }

  lemma HeadOfDigits(negative: bool, digits: string, base: nat)
    requires digits != "" && AllDigits(digits, base) && base == 10
    ensures Head(Signed(negative, digits), base) == Start(negative, base, if negative then 1 else 0)
  {
    var s := Signed(negative, digits);
    assert digits[0] in digits;
    assert SpaceEnd(s) == 0;
  }

  lemma NumberOfDigits(negative: bool, digits: string)
    requires digits != "" && AllDigits(digits, 10)
    ensures Number(Signed(negative, digits), 10) == Some((negative, ValueOf(digits, 10), |Signed(negative, digits)|))
  {
    hide ValueOf, RunEnd, Head;
    var s, at := Signed(negative, digits), if negative then 1 else 0;
    HeadOfDigits(negative, digits, 10);
    assert s[at..] == digits && s[at..|s|] == digits;
  }

  /** On any string of decimal digits with a sign, strtol is the true number, stopped at the ends
      of the long range, and it reads all of them. */
  lemma StrtolClamps(negative: bool, digits: string)
    requires digits != "" && AllDigits(digits, 10)
    ensures Strtol(Signed(negative, digits), 10)
         == (Clamp(if negative then -(ValueOf(digits, 10) as int) else ValueOf(digits, 10)), |Signed(negative, digits)|)
  {
    hide ValueOf, Number;
    NumberOfDigits(negative, digits);
  }

  /** A 64-bit number in decimal. */
  function Decimal(v: int): string {
    Signed(v < 0, Digits(if v < 0 then -v else v, 10, false))
  }

  /** strtol of what is printed for any long, the smallest one included, gives it back. */
  lemma StrtolOfPrinted(v: int)
    requires LONG_MIN <= v <= LONG_MAX
    ensures Strtol(Decimal(v), 10) == (v, |Decimal(v)|)
  {
    hide ValueOf, Strtol;
    var m := if v < 0 then -v else v;
    ValueOfDigits(m, 10, false);
    StrtolClamps(v < 0, Digits(m, 10, false));
  }

  /** strtoul of what is printed for any unsigned long gives it back. */
  lemma StrtoulOfPrinted(n: nat)
    requires n <= ULONG_MAX
    ensures Strtoul(Digits(n, 10, false), 10) == (n, |Digits(n, 10, false)|)
  {
    hide ValueOf, Number;
    ValueOfDigits(n, 10, false);
    NumberOfDigits(false, Digits(n, 10, false));
  }

  lemma HeadOfHex(digits: string)
    requires digits != "" && AllDigits(digits, 16)
    ensures Head(digits, 16) == Start(false, 16, 0)
    ensures Head("0x" + digits, 0) == Head("0x" + digits, 16) == Start(false, 16, 2)
  {
    assert digits[0] in digits;
    assert |digits| > 1 ==> digits[1] in digits;
    assert SpaceEnd(digits) == 0 && SpaceEnd("0x" + digits) == 0;
  }

  /** The same for hexadecimal, in both cases, with or without the prefix that a pointer has. */
  lemma StrtoulOfHex(n: nat, upper: bool)
    requires n <= ULONG_MAX
    ensures var d := Digits(n, 16, upper);
            && Strtoul(d, 16) == (n, |d|)
            && Strtoul("0x" + d, 16) == Strtoul("0x" + d, 0) == (n, |d| + 2)
  {
    hide ValueOf, RunEnd, Head, Digits;
    var d := Digits(n, 16, upper);
    var s := "0x" + d;
    ValueOfDigits(n, 16, upper);
    HeadOfHex(d);
    assert d[0..] == d && d[0..|d|] == d && s[2..] == d && s[2..|s|] == d;
  }
}
