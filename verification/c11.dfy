/** What the C standard asks of strtol and strtoul (C11, 7.22.1.4), and exactly when the C library
    (cleonos/c/src/libc_stdlib.c) does it. */
module C11 {
  import opened Machine
  import opened Numbers
  import opened Stdlib

  // ----- the standard -----

  predicate IsRun(x: string, base: nat) {
    x != "" && AllDigits(x, base)
  }

  predicate HasPrefix(x: string) {
    |x| >= 2 && x[0] == '0' && (x[1] == 'x' || x[1] == 'X')
  }

  predicate IsHex(x: string) {
    HasPrefix(x) && IsRun(x[2..], 16)
  }

  /** The expected form of a number without sign: for base 0 that of an integer constant. */
  predicate Expected(x: string, base: int) {
    if base == 0 then IsHex(x) || (IsRun(x, 8) && x[0] == '0') || (IsRun(x, 10) && x[0] != '0')
    else (base == 16 && IsHex(x)) || (base > 0 && IsRun(x, base))
  }

  function ValueIn(x: string, base: int): nat
    requires Expected(x, base)
  {
    if HasPrefix(x) && (base == 0 || base == 16) then assert IsHex(x) by { NoRun(x); } ValueOf(x[2..], 16)
    else if base == 0 && x[0] == '0' then ValueOf(x, 8)
    else if base == 0 then ValueOf(x, 10)
    else ValueOf(x, base)
  }

  /** The letter of the prefix is no digit where a prefix is allowed. */
  lemma NoRun(x: string)
    requires HasPrefix(x)
    ensures !AllDigits(x, 8) && !AllDigits(x, 10) && !AllDigits(x, 16)
  {
    assert x[1] in x;
  }

  /** Where a number without its sign can begin. */
  function NumberAt(s: string): (p: nat)
    ensures p <= |s|
  {
    var p := SpaceEnd(s);
    if CharAt(s, p) == '+' || CharAt(s, p) == '-' then p + 1 else p
  }

  predicate IsNegative(s: string) {
    CharAt(s, SpaceEnd(s)) == '-'
  }

  /** The subject sequence ends at `e`: it is the longest part of the expected form. */
  ghost predicate EndsAt(s: string, base: int, e: nat) {
    && NumberAt(s) <= e <= |s| && Expected(s[NumberAt(s)..e], base)
    && forall k :: e < k <= |s| ==> !Expected(s[NumberAt(s)..k], base)
  }

  /** The result that the standard asks of strtol; none of a text without a number. */
  ghost predicate AllowedLong(s: string, base: int, r: (int, nat)) {
    if exists e :: EndsAt(s, base, e) then
      && EndsAt(s, base, r.1)
      && var v := ValueIn(s[NumberAt(s)..r.1], base);
         r.0 == Clamp(if IsNegative(s) then -(v as int) else v)
    else r == (0, 0)
  }

  /** The result that the standard asks of strtoul: a value that is too large counts as such with
      either sign. */
  ghost predicate AllowedUnsigned(s: string, base: int, r: (nat, nat)) {
    if exists e :: EndsAt(s, base, e) then
      && EndsAt(s, base, r.1)
      && var v := ValueIn(s[NumberAt(s)..r.1], base);
         r.0 == if v > ULONG_MAX then ULONG_MAX else if IsNegative(s) then (U64 - v) % U64 else v
    else r == (0, 0)
  }

  // ----- what the code reads -----

  /** Base 16, and a prefix that no digit follows. */
  predicate BarePrefix(s: string, base: int) {
    base == 16 && HasPrefix(s[NumberAt(s)..]) && !IsDigitIn(CharAt(s, NumberAt(s) + 2), 16)
  }

  lemma NotExpected(x: string, base: int)
    requires base == 0 || 2 <= base <= 36
    ensures x == "" ==> !Expected(x, base)
    ensures x != "" && !IsDigitIn(x[0], if base == 0 then 10 else base) ==> !Expected(x, base)
  {
    if x != "" { assert x[0] in x; }
  }

  lemma RunTooLong(s: string, p: nat, e: nat, k: nat, base: nat)
    requires p <= e < k <= |s| && !IsDigitIn(s[e], base)
    ensures !AllDigits(s[p..k], base)
  {
    assert s[p..k][e-p] == s[e];
    assert s[e] in s[p..k];
  }

  lemma DigitBehind(x: string)
    ensures IsHex(x) ==> |x| > 2 && IsDigitIn(x[2], 16)
  {
    if IsHex(x) {
      assert x[2..][0] == x[2];
      assert x[2] in x[2..];
    }
  }

  /** With a prefix and a digit behind it. */
  lemma ReadsHex(s: string, base: int, e: nat)
    requires (base == 0 || base == 16) && HasPrefix(s[NumberAt(s)..])
    requires NumberAt(s) + 2 < e == RunEnd(s, NumberAt(s) + 2, 16)
    ensures EndsAt(s, base, e) && ValueIn(s[NumberAt(s)..e], base) == ValueOf(s[NumberAt(s)+2..e], 16)
  {
    hide RunEnd, IsDigitIn, ValueOf;
    var p := NumberAt(s);
    var x := s[p..e];
    assert x[2..] == s[p+2..e];
    assert x[0] == s[p..][0] && x[1] == s[p..][1];
    NoRun(x);
    forall k | e < k <= |s|
      ensures !Expected(s[p..k], base)
    {
      var y := s[p..k];
      assert y[2..] == s[p+2..k];
      assert y[0] == s[p..][0] && y[1] == s[p..][1];
      NoRun(y);
      RunTooLong(s, p + 2, e, k, 16);
    }
  }

  /** Digits of `radix` without a prefix. */
  lemma ReadsRun(s: string, base: int, radix: nat, e: nat)
    requires base == 0 || 2 <= base <= 36
    requires radix == if base != 0 then base else if CharAt(s, NumberAt(s)) == '0' then 8 else 10
    requires NumberAt(s) < e == RunEnd(s, NumberAt(s), radix)
    requires (base == 0 || base == 16) && HasPrefix(s[NumberAt(s)..]) ==> base == 0 && !IsDigitIn(CharAt(s, NumberAt(s) + 2), 16)
    ensures EndsAt(s, base, e) && ValueIn(s[NumberAt(s)..e], base) == ValueOf(s[NumberAt(s)..e], radix)
  {
    hide RunEnd, ValueOf;
    var p := NumberAt(s);
    var x := s[p..e];
    assert x[0] == s[p];
    if HasPrefix(x) {
      NoRun(x);
      assert s[p..][0] == x[0] && s[p..][1] == x[1];
    }
    forall k | e < k <= |s|
      ensures !Expected(s[p..k], base)
    {
      var y := s[p..k];
      assert y[0] == s[p];
      RunTooLong(s, p, e, k, radix);
      DigitBehind(y);
      assert |y| > 2 ==> s[p..][0] == y[0] && s[p..][1] == y[1] && y[2] == s[p+2];
    }
  }

  /** A text that has no digit where the code looks for one. */
  lemma ReadsNothing(s: string, base: int, radix: nat)
    requires base == 0 || 2 <= base <= 36
    requires radix == if base != 0 then base else if CharAt(s, NumberAt(s)) == '0' then 8 else 10
    requires RunEnd(s, NumberAt(s), radix) == NumberAt(s)
    ensures forall e :: !EndsAt(s, base, e)
  {
    hide RunEnd;
    var p := NumberAt(s);
    forall e | p <= e <= |s|
      ensures !Expected(s[p..e], base)
    {
      if e > p { assert s[p..e][0] == s[p]; }
      NotExpected(s[p..e], base);
    }
  }

  /** Behind the prefix there is no digit: the number is its zero. */
  lemma ReadsZero(s: string)
    requires BarePrefix(s, 16)
    ensures EndsAt(s, 16, NumberAt(s) + 1)
    ensures Number(s, 16) == None
  {
    var p := NumberAt(s);
    assert s[p..][0] == s[p] && s[p..][1] == s[p+1];
    assert s[p..p+1] == ['0'];
    forall k | p + 1 < k <= |s|
      ensures !Expected(s[p..k], 16)
    {
      RunTooLong(s, p, p + 1, k, 16);
      DigitBehind(s[p..k]);
      assert k > p + 2 ==> s[p..k][2] == s[p+2];
    }
  }

  /** What the code reads is the subject sequence of the standard, but for a bare prefix. */
  lemma ReadsSubject(s: string, base: int)
    requires (base == 0 || 2 <= base <= 36) && !BarePrefix(s, base)
    ensures match Number(s, base) {
              case Some((negative, v, e)) => EndsAt(s, base, e) && negative == IsNegative(s) && v == ValueIn(s[NumberAt(s)..e], base)
              case None => forall e :: !EndsAt(s, base, e)
            }
  {
    hide RunEnd, EndsAt, ValueOf, ValueIn, AllDigits;
    var p, h := NumberAt(s), Head(s, base);
    if p + 1 < |s| { assert s[p..][0] == s[p] && s[p..][1] == s[p+1]; }
    var e := RunEnd(s, h.at, h.base);
    if h.at == p + 2 {
      FirstDigit(s, p + 2, 16);
      ReadsHex(s, base, e);
    } else if e > p {
      ReadsRun(s, base, h.base, e);
    } else {
      ReadsNothing(s, base, h.base);
    }
  }

  lemma FirstDigit(s: string, at: nat, base: nat)
    requires at < |s| && IsDigitIn(s[at], base)
    ensures RunEnd(s, at, base) > at
  {
  }

  // ----- when the code does what the standard asks -----

  /** strtol returns what the standard asks, with its end, if and only if the text is not a bare
      prefix in base 16. */
  lemma StrtolExact(s: string, base: int)
    requires base == 0 || 2 <= base <= 36
    ensures AllowedLong(s, base, Strtol(s, base)) <==> !BarePrefix(s, base)
  {
    hide EndsAt, ValueIn, Number;
    if BarePrefix(s, base) {
      ReadsZero(s);
      Beyond0(s, base);
    } else {
      ReadsSubject(s, base);
    }
  }

  /** A subject sequence does not end at the start of the text. */
  lemma Beyond0(s: string, base: int)
    ensures !EndsAt(s, base, 0)
  {
    assert NumberAt(s) == 0 ==> s[0..0] == "";
  }

  /** strtoul returns what the standard asks, with its end, if and only if the text is not a bare
      prefix in base 16 and not a minus sign with a number that is too large. */
  lemma StrtoulExact(s: string, base: int)
    requires base == 0 || 2 <= base <= 36
    ensures AllowedUnsigned(s, base, Strtoul(s, base))
       <==> !BarePrefix(s, base) && !(Number(s, base).Some? && Number(s, base).value.0 && Number(s, base).value.1 > ULONG_MAX)
  {
    hide EndsAt, ValueIn, Number;
    if BarePrefix(s, base) {
      ReadsZero(s);
      Beyond0(s, base);
    } else {
      ReadsSubject(s, base);
    }
  }

  /** A minus sign and a number that is too large give 1. */
  lemma NegativeOverflow(digits: string)
    requires digits != "" && AllDigits(digits, 10) && ValueOf(digits, 10) >= U64
    ensures Strtoul("-" + digits, 10) == (1, 1 + |digits|) && !AllowedUnsigned("-" + digits, 10, (1, 1 + |digits|))
  {
    hide AllowedUnsigned, BarePrefix, Number, AllDigits, ValueOf;
    assert Signed(true, digits) == "-" + digits;
    NumberOfDigits(true, digits);
    StrtoulExact("-" + digits, 10);
  }

  /** A bare prefix is read as nothing, where the standard reads its zero. */
  lemma BareZero()
    ensures Strtol("0x", 16) == (0, 0) && Strtoul("0x", 16) == (0, 0)
    ensures AllowedLong("0x", 16, (0, 1)) && !AllowedLong("0x", 16, (0, 0))
    ensures AllowedUnsigned("0x", 16, (0, 1)) && !AllowedUnsigned("0x", 16, (0, 0))
  {
    var s := "0x";
    assert s[0..] == s;
    ReadsZero(s);
    Beyond0(s, 16);
    assert s[0..1] == "0" && ValueOf("0", 16) == 0 by { assert "0"[..0] == ""; }
  }
}
