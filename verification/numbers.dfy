/** Numbers as digit strings, for the printing (cleonos/c/src/stdio.c) and parsing
    (cleonos/c/src/libc_stdlib.c) of the C library (C11, 7.21.6.5 and 7.22.1.4). */
module Numbers {
  import opened Machine

  /** clib_digit_value: -1 for a character that is no digit in any base */
  function DigitValue(c: char): (d: int)
    ensures -1 <= d < 36
  {
    if '0' <= c <= '9' then c as int - '0' as int
    else if 'a' <= c <= 'z' then 10 + (c as int - 'a' as int)
    else if 'A' <= c <= 'Z' then 10 + (c as int - 'A' as int)
    else -1
  }

  predicate IsDigitIn(c: char, base: nat) {
    0 <= DigitValue(c) < base
  }

  predicate AllDigits(s: string, base: nat) {
    forall c :: c in s ==> IsDigitIn(c, base)
  }

  /** The number that a digit string stands for. */
  function ValueOf(s: string, base: nat): nat
    requires AllDigits(s, base)
  {
    if s == "" then 0
    else
      assert s[|s|-1] in s;
      ValueOf(s[..|s|-1], base) * base + DigitValue(s[|s|-1])
  }

  function DigitChar(d: nat, upper: bool): (c: char)
    requires d < 16
    ensures DigitValue(c) == d
  {
    if d < 10 then ('0' as nat + d) as char else ((if upper then 'A' else 'a') as nat + (d - 10)) as char
  }

  /** The digits of a number without leading zeros. */
  function Digits(n: nat, base: nat, upper: bool): (s: string)
    requires 2 <= base <= 16
    ensures s != "" && AllDigits(s, base)
    decreases n
  {
    if n < base then [DigitChar(n, upper)]
    else
      Smaller(n, base);
      Digits(n / base, base, upper) + [DigitChar(n % base, upper)]
  }

  lemma Smaller(n: nat, base: nat)
    requires 2 <= base <= n
    ensures n / base < n && n % base < base && n == n / base * base + n % base
  {
  }

  /** Printing and reading back. */
  lemma {:induction false} ValueOfDigits(n: nat, base: nat, upper: bool)
    requires 2 <= base <= 16
    ensures ValueOf(Digits(n, base, upper), base) == n
    decreases n
  {
    if n < base {
      assert [DigitChar(n, upper)][..0] == "";
      assert ValueOf("", base) == 0;
    } else {
      Smaller(n, base);
      ValueOfDigits(n / base, base, upper);
      var front, c := Digits(n / base, base, upper), DigitChar(n % base, upper);
      assert (front + [c])[..|front|] == front;
    }
  }

  lemma {:induction false} NoLeadingZero(n: nat, base: nat, upper: bool)
    requires 2 <= base <= 16
    ensures n > 0 ==> Digits(n, base, upper)[0] != '0'
    decreases n
  {
    if n >= base {
      Smaller(n, base);
      NoLeadingZero(n / base, base, upper);
      if n / base == 0 { assert false; }
    }
  }

  function Pow(base: nat, k: nat): nat {
    if k == 0 then 1 else base * Pow(base, k - 1)
  }

  lemma {:induction false} PowGrows(base: nat, k: nat)
    requires base >= 2
    ensures Pow(2, k) <= Pow(base, k)
  {
    if k > 0 {
      PowGrows(base, k - 1);
      assert base * Pow(base, k - 1) >= 2 * Pow(base, k - 1);
    }
  }

  /** A number below base^k has at most k digits. */
  lemma {:induction false} DigitsFit(n: nat, base: nat, upper: bool, k: nat)
    requires 2 <= base <= 16 && n < Pow(base, k) && k > 0
    ensures |Digits(n, base, upper)| <= k
    decreases k
  {
    if n >= base {
      Smaller(n, base);
      PowOne(base);
      if k == 1 {
        assert false;
      }
      Quotient(n, base, Pow(base, k - 1));
      DigitsFit(n / base, base, upper, k - 1);
    }
  }

  lemma PowOne(b: nat)
    ensures Pow(b, 1) == b
  {
    assert Pow(b, 0) == 1;
  }

  lemma Quotient(n: nat, b: nat, m: nat)
    requires b > 0 && n < b * m
    ensures n / b < m
  {
    var q := n / b;
    assert q * b <= n;
    assert m <= q ==> m * b <= q * b;
  }

  lemma Pow64()
    ensures Pow(2, 64) == U64
  {
    PowSum(2, 32, 32);
    PowSum(2, 16, 16);
    PowSum(2, 8, 8);
    PowSum(2, 4, 4);
    assert Pow(2, 4) == 16 by {
      assert Pow(2, 1) == 2 && Pow(2, 2) == 2 * Pow(2, 1) && Pow(2, 3) == 2 * Pow(2, 2) && Pow(2, 4) == 2 * Pow(2, 3);
    }
  }

  lemma {:induction false} PowSum(b: nat, i: nat, j: nat)
    ensures Pow(b, i + j) == Pow(b, i) * Pow(b, j)
  {
    if i > 0 {
      PowSum(b, i - 1, j);
      Associate(b, Pow(b, i - 1), Pow(b, j));
    }
  }

  lemma Associate(a: nat, b: nat, c: nat)
    ensures a * (b * c) == (a * b) * c
  {
  }

  /** 20 decimal digits hold every 64-bit number. */
  lemma TenToTwenty()
    ensures Pow(10, 20) > U64
  {
    PowSum(10, 10, 10);
    PowSum(10, 5, 5);
    assert Pow(10, 5) == 100000 by {
      assert Pow(10, 1) == 10 && Pow(10, 2) == 10 * Pow(10, 1) && Pow(10, 3) == 10 * Pow(10, 2);
      assert Pow(10, 4) == 10 * Pow(10, 3) && Pow(10, 5) == 10 * Pow(10, 4);
    }
  }

  /** 64 digits hold every 64-bit number in every base. */
  lemma WordFits(n: nat, base: nat, upper: bool)
    requires 2 <= base <= 16 && n < U64
    ensures |Digits(n, base, upper)| <= 64
  {
    Pow64();
    PowGrows(base, 64);
    DigitsFit(n, base, upper, 64);
  }

  /** The digits of every base are 0 to 9 and then the letters, in either case; nothing else is one. */
  lemma DigitsInOrder(c: char)
    ensures DigitValue(c) == if '0' <= c <= '9' then c as int - 48
                             else if 'a' <= c <= 'z' then c as int - 87 else if 'A' <= c <= 'Z' then c as int - 55 else -1
  {
  }

  lemma DigitsPrinted(d: nat)
    requires d < 16
    ensures DigitChar(d, false) == "0123456789abcdef"[d] && DigitChar(d, true) == "0123456789ABCDEF"[d]
  {
  }
}
