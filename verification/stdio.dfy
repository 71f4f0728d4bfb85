/** Formatted printing into a buffer (cleonos/c/src/stdio.c; C11, 7.21.6.5). */
module Stdio {
  import opened Machine
  import opened Numbers
  import opened Stdlib

  const INT_MAX: nat := 0x7FFF_FFFF
  const NUL: char := 0 as char

  function Reverse(s: string): (r: string)
    ensures |r| == |s| && forall k :: 0 <= k < |s| ==> r[k] == s[|s|-1-k]
  {
    if s == "" then "" else [s[|s|-1]] + Reverse(s[..|s|-1])
  }

  lemma ReverseNext(s: string, c: char)
    ensures Reverse(s + [c]) == [c] + Reverse(s)
  {
    assert (s + [c])[..|s|] == s;
  }

  // ----- numbers -----

  /** The digit loop of clio_u64_to_base: the digits in reverse */
  method CollectDigits(value: nat, base: nat, upper: bool, tmp: array<char>) returns (pos: nat)
    requires 0 < value < U64 && 2 <= base <= 16 && tmp.Length == 64
    modifies tmp
    ensures pos <= 64 && Reverse(tmp[..pos]) == Digits(value, base, upper)
  {
    hide Digits, Reverse;
    var rest: nat := value;
    pos := 0;
    WordFits(value, base, upper);
    assert tmp[..0] == "";
    NoneReversed();
    while rest != 0 && pos < 64
      invariant pos <= 64 && Left(rest, base, upper) + Reverse(tmp[..pos]) == Digits(value, base, upper)
      decreases rest
    {
      var digit := rest % base;
      LeftNext(rest, base, upper);
      ghost var was := tmp[..pos];
      tmp[pos] := DigitChar(digit, upper);
      ReverseNext(was, tmp[pos]);
      assert tmp[..pos+1] == was + [tmp[pos]];
      assert Left(rest, base, upper) + Reverse(was) == Left(rest / base, base, upper) + ([tmp[pos]] + Reverse(was));
      pos := pos + 1;
      rest := rest / base;
    }
    Exhausted(rest, base, upper, tmp[..pos], Digits(value, base, upper));
  }

  /** The digits that are still to be taken. */
  function Left(rest: nat, base: nat, upper: bool): string
    requires 2 <= base <= 16
  {
    if rest == 0 then "" else Digits(rest, base, upper)
  }

  lemma NoneReversed()
    ensures Reverse("") == ""
  {
  }

  lemma LeftNext(rest: nat, base: nat, upper: bool)
    requires 2 <= base <= 16 && rest > 0
    ensures rest / base < rest && rest % base < base
    ensures Left(rest, base, upper) == Left(rest / base, base, upper) + [DigitChar(rest % base, upper)]
  {
    hide DigitChar;
    if rest >= base {
      Smaller(rest, base);
      assert rest / base > 0;
    } else {
      SmallDigit(rest, base);
    }
  }

  lemma SmallDigit(d: nat, base: nat)
    requires d < base
    ensures d / base == 0 && d % base == d
  {
  }

  lemma Exhausted(rest: nat, base: nat, upper: bool, got: string, digits: string)
    requires 2 <= base <= 16 && Left(rest, base, upper) + Reverse(got) == digits && |digits| <= 64
    requires rest == 0 || |got| >= 64
    ensures rest == 0 && Reverse(got) == digits
  {
  }

  /** clio_u64_to_base into the `size` characters of `out` from `at` on */
  method U64ToBase(value: nat, base: nat, upper: bool, out: array<char>, at: nat, size: nat) returns (len: nat)
    requires value < U64 && at + size <= out.Length
    modifies out
    ensures size < 2 || base < 2 || base > 16 ==> len == 0 && out[..] == old(out[..])
    ensures 2 <= base <= 16 && 2 <= size <= |Digits(value, base, upper)| ==> len == 0 && out[..] == old(out[..])
    ensures 2 <= base <= 16 && |Digits(value, base, upper)| < size ==>
              len == |Digits(value, base, upper)| && out[at..at+len] == Digits(value, base, upper) && out[at+len] == NUL
    ensures forall k :: 0 <= k < out.Length && !(at <= k <= at + len) ==> out[k] == old(out[k])
  {
    hide Digits, Reverse;
    if size < 2 || base < 2 || base > 16 {
      return 0;
    }
    if value == 0 {
      ZeroDigits(base, upper);
      out[at] := '0';
      out[at+1] := NUL;
      return 1;
    }
    var tmp := new char[64];
    var pos := CollectDigits(value, base, upper, tmp);
    if pos + 1 > size {
      return 0;
    }
    ghost var digits := Digits(value, base, upper);
    ghost var stored := tmp[..pos];
    var n, i := pos, 0;
    while pos > 0
      invariant tmp[..n] == stored
      invariant 0 <= pos && pos + i == n == |digits| && n + 1 <= size
      invariant out[at..at+i] == digits[..i]
      invariant forall k :: 0 <= k < out.Length && !(at <= k < at + i) ==> out[k] == old(out[k])
    {
      pos := pos - 1;
      assert digits[i] == stored[n-1-i] == tmp[..n][pos];
      out[at+i] := tmp[pos];
      i := i + 1;
    }
    out[at+i] := NUL;
    return i;
  }

  lemma ZeroDigits(base: nat, upper: bool)
    requires 2 <= base <= 16
    ensures Digits(0, base, upper) == "0"
  {
  }

  /** clio_i64_to_dec into all of `out`: the whole number with a terminator, or nothing when
      they do not fit */
  method I64ToDec(value: int, out: array<char>) returns (len: nat)
    requires LONG_MIN <= value <= LONG_MAX
    modifies out
    ensures len == if |Decimal(value)| < out.Length then |Decimal(value)| else 0
    ensures |Decimal(value)| < out.Length ==> out[..len] == Decimal(value) && out[len] == NUL
  {
    hide Digits;
    if out.Length < 2 {
      return 0;
    }
    var offset, magnitude := 0, 0;
    if value < 0 {
      out[0] := '-';
      offset := 1;
      if offset + 2 > out.Length {
        return 0;
      }
      magnitude := -(value + 1) + 1;
    } else {
      magnitude := value;
    }
    var n := U64ToBase(magnitude, 10, false, out, offset, out.Length - offset);
    if n == 0 {
      return 0;
    }
    assert out[..offset+n] == out[..offset] + out[offset..offset+n];
    return offset + n;
  }

  lemma TwentyDigits(n: nat, upper: bool)
    requires n < U64
    ensures 0 < |Digits(n, 10, upper)| <= 20
  {
    hide Digits;
    TenToTwenty();
    DigitsFit(n, 10, upper, 20);
  }

  lemma ShortDecimal(v: int)
    requires LONG_MIN <= v <= LONG_MAX
    ensures 0 < |Decimal(v)| <= 21
  {
    TwentyDigits(if v < 0 then -v else v, false);
  }

  // ----- what a format stands for -----

  /** An argument: a machine word, or a string that may be missing. What C leaves undefined,
      an argument that is not there or of the wrong kind, reads as zero or as no text. */
  datatype Arg = Word(bits: nat) | Text(text: string) | NoText

  function ArgAt(args: seq<Arg>, i: nat): Arg {
    if i < |args| then args[i] else Word(0)
  }

  function BitsOf(a: Arg): nat {
    if a.Word? then a.bits % U64 else 0
  }

  function TextOf(a: Arg): string {
    match a
    case Text(t) => t
    case NoText => "(null)"
    case Word(_) => ""
  }

  /** A word as a signed number of 32 or 64 bits. */
  function SignedOf(bits: nat, wide: bool): (v: int)
    requires bits < U64
    ensures LONG_MIN <= v <= LONG_MAX
  {
    if wide then if bits > LONG_MAX then bits - U64 else bits
    else if bits % U32 >= 0x8000_0000 then bits % U32 - U32 else bits % U32
  }

  function UnsignedOf(bits: nat, wide: bool): nat {
    if wide then bits else bits % U32
  }

  predicate TakesArg(spec: char) {
    spec in "scdiuxXp"
  }

  /** The text of one conversion. */
  function Converted(spec: char, wide: bool, a: Arg): string {
    var bits := BitsOf(a);
    if spec == 's' then TextOf(a)
    else if spec == 'c' then [(bits % 0x100) as char]
    else if spec == 'd' || spec == 'i' then Decimal(SignedOf(bits, wide))
    else if spec == 'u' then Digits(UnsignedOf(bits, wide), 10, false)
    else if spec == 'x' || spec == 'X' then Digits(UnsignedOf(bits, wide), 16, spec == 'X')
    else if spec == 'p' then "0x" + Digits(bits, 16, false)
    else "%" + [spec]
  }

  /** Where the conversion character stands behind the length modifiers at `i`. */
  function SpecAt(fmt: string, i: nat): (j: nat)
    ensures i <= j
  {
    if CharAt(fmt, i) == 'l' then if CharAt(fmt, i + 1) == 'l' then i + 2 else i + 1
    else if CharAt(fmt, i) == 'z' then i + 1
    else i
  }

  /** The whole output for the format from `i` on, with the arguments from `a` on. A format that
      ends inside a conversion ends the output. */
  function Expand(fmt: string, i: nat, args: seq<Arg>, a: nat): string
    decreases |fmt| - i
  {
    if i >= |fmt| then ""
    else if fmt[i] != '%' then [fmt[i]] + Expand(fmt, i + 1, args, a)
    else if CharAt(fmt, i + 1) == '%' then "%" + Expand(fmt, i + 2, args, a)
    else
      var j := SpecAt(fmt, i + 1);
      if j >= |fmt| then ""
      else Converted(fmt[j], j > i + 1, ArgAt(args, a)) + Expand(fmt, j + 1, args, if TakesArg(fmt[j]) then a + 1 else a)
  }

  // ----- the sink -----

  /** Output into a buffer of `capacity` characters; the rest is only counted. */
  class Sink {
    const buffer: array<char>
    const capacity: nat
    var count: nat
    ghost var emitted: string
    ghost const before: seq<char>

    /** The buffer holds the longest prefix of the output that leaves room for a terminator; what
        lies behind is as it was before. */
    ghost predicate Valid()
      reads this, buffer
    {
      && capacity <= buffer.Length == |before| && count == |emitted|
      && (forall k :: 0 <= k < buffer.Length && (k > |emitted| || k >= capacity) ==> buffer[k] == before[k])
      && forall k :: 0 <= k < |emitted| && k + 1 < capacity ==> buffer[k] == emitted[k]
    }

    /** clio_sink_init_buffer */
    constructor (out: array<char>, size: nat)
      requires size <= out.Length
      modifies out
      ensures Valid() && emitted == "" && buffer == out && capacity == size && before == old(out[..])
    {
      buffer, capacity, count, emitted, before := out, size, 0, "", out[..];
      new;
      if size > 0 {
        out[0] := NUL;
      }
    }

    /** clio_sink_emit */
    method Emit(text: string)
      requires Valid()
      modifies this`count, this`emitted, buffer
      ensures Valid() && emitted == old(emitted) + text
    {
      if |text| == 0 {
        assert emitted + text == emitted;
        return;
      }
      if capacity > 0 {
        var start, writable := count, 0;
        if start + 1 < capacity {
          writable := capacity - 1 - start;
        }
        if |text| < writable {
          writable := |text|;
        }
        var i := 0;
        while i < writable
          invariant i <= writable && count == old(count) && emitted == old(emitted)
          invariant forall k :: start <= k < start + i ==> buffer[k] == text[k-start]
          invariant forall k :: 0 <= k < buffer.Length && !(start <= k < start + i) ==> buffer[k] == old(buffer[k])
        {
          buffer[start+i] := text[i];
          i := i + 1;
        }
      }
      count := count + |text|;
      emitted := emitted + text;
    }

    /** clio_sink_finalize_buffer */
    method Finish()
      requires Valid()
      modifies buffer
      ensures Valid() && Holds(emitted)
    {
      if capacity == 0 {
        return;
      }
      if count < capacity {
        buffer[count] := NUL;
      } else {
        buffer[capacity-1] := NUL;
      }
    }

    /** The longest prefix of `s` that fits, and the terminator. */
    ghost predicate Holds(s: string)
      reads buffer
      requires capacity <= buffer.Length
    {
      capacity > 0 ==>
        var n := if |s| < capacity then |s| else capacity - 1;
        buffer[..n] == s[..n] && buffer[n] == NUL
    }

    /** The conversion of one argument, with the number buffer of clio_vformat */
    method Convert(spec: char, wide: bool, a: Arg, number: array<char>)
      requires Valid() && number.Length == 64 && number != buffer
      modifies this`count, this`emitted, buffer, number
      ensures Valid() && emitted == old(emitted) + Converted(spec, wide, a)
    {
      hide Digits, Decimal;
      var bits := BitsOf(a);
      if spec == 's' {
        Emit(TextOf(a));
      } else if spec == 'c' {
        Emit([(bits % 0x100) as char]);
      } else if spec == 'd' || spec == 'i' {
        ShortDecimal(SignedOf(bits, wide));
        var n := I64ToDec(SignedOf(bits, wide), number);
        Emit(number[..n]);
      } else if spec == 'u' {
        EmitNumber(UnsignedOf(bits, wide), 10, false, number);
      } else if spec == 'x' || spec == 'X' {
        EmitNumber(UnsignedOf(bits, wide), 16, spec == 'X', number);
      } else if spec == 'p' {
        Emit("0x");
        EmitNumber(bits, 16, false, number);
        assert old(emitted) + "0x" + Digits(bits, 16, false) == old(emitted) + ("0x" + Digits(bits, 16, false));
      } else {
        Emit("%");
        Emit([spec]);
        assert old(emitted) + "%" + [spec] == old(emitted) + ("%" + [spec]);
      }
    }

    /** The digits of a number, which always fit the number buffer */
    method EmitNumber(value: nat, base: nat, upper: bool, number: array<char>)
      requires Valid() && number.Length == 64 && number != buffer && value < U64 && (base == 10 || base == 16)
      modifies this`count, this`emitted, buffer, number
      ensures Valid() && emitted == old(emitted) + Digits(value, base, upper)
    {
      hide Digits;
      ShortDigits(value, base, upper);
      var n := U64ToBase(value, base, upper, number, 0, 64);
      if n == 0 {
        assert false;
      }
      assert number[0..n] == number[..n];
      Emit(number[..n]);
    }

    lemma ShortDigits(value: nat, base: nat, upper: bool)
      requires value < U64 && (base == 10 || base == 16)
      ensures 0 < |Digits(value, base, upper)| < 64
    {
      hide Digits;
      if base == 10 { TwentyDigits(value, upper); } else { SixteenDigits(value, upper); }
    }

    lemma SixteenDigits(n: nat, upper: bool)
      requires n < U64
      ensures |Digits(n, 16, upper)| <= 63
    {
      hide Digits;
      PowSum(16, 8, 8);
      assert Pow(16, 8) == U32 by {
        assert Pow(16, 1) == 16 && Pow(16, 2) == 16 * Pow(16, 1) && Pow(16, 3) == 16 * Pow(16, 2) && Pow(16, 4) == 16 * Pow(16, 3);
        PowSum(16, 4, 4);
      }
      DigitsFit(n, 16, upper, 16);
    }
  }

  /** clio_vformat on a sink that has nothing yet */
  method Format(sink: Sink, fmt: string, args: seq<Arg>) returns (r: nat)
    requires sink.Valid() && sink.emitted == ""
    modifies sink`count, sink`emitted, sink.buffer
    ensures sink.Valid() && sink.emitted == Expand(fmt, 0, args, 0) && sink.Holds(sink.emitted)
    ensures r == if |sink.emitted| > INT_MAX then INT_MAX else |sink.emitted|
  {
    hide Converted, SpecAt, Expand;
    var number := new char[64];
    ghost var all := Expand(fmt, 0, args, 0);
    var i, a := 0, 0;
    assert sink.emitted + all == all;
    while i < |fmt|
      invariant sink.Valid() && sink.emitted + Expand(fmt, i, args, a) == all
      decreases |fmt| - i
    {
      ghost var before := sink.emitted;
      ExpandNext(fmt, i, args, a);
      if fmt[i] != '%' {
        Regroup(before, [fmt[i]], Expand(fmt, i + 1, args, a));
        sink.Emit([fmt[i]]);
        i := i + 1;
        continue;
      }
      if CharAt(fmt, i + 1) == '%' {
        Regroup(before, "%", Expand(fmt, i + 2, args, a));
        sink.Emit("%");
        i := i + 2;
        continue;
      }
      var j := SpecAt(fmt, i + 1);
      if j >= |fmt| {
        i := j;
        break;
      }
      var spec := fmt[j];
      Regroup(before, Converted(spec, j > i + 1, ArgAt(args, a)), Expand(fmt, j + 1, args, if TakesArg(spec) then a + 1 else a));
      sink.Convert(spec, j > i + 1, ArgAt(args, a), number);
      if TakesArg(spec) {
        a := a + 1;
      }
      i := j + 1;
    }
    ExpandNext(fmt, i, args, a);
    assert sink.emitted + "" == sink.emitted;
    sink.Finish();
    return if sink.count > INT_MAX then INT_MAX else sink.count;
  }

  lemma Regroup(a: string, b: string, c: string)
    ensures a + (b + c) == a + b + c
  {
  }

  lemma ExpandNext(fmt: string, i: nat, args: seq<Arg>, a: nat)
    ensures Expand(fmt, i, args, a) ==
      if i >= |fmt| then ""
      else if fmt[i] != '%' then [fmt[i]] + Expand(fmt, i + 1, args, a)
      else if CharAt(fmt, i + 1) == '%' then "%" + Expand(fmt, i + 2, args, a)
      else
        var j := SpecAt(fmt, i + 1);
        if j >= |fmt| then ""
        else Converted(fmt[j], j > i + 1, ArgAt(args, a)) + Expand(fmt, j + 1, args, if TakesArg(fmt[j]) then a + 1 else a)
  {
  }

  /** vsnprintf: the buffer gets the longest prefix of the output that fits and a terminator, and is
      not touched behind it; the result is the length of the whole output, at most 2^31 - 1. */
  method Vsnprintf(out: array<char>, size: nat, fmt: string, args: seq<Arg>) returns (r: nat)
    requires size <= out.Length
    modifies out
    ensures var s := Expand(fmt, 0, args, 0);
            && r == (if |s| > INT_MAX then INT_MAX else |s|)
            && (size > 0 ==>
                  var n := if |s| < size then |s| else size - 1;
                  out[..n] == s[..n] && out[n] == NUL)
            && forall k :: 0 <= k < out.Length && (k > |s| || k >= size) ==> out[k] == old(out[k])
  {
    hide Expand;
    var sink := new Sink(out, size);
    r := Format(sink, fmt, args);
  }

  /** Printing any long and scanning the text gives the long back. */
  lemma ScanOfPrint(v: int)
    requires LONG_MIN <= v <= LONG_MAX
    ensures var word := Word(if v < 0 then v + U64 else v);
            Expand("%ld", 0, [word], 0) == Decimal(v) && Strtol(Expand("%ld", 0, [word], 0), 10).0 == v
  {
    hide Decimal, Strtol;
    var word := Word(if v < 0 then v + U64 else v);
    ExpandNext("%ld", 0, [word], 0);
    ExpandNext("%ld", 3, [word], 1);
    assert Converted('d', true, word) + "" == Decimal(v);
    StrtolOfPrinted(v);
  }
}
