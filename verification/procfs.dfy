/** The process files under /proc (clks/kernel/syscall.c): their names are parsed, and their
    text is appended piece by piece to a buffer that may be too short. */
module Procfs {
  import opened Machine
  import opened Numbers
  import opened Stdlib

  const NUL: char := 0 as char
  const PREFIX: string := "/proc/"
  const MAX_NAME: nat := 31

  // ----- names -----

  /** The 64-bit number that a text of decimal digits stands for. */
  function NumberIn(text: string): Option<nat> {
    if text != "" && AllDigits(text, 10) && ValueOf(text, 10) < U64 then Some(ValueOf(text, 10)) else None
  }

  lemma {:induction false} PrefixNotLarger(s: string, i: nat)
    requires AllDigits(s, 10) && i <= |s|
    ensures AllDigits(s[..i], 10) && ValueOf(s[..i], 10) <= ValueOf(s, 10)
  {
    if i == |s| {
      assert s[..i] == s;
    } else {
      assert s[..|s|-1][..i] == s[..i];
      PrefixNotLarger(s[..|s|-1], i);
    }
  }

  lemma NextDigit(text: string, i: nat)
    requires i < |text| && AllDigits(text[..i], 10) && IsDigitIn(text[i], 10)
    ensures AllDigits(text[..i+1], 10)
    ensures ValueOf(text[..i+1], 10) == ValueOf(text[..i], 10) * 10 + DigitValue(text[i])
  {
    assert text[..i+1] == text[..i] + [text[i]];
    assert text[..i+1][..i] == text[..i];
  }

  /** clks_syscall_parse_u64_dec; user programs and the kernel shell have the same text. */
  method ParseDec(text: string) returns (r: Option<nat>)
    ensures r == NumberIn(text)
  {
    if text == "" {
      return None;
    }
    var value, i := 0, 0;
    assert ValueOf("", 10) == 0;
    hide ValueOf;
    while i < |text|
      invariant i <= |text| && AllDigits(text[..i], 10) && value == ValueOf(text[..i], 10) < U64
    {
      if text[i] < '0' || text[i] > '9' {
        assert text[i] in text && !IsDigitIn(text[i], 10);
        return None;
      }
      var digit := text[i] as nat - '0' as nat;
      NextDigit(text, i);
      Exceeds(value, digit, 10, U64 - 1);
      if value > (U64 - 1 - digit) / 10 {
        if AllDigits(text, 10) { PrefixNotLarger(text, i + 1); }
        return None;
      }
      value := value * 10 + digit;
      i := i + 1;
    }
    assert text[..i] == text;
    return Some(value);
  }

  /** The process that a path names. */
  function PidIn(path: string): Option<nat> {
    if PREFIX <= path && |path| <= |PREFIX| + MAX_NAME && NumberIn(path[|PREFIX|..]) != Some(0)
    then NumberIn(path[|PREFIX|..])
    else None
  }

  /** clks_syscall_procfs_parse_pid */
  method ParsePid(path: string) returns (r: Option<nat>)
    ensures r == PidIn(path)
  {
    hide NumberIn;
    if CharAt(path, 0) != '/' || CharAt(path, 1) != 'p' || CharAt(path, 2) != 'r' || CharAt(path, 3) != 'o'
       || CharAt(path, 4) != 'c' || CharAt(path, 5) != '/' {
      return None;
    }
    assert PREFIX <= path;
    var part := path[6..];
    if part == "" || part == "self" || part == "list" {
      assert part != "" ==> part[0] in part && !IsDigitIn(part[0], 10);
      NotANumber(part);
      return None;
    }
    var i := 0;
    while i < |part|
      invariant i <= |part| && i <= MAX_NAME
    {
      if i >= MAX_NAME {
        return None;
      }
      if part[i] < '0' || part[i] > '9' {
        assert part[i] in part && !IsDigitIn(part[i], 10);
        NotANumber(part);
        return None;
      }
      i := i + 1;
    }
    r := ParseDec(part);
    if r == Some(0) {
      r := None;
    }
  }

  lemma NotANumber(part: string)
    requires part == "" || !AllDigits(part, 10)
    ensures NumberIn(part) == None
  {
  }

  /** The name that is made of a pid leads to that pid. */
  lemma PidReadsBack(pid: nat)
    requires 0 < pid < U64
    ensures PidIn(PREFIX + Digits(pid, 10, false)) == Some(pid)
  {
    var digits := Digits(pid, 10, false);
    assert (PREFIX + digits)[|PREFIX|..] == digits;
    ValueOfDigits(pid, 10, false);
    assert pid < Pow(10, 20) by { TenToTwenty(); }
    DigitsFit(pid, 10, false, 20);
  }

  /** A path names a process exactly when it is /proc/ and at most 31 digits, with zeros in front or
      not, of a number between 1 and 2^64 - 1. */
  lemma PidExact(path: string, pid: nat)
    ensures PidIn(path) == Some(pid)
       <==> exists digits: string ::
              && path == "/proc/" + digits && 0 < |digits| <= 31 && AllDigits(digits, 10)
              && ValueOf(digits, 10) == pid && 1 <= pid < 0x1_0000_0000_0000_0000
  {
    hide ValueOf;
    if PidIn(path) == Some(pid) {
      var digits := path[6..];
      assert path == "/proc/" + digits;
    }
    if digits: string :| path == "/proc/" + digits && 0 < |digits| <= 31 && AllDigits(digits, 10)
                         && ValueOf(digits, 10) == pid && 1 <= pid < 0x1_0000_0000_0000_0000 {
      assert path[6..] == digits;
    }
  }

  // ----- text -----

  /** The buffer holds the longest prefix of `s` that leaves room for a terminator. */
  ghost predicate Holds(out: array<char>, size: nat, pos: nat, s: string)
    reads out
  {
    && 0 < size <= out.Length
    && pos == (if |s| < size then |s| else size - 1)
    && out[..pos] == s[..pos] && out[pos] == NUL
  }

  /** clks_syscall_procfs_append_char */
  method AppendChar(out: array<char>, size: nat, pos: nat, ch: char, ghost s: string) returns (pos2: nat)
    requires Holds(out, size, pos, s)
    modifies out
    ensures Holds(out, size, pos2, s + [ch])
    ensures pos <= pos2 && forall k :: pos2 < k < out.Length ==> out[k] == old(out[k])
  {
    if pos + 1 < size {
      out[pos] := ch;
      out[pos+1] := NUL;
      assert (s + [ch])[..pos+1] == s[..pos] + [ch];
      assert out[..pos+1] == out[..pos] + [ch];
      return pos + 1;
    }
    out[size-1] := NUL;
    assert (s + [ch])[..pos] == s[..pos];
    return pos;
  }

  /** clks_syscall_procfs_append_text */
  method AppendText(out: array<char>, size: nat, pos: nat, text: string, ghost s: string) returns (pos2: nat)
    requires Holds(out, size, pos, s)
    modifies out
    ensures Holds(out, size, pos2, s + text)
    ensures pos <= pos2 && forall k :: pos2 < k < out.Length ==> out[k] == old(out[k])
  {
    hide Holds;
    pos2 := pos;
    assert s + text[..0] == s;
    for i := 0 to |text|
      invariant Holds(out, size, pos2, s + text[..i])
      invariant pos <= pos2 && forall k :: pos2 < k < out.Length ==> out[k] == old(out[k])
    {
      assert s + text[..i+1] == s + text[..i] + [text[i]];
      pos2 := AppendChar(out, size, pos2, text[i], s + text[..i]);
    }
    assert text[..|text|] == text;
  }

  /** The digit loop of clks_syscall_procfs_append_u64_dec, which takes the last digit first */
  method LastDigits(value: nat) returns (temp: string)
    requires 0 < value < U64
    ensures |temp| == |Digits(value, 10, false)|
    ensures forall k :: 0 <= k < |temp| ==> temp[k] == Digits(value, 10, false)[|temp|-1-k]
  {
    hide Digits, Pow;
    ghost var digits := Digits(value, 10, false);
    assert |digits| <= 20 by {
      TenToTwenty();
      DigitsFit(value, 10, false, 20);
    }
    var rest := value;
    temp := "";
    while rest != 0 && |temp| + 1 < 32
      invariant |temp| <= |digits| && Rest(rest) == digits[..|digits|-|temp|]
      invariant forall k :: 0 <= k < |temp| ==> temp[k] == digits[|digits|-1-k]
      decreases rest
    {
      RestNext(rest);
      var front := digits[..|digits|-|temp|];
      assert front[|front|-1] == digits[|digits|-1-|temp|];
      assert front[..|front|-1] == digits[..|digits|-|temp|-1];
      temp := temp + [DigitChar(rest % 10, false)];
      rest := rest / 10;
    }
    if rest != 0 {
      assert false;
    }
  }

  function Rest(n: nat): string {
    if n == 0 then "" else Digits(n, 10, false)
  }

  lemma RestNext(n: nat)
    requires n > 0
    ensures Rest(n) == Rest(n / 10) + [DigitChar(n % 10, false)] && n / 10 < n
  {
  }

  /** clks_syscall_procfs_append_u64_dec */
  method AppendDec(out: array<char>, size: nat, pos: nat, value: nat, ghost s: string) returns (pos2: nat)
    requires Holds(out, size, pos, s) && value < U64
    modifies out
    ensures Holds(out, size, pos2, s + Digits(value, 10, false))
    ensures pos <= pos2 && forall k :: pos2 < k < out.Length ==> out[k] == old(out[k])
  {
    hide Holds;
    if value == 0 {
      pos2 := AppendChar(out, size, pos, '0', s);
      return;
    }
    var temp := LastDigits(value);
    ghost var digits := Digits(value, 10, false);
    pos2 := pos;
    assert s + digits[..0] == s;
    for i := 0 to |temp|
      invariant Holds(out, size, pos2, s + digits[..i])
      invariant pos <= pos2 && forall k :: pos2 < k < out.Length ==> out[k] == old(out[k])
    {
      assert s + digits[..i+1] == s + digits[..i] + [digits[i]];
      pos2 := AppendChar(out, size, pos2, temp[|temp|-1-i], s + digits[..i]);
    }
    assert digits[..|temp|] == digits;
  }

  /** The last `k` hexadecimal digits of a number. */
  function Hex(n: nat, k: nat): (s: string)
    ensures |s| == k && AllDigits(s, 16)
  {
    if k == 0 then "" else Hex(n / 16, k - 1) + [DigitChar(n % 16, true)]
  }

  lemma {:induction false} ValueOfHex(n: nat, k: nat)
    requires n < Pow(16, k)
    ensures ValueOf(Hex(n, k), 16) == n
  {
    if k > 0 {
      Quotient(n, 16, Pow(16, k - 1));
      ValueOfHex(n / 16, k - 1);
      var front, c := Hex(n / 16, k - 1), DigitChar(n % 16, true);
      assert (front + [c])[..|front|] == front;
    }
  }

  lemma Pow16()
    ensures Pow(16, 16) == U64
  {
    PowSum(16, 8, 8);
    PowSum(16, 4, 4);
    PowSum(16, 2, 2);
    assert Pow(16, 2) == 256 by { assert Pow(16, 1) == 16; }
  }

  /** Two divisions are one by the product. */
  lemma ShiftTwice(n: nat, p: nat)
    requires p > 0
    ensures n / p / 16 == n / (16 * p)
  {
    var q, s := n / p, n % p;
    var r, t := q / 16, q % 16;
    assert n == q * p + s;
    Regrouped(q, r, t, p);
    Between(n, 16 * p, r);
  }

  lemma Regrouped(q: nat, r: nat, t: nat, p: nat)
    requires q == r * 16 + t && t < 16
    ensures q * p == r * (16 * p) + t * p && t * p <= 15 * p && (r + 1) * (16 * p) == r * (16 * p) + 16 * p
  {
    Associate(r, 16, p);
    assert (r * 16 + t) * p == r * 16 * p + t * p;
    var m := 16 * p;
    assert (r + 1) * m == r * m + m;
    assert (15 - t) * p >= 0 && (15 - t) * p == 15 * p - t * p;
  }

  lemma Between(n: nat, d: nat, r: nat)
    requires d > 0 && r * d <= n < (r + 1) * d
    ensures n / d == r
  {
    var q := n / d;
    assert q * d <= n < (q + 1) * d;
    assert q < r ==> (q + 1) * d <= r * d;
    assert r < q ==> (r + 1) * d <= q * d;
  }

  /** The digits of a word above the last `k` ones. */
  function Top(value: nat, k: nat): string
    requires k <= 16
  {
    PowNext(k);
    Hex(value / Pow(16, k), 16 - k)
  }

  lemma {:induction false} PowNext(k: nat)
    ensures Pow(16, k) > 0 && Pow(16, k + 1) == 16 * Pow(16, k)
  {
    if k > 0 { PowNext(k - 1); }
  }

  lemma TopNext(value: nat, k: nat)
    requires k < 16
    ensures Pow(16, k) > 0
    ensures Top(value, k) == Top(value, k + 1) + [DigitChar(value / Pow(16, k) % 16, true)]
  {
    hide Pow;
    PowNext(k);
    ShiftTwice(value, Pow(16, k));
  }

  lemma TopEnds(value: nat)
    requires value < U64
    ensures Top(value, 16) == "" && Top(value, 0) == Hex(value, 16)
  {
    assert Pow(16, 0) == 1;
  }

  /** clks_syscall_procfs_append_u64_hex: all sixteen digits */
  method AppendHex(out: array<char>, size: nat, pos: nat, value: nat, ghost s: string) returns (pos2: nat)
    requires Holds(out, size, pos, s) && value < U64
    modifies out
    ensures Holds(out, size, pos2, s + ("0X" + Hex(value, 16)))
    ensures pos <= pos2 && forall k :: pos2 < k < out.Length ==> out[k] == old(out[k])
  {
    hide Holds, DigitChar, Pow, Top, Hex;
    pos2 := AppendText(out, size, pos, "0X", s);
    ghost var head := s + "0X";
    TopEnds(value);
    assert head + Top(value, 16) == head;
    for nibble := 16 downto 0
      invariant Holds(out, size, pos2, head + Top(value, nibble))
      invariant pos <= pos2 && forall k :: pos2 < k < out.Length ==> out[k] == old(out[k])
    {
      TopNext(value, nibble);
      var digit := DigitChar(value / Pow(16, nibble) % 16, true);
      assert head + Top(value, nibble) == head + Top(value, nibble + 1) + [digit];
      pos2 := AppendChar(out, size, pos2, digit, head + Top(value, nibble + 1));
    }
    assert head + Hex(value, 16) == s + ("0X" + Hex(value, 16));
  }

  /** A number printed as the exit status is, read back. */
  lemma HexReadsBack(value: nat)
    requires value < U64
    ensures Strtoul("0X" + Hex(value, 16), 16) == (value, 18)
  {
    hide Hex, Pow;
    var digits := Hex(value, 16);
    var text := "0X" + digits;
    assert value < Pow(16, 16) by { Pow16(); }
    ValueOfHex(value, 16);
    assert text[2..] == digits && text[2..18] == digits;
  }

  // ----- one process -----

  datatype Snapshot = Snapshot(pid: nat, ppid: nat, state: string, stateId: nat, tty: nat, runtime: nat, memory: nat,
                               status: nat, signal: nat, vector: nat, error: nat, rip: nat, path: string)

  function Line(name: string, text: string): string {
    name + text + "\n"
  }

  function DecLine(name: string, value: nat): string {
    Line(name, Digits(value, 10, false))
  }

  function HexLine(name: string, value: nat): string {
    Line(name, "0X" + Hex(value, 16))
  }

  function TextOf(p: Snapshot): string {
    DecLine("pid=", p.pid) + DecLine("ppid=", p.ppid) + Line("state=", p.state) + DecLine("state_id=", p.stateId)
    + DecLine("tty=", p.tty) + DecLine("runtime_ticks=", p.runtime) + DecLine("mem_bytes=", p.memory)
    + HexLine("exit_status=", p.status) + DecLine("last_signal=", p.signal) + DecLine("last_fault_vector=", p.vector)
    + HexLine("last_fault_error=", p.error) + HexLine("last_fault_rip=", p.rip) + Line("path=", p.path)
  }

  predicate InWords(p: Snapshot) {
    && p.pid < U64 && p.ppid < U64 && p.stateId < U64 && p.tty < U64 && p.runtime < U64 && p.memory < U64
    && p.status < U64 && p.signal < U64 && p.vector < U64 && p.error < U64 && p.rip < U64
  }

  lemma Grouped(s: string, name: string, text: string)
    ensures s + name + text + ["\n"[0]] == s + Line(name, text)
  {
  }

  method AppendTextLine(out: array<char>, size: nat, pos: nat, name: string, text: string, ghost s: string) returns (pos2: nat)
    requires Holds(out, size, pos, s)
    modifies out
    ensures Holds(out, size, pos2, s + Line(name, text))
    ensures pos <= pos2 && forall k :: pos2 < k < out.Length ==> out[k] == old(out[k])
  {
    hide Holds;
    pos2 := AppendText(out, size, pos, name, s);
    pos2 := AppendText(out, size, pos2, text, s + name);
    pos2 := AppendChar(out, size, pos2, '\n', s + name + text);
    Grouped(s, name, text);
  }

  method AppendDecLine(out: array<char>, size: nat, pos: nat, name: string, value: nat, ghost s: string) returns (pos2: nat)
    requires Holds(out, size, pos, s) && value < U64
    modifies out
    ensures Holds(out, size, pos2, s + DecLine(name, value))
    ensures pos <= pos2 && forall k :: pos2 < k < out.Length ==> out[k] == old(out[k])
  {
    hide Holds, Digits;
    pos2 := AppendText(out, size, pos, name, s);
    pos2 := AppendDec(out, size, pos2, value, s + name);
    pos2 := AppendChar(out, size, pos2, '\n', s + name + Digits(value, 10, false));
    Grouped(s, name, Digits(value, 10, false));
  }

  method AppendHexLine(out: array<char>, size: nat, pos: nat, name: string, value: nat, ghost s: string) returns (pos2: nat)
    requires Holds(out, size, pos, s) && value < U64
    modifies out
    ensures Holds(out, size, pos2, s + HexLine(name, value))
    ensures pos <= pos2 && forall k :: pos2 < k < out.Length ==> out[k] == old(out[k])
  {
    hide Holds, Hex;
    pos2 := AppendText(out, size, pos, name, s);
    pos2 := AppendHex(out, size, pos2, value, s + name);
    pos2 := AppendChar(out, size, pos2, '\n', s + name + ("0X" + Hex(value, 16)));
    Grouped(s, name, "0X" + Hex(value, 16));
  }

  /** clks_syscall_procfs_render_snapshot: as much of the text as fits, and a terminator */
  method RenderSnapshot(out: array<char>, size: nat, p: Snapshot) returns (pos: nat)
    requires size <= out.Length && InWords(p)
    modifies out
    ensures size == 0 ==> pos == 0 && out[..] == old(out[..])
    ensures size > 0 ==> Holds(out, size, pos, TextOf(p))
    ensures forall k :: pos < k < out.Length ==> out[k] == old(out[k])
  {
    hide Line, DecLine, HexLine;
    if size == 0 {
      return 0;
    }
    out[0] := NUL;
    assert Holds(out, size, 0, "");
    hide Holds;
    ghost var s := "";
    pos := AppendDecLine(out, size, 0, "pid=", p.pid, s);
    s := DecLine("pid=", p.pid);
    assert "" + s == s;
    pos := AppendDecLine(out, size, pos, "ppid=", p.ppid, s);
    s := s + DecLine("ppid=", p.ppid);
    pos := AppendTextLine(out, size, pos, "state=", p.state, s);
    s := s + Line("state=", p.state);
    pos := AppendDecLine(out, size, pos, "state_id=", p.stateId, s);
    s := s + DecLine("state_id=", p.stateId);
    pos := AppendDecLine(out, size, pos, "tty=", p.tty, s);
    s := s + DecLine("tty=", p.tty);
    pos := AppendDecLine(out, size, pos, "runtime_ticks=", p.runtime, s);
    s := s + DecLine("runtime_ticks=", p.runtime);
    pos := AppendDecLine(out, size, pos, "mem_bytes=", p.memory, s);
    s := s + DecLine("mem_bytes=", p.memory);
    pos := AppendHexLine(out, size, pos, "exit_status=", p.status, s);
    s := s + HexLine("exit_status=", p.status);
    pos := AppendDecLine(out, size, pos, "last_signal=", p.signal, s);
    s := s + DecLine("last_signal=", p.signal);
    pos := AppendDecLine(out, size, pos, "last_fault_vector=", p.vector, s);
    s := s + DecLine("last_fault_vector=", p.vector);
    pos := AppendHexLine(out, size, pos, "last_fault_error=", p.error, s);
    s := s + HexLine("last_fault_error=", p.error);
    pos := AppendHexLine(out, size, pos, "last_fault_rip=", p.rip, s);
    s := s + HexLine("last_fault_rip=", p.rip);
    pos := AppendTextLine(out, size, pos, "path=", p.path, s);
    s := s + Line("path=", p.path);
    assert s == TextOf(p);
  }

  // ----- reading the text -----

  /** The lines of a text, and what follows the last of them. */
  function Lines(s: string): (ls: seq<string>)
    ensures ls != []
  {
    if s == "" then [""]
    else
      var front, c := Lines(s[..|s|-1]), s[|s|-1];
      if c == '\n' then front + [""] else front[|front|-1 := front[|front|-1] + [c]]
  }

  lemma {:induction false} LinesOn(a: string, b: string)
    requires '\n' !in b
    ensures Lines(a + b) == Lines(a)[|Lines(a)|-1 := Lines(a)[|Lines(a)|-1] + b]
  {
    hide Lines;
    if b == "" {
      assert a + b == a && Lines(a)[|Lines(a)|-1] + b == Lines(a)[|Lines(a)|-1];
    } else {
      var front, c := b[..|b|-1], b[|b|-1];
      assert forall x :: x in front ==> x in b;
      LinesOn(a, front);
      assert a + b == (a + front) + [c] && front + [c] == b && c in b;
      LinesStep(a + front, c);
      var n := |Lines(a)| - 1;
      assert (Lines(a)[n] + front) + [c] == Lines(a)[n] + b;
    }
  }

  lemma LinesStep(s: string, c: char)
    ensures Lines(s + [c]) == if c == '\n' then Lines(s) + [""] else Lines(s)[|Lines(s)|-1 := Lines(s)[|Lines(s)|-1] + [c]]
  {
    assert (s + [c])[..|s|] == s;
  }

  /** A text that ends with a line goes on with the next one. */
  lemma NextLine(s: string, done: seq<string>, name: string, text: string)
    requires Lines(s) == done + [""] && '\n' !in name && '\n' !in text
    ensures Lines(s + Line(name, text)) == (done + [name + text]) + [""]
  {
    hide Lines;
    var n := |done|;
    LinesOn(s, name);
    LinesOn(s + name, text);
    LinesStep(s + name + text, '\n');
    assert s + Line(name, text) == s + name + text + ['\n'];
    assert "" + name == name;
    assert Lines(s + name + text) == done + [name + text];
  }

  lemma DigitsOneLine(value: nat, base: nat)
    requires base == 10 || base == 16
    ensures '\n' !in Digits(value, base, false)
  {
  }

  lemma {:induction false} HexOneLine(value: nat, n: nat)
    ensures '\n' !in Hex(value, n)
  {
    if n > 0 { HexOneLine(value / 16, n - 1); }
  }

  lemma NextDec(s: string, done: seq<string>, name: string, value: nat)
    requires Lines(s) == done + [""] && '\n' !in name
    ensures Lines(s + DecLine(name, value)) == (done + [name + Digits(value, 10, false)]) + [""]
  {
    hide Lines, Line, Digits;
    DigitsOneLine(value, 10);
    NextLine(s, done, name, Digits(value, 10, false));
  }

  lemma NextHex(s: string, done: seq<string>, name: string, value: nat)
    requires Lines(s) == done + [""] && '\n' !in name
    ensures Lines(s + HexLine(name, value)) == (done + [name + ("0X" + Hex(value, 16))]) + [""]
  {
    hide Lines, Line, Hex;
    HexOneLine(value, 16);
    NextLine(s, done, name, "0X" + Hex(value, 16));
  }

  /** The first lines of the text. */
  function Head(p: Snapshot): string {
    DecLine("pid=", p.pid) + DecLine("ppid=", p.ppid) + Line("state=", p.state) + DecLine("state_id=", p.stateId)
    + DecLine("tty=", p.tty) + DecLine("runtime_ticks=", p.runtime) + DecLine("mem_bytes=", p.memory)
  }

  lemma HeadLines(p: Snapshot)
    requires '\n' !in p.state
    ensures Lines(Head(p)) ==
      ["pid=" + Digits(p.pid, 10, false), "ppid=" + Digits(p.ppid, 10, false), "state=" + p.state,
       "state_id=" + Digits(p.stateId, 10, false), "tty=" + Digits(p.tty, 10, false),
       "runtime_ticks=" + Digits(p.runtime, 10, false), "mem_bytes=" + Digits(p.memory, 10, false)] + [""]
  {
    hide Lines, Line, DecLine, Digits;
    var s, done := "", [];
    NoLines();
    NextDec(s, done, "pid=", p.pid);
    s, done := DecLine("pid=", p.pid), ["pid=" + Digits(p.pid, 10, false)];
    assert "" + s == s && [] + done == done;
    NextDec(s, done, "ppid=", p.ppid);
    s, done := s + DecLine("ppid=", p.ppid), done + ["ppid=" + Digits(p.ppid, 10, false)];
    NextLine(s, done, "state=", p.state);
    s, done := s + Line("state=", p.state), done + ["state=" + p.state];
    NextDec(s, done, "state_id=", p.stateId);
    s, done := s + DecLine("state_id=", p.stateId), done + ["state_id=" + Digits(p.stateId, 10, false)];
    NextDec(s, done, "tty=", p.tty);
    s, done := s + DecLine("tty=", p.tty), done + ["tty=" + Digits(p.tty, 10, false)];
    NextDec(s, done, "runtime_ticks=", p.runtime);
    s, done := s + DecLine("runtime_ticks=", p.runtime), done + ["runtime_ticks=" + Digits(p.runtime, 10, false)];
    NextDec(s, done, "mem_bytes=", p.memory);
  }

  /** Read line by line, the text of a process names each of its values, in this order. */
  lemma SnapshotLines(p: Snapshot)
    requires '\n' !in p.state && '\n' !in p.path
    ensures Lines(TextOf(p)) ==
      ["pid=" + Digits(p.pid, 10, false), "ppid=" + Digits(p.ppid, 10, false), "state=" + p.state,
       "state_id=" + Digits(p.stateId, 10, false), "tty=" + Digits(p.tty, 10, false),
       "runtime_ticks=" + Digits(p.runtime, 10, false), "mem_bytes=" + Digits(p.memory, 10, false)] +
      ["exit_status=" + ("0X" + Hex(p.status, 16)), "last_signal=" + Digits(p.signal, 10, false),
       "last_fault_vector=" + Digits(p.vector, 10, false), "last_fault_error=" + ("0X" + Hex(p.error, 16)),
       "last_fault_rip=" + ("0X" + Hex(p.rip, 16)), "path=" + p.path] + [""]
  {
    hide Lines, Line, DecLine, HexLine, Digits, Hex;
    HeadLines(p);
    var s, head := Head(p), Lines(Head(p))[..7];
    var done := head;
    assert Lines(s) == done + [""];
    NextHex(s, done, "exit_status=", p.status);
    s, done := s + HexLine("exit_status=", p.status), done + ["exit_status=" + ("0X" + Hex(p.status, 16))];
    NextDec(s, done, "last_signal=", p.signal);
    s, done := s + DecLine("last_signal=", p.signal), done + ["last_signal=" + Digits(p.signal, 10, false)];
    NextDec(s, done, "last_fault_vector=", p.vector);
    s, done := s + DecLine("last_fault_vector=", p.vector), done + ["last_fault_vector=" + Digits(p.vector, 10, false)];
    NextHex(s, done, "last_fault_error=", p.error);
    s, done := s + HexLine("last_fault_error=", p.error), done + ["last_fault_error=" + ("0X" + Hex(p.error, 16))];
    NextHex(s, done, "last_fault_rip=", p.rip);
    s, done := s + HexLine("last_fault_rip=", p.rip), done + ["last_fault_rip=" + ("0X" + Hex(p.rip, 16))];
    NextLine(s, done, "path=", p.path);
  }

  lemma NoLines()
    ensures Lines("") == [""]
  {
  }
}
