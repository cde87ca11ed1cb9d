/** Formatted printing (libc/generic/stdio.c) and number parsing
    (libc/generic/stdlib.c) of the user library. */
module Print {
  import Arith64

  const INT_MAX: int := 0x7FFF_FFFF
  const INT_MIN: int := -0x8000_0000

  /** A variadic argument, as the conversion that takes it reads it. */
  datatype Arg = Int(i: int) | Unsigned(u: nat) | Character(c: char) | Text(s: string) | NullText

  predicate ArgOk(a: Arg)
  {
    match a
    case Int(i) => INT_MIN <= i <= INT_MAX
    case Unsigned(u) => u < 0x1_0000_0000
    case _ => true
  }

  // ---------------------------------------------------------------------
  // What is printed
  // ---------------------------------------------------------------------

  function DigitChar(d: nat, upper: bool): char
    requires d < 16
  {
    if d < 10 then ('0' as int + d) as char
    else ((if upper then 'A' else 'a') as int + (d - 10)) as char
  }

  /** The digits of `v`, most significant first, with no leading zero. */
  function Digits(v: nat, base: nat, upper: bool): (t: string)
    requires 2 <= base <= 16
    ensures t != ""
  {
    Smaller(v, base);
    (if v / base == 0 then "" else Digits(v / base, base, upper)) + [DigitChar(v % base, upper)]
  }

  lemma Smaller(v: nat, base: nat)
    requires 2 <= base <= 16
    ensures 0 <= v / base && 0 <= v % base < base && v / base <= v / 2
    ensures v / base != 0 ==> v / base < v
  {
    Arith64.QuotientBound(v, base);
    Arith64.DivisionEquation(v, base);
    Arith64.MulMono(2, base, v / base);
  }

  function SignedText(v: int): string
  {
    if v < 0 then "-" + Digits(-v, 10, false) else Digits(v, 10, false)
  }

  /** Whether the conversion `c` finds the argument it reads. */
  predicate Suits(c: char, args: seq<Arg>)
  {
    match c
    case 'c' => args != [] && args[0].Character?
    case 's' => args != [] && (args[0].Text? || args[0].NullText?)
    case 'd' => args != [] && args[0].Int?
    case 'i' => args != [] && args[0].Int?
    case 'u' => args != [] && args[0].Unsigned?
    case 'x' => args != [] && args[0].Unsigned?
    case 'X' => args != [] && args[0].Unsigned?
    case 'p' => args != [] && args[0].Unsigned?
    case _ => true
  }

  /** What the conversion `c` prints; `%f` prints nothing and an unknown one itself. */
  function Converted(c: char, args: seq<Arg>): string
    requires Suits(c, args)
  {
    match c
    case '%' => "%"
    case 'c' => [args[0].c]
    case 's' => if args[0].Text? then args[0].s else "(null)"
    case 'd' => SignedText(args[0].i)
    case 'i' => SignedText(args[0].i)
    case 'u' => Digits(args[0].u, 10, false)
    case 'x' => Digits(args[0].u, 16, false)
    case 'X' => Digits(args[0].u, 16, true)
    case 'p' => "0x" + Digits(args[0].u, 16, false)
    case 'f' => ""
    case _ => "%" + [c]
  }

  function Takes(c: char): nat { if c in "csdiuxXp" then 1 else 0 }

  /** The arguments fit the format, which C leaves to the caller. */
  predicate WellTyped(fmt: string, args: seq<Arg>)
    decreases |fmt|
  {
    if |fmt| == 0 then true
    else if fmt[0] != '%' then WellTyped(fmt[1..], args)
    else if |fmt| == 1 then true
    else Suits(fmt[1], args) && WellTyped(fmt[2..], args[Takes(fmt[1])..])
  }

  /** The output of a format on a buffer of any size. */
  function Rendered(fmt: string, args: seq<Arg>): string
    requires WellTyped(fmt, args)
    decreases |fmt|
  {
    if |fmt| == 0 then ""
    else if fmt[0] != '%' then [fmt[0]] + Rendered(fmt[1..], args)
    else if |fmt| == 1 then ""
    else Converted(fmt[1], args) + Rendered(fmt[2..], args[Takes(fmt[1])..])
  }

  // ---------------------------------------------------------------------
  // How it is printed
  // ---------------------------------------------------------------------

  /** `text` has been put into a buffer of `size` characters that held `was`: as much of
      it as leaves room for the terminator, and nothing else changed. */
  ghost predicate Put(buf: seq<char>, was: seq<char>, size: nat, text: string)
  {
    && |buf| == |was|
    && forall i :: 0 <= i < |buf| ==> buf[i] == if i < size - 1 && i < |text| then text[i] else was[i]
  }

  method Bputc(str: array<char>, size: nat, idx: nat, c: char, ghost was: seq<char>, ghost text: string)
    returns (next: nat)
    requires size <= str.Length && idx == |text| && Put(str[..], was, size, text)
    modifies str
    ensures next == |text + [c]| && Put(str[..], was, size, text + [c])
  {
    if size > 0 && idx < size - 1 {
      str[idx] := c;
    }
    next := idx + 1;
  }

  method Bputs(str: array<char>, size: nat, idx: nat, s: string, ghost was: seq<char>, ghost text: string)
    returns (next: nat)
    requires size <= str.Length && idx == |text| && Put(str[..], was, size, text)
    modifies str
    ensures next == |text + s| && Put(str[..], was, size, text + s)
  {
    hide Put;
    next := idx;
    var k := 0;
    assert text + s[..0] == text;
    while k < |s|
      invariant 0 <= k <= |s| && next == |text + s[..k]| && Put(str[..], was, size, text + s[..k])
    {
      next := Bputc(str, size, next, s[k], was, text + s[..k]);
      assert text + s[..k] + [s[k]] == text + s[..k + 1];
      k := k + 1;
    }
    assert s[..k] == s;
  }

  function Rev(s: string): (r: string)
    ensures |r| == |s|
  {
    if s == "" then "" else [s[|s| - 1]] + Rev(s[..|s| - 1])
  }

  /** The part of the digits not yet generated. */
  function Rest(v: nat, base: nat, upper: bool): string
    requires 2 <= base <= 16
  {
    if v == 0 then "" else Digits(v, base, upper)
  }

  /** Generating the last digit. */
  lemma RestStep(v: nat, base: nat, upper: bool, done: string)
    requires 2 <= base <= 16 && v != 0
    ensures v / base >= 0 && 0 <= v % base < base
    ensures Rest(v / base, base, upper) + Rev(done + [DigitChar(v % base, upper)]) == Rest(v, base, upper) + Rev(done)
  {
    Smaller(v, base);
    var d := DigitChar(v % base, upper);
    assert (done + [d])[..|done|] == done;
    assert Rev(done + [d]) == [d] + Rev(done);
    assert Rest(v, base, upper) == Rest(v / base, base, upper) + [d];
  }

  /** 64-bit values need at most 64 of the 66 places. */
  lemma HalfBound(v: nat, base: nat, n: nat)
    requires 2 <= base <= 16 && n < 64 && v < Arith64.Pow2(64 - n)
    ensures 0 <= v / base < Arith64.Pow2(64 - n - 1)
  {
    Smaller(v, base);
    assert Arith64.Pow2(64 - n) == 2 * Arith64.Pow2(64 - n - 1);
  }

  /** Generates the digits backwards into a local buffer; `n` never leaves it. */
  method Generate(value: nat, base: nat, upper: bool) returns (tmp: array<char>, n: nat)
    requires 2 <= base <= 16 && value < Arith64.Pow2(64)
    ensures fresh(tmp) && n <= tmp.Length && Rev(tmp[..n]) == Digits(value, base, upper)
  {
    hide Digits, Rev, Arith64.Pow2;
    tmp := new char[66];
    n := 0;
    if value == 0 {
      tmp[0] := '0';
      n := 1;
      ZeroDigits(base, upper);
      assert tmp[..1] == "0";
      return;
    }
    var v: nat := value;
    assert tmp[..0] == "";
    RevEmpty();
    while v != 0
      invariant n <= 64 && v < Arith64.Pow2(64 - n)
      invariant Rest(v, base, upper) + Rev(tmp[..n]) == Digits(value, base, upper)
      invariant fresh(tmp) && tmp.Length == 66
      decreases v
    {
      PowZero(64 - n, v);
      Smaller(v, base);
      HalfBound(v, base, n);
      ghost var done := tmp[..n];
      RestStep(v, base, upper, done);
      var digit, quotient := v % base, v / base;
      tmp[n] := DigitChar(digit, upper);
      assert tmp[..n + 1] == done + [DigitChar(digit, upper)];
      n := n + 1;
      v := quotient;
    }
  }

  lemma PowZero(k: nat, v: nat)
    requires v < Arith64.Pow2(k) && v != 0
    ensures k != 0
  {}

  lemma RevEmpty()
    ensures Rev("") == ""
  {}

  lemma ZeroDigits(base: nat, upper: bool)
    requires 2 <= base <= 16
    ensures Rev("0") == Digits(0, base, upper)
  {
    Smaller(0, base);
    assert 0 / base == 0 && 0 % base == 0;
    assert "0"[..0] == "";
  }

  method Bputud(str: array<char>, size: nat, idx: nat, value: nat, base: nat, upper: bool,
                ghost was: seq<char>, ghost text: string) returns (next: nat)
    requires 2 <= base <= 16 && value < Arith64.Pow2(64)
    requires size <= str.Length && idx == |text| && Put(str[..], was, size, text)
    modifies str
    ensures var t := text + Digits(value, base, upper);
            next == |t| && Put(str[..], was, size, t)
  {
    hide Put, Digits, Rev;
    var tmp: array<char>, n: nat := Generate(value, base, upper);
    ghost var whole, out := text + Digits(value, base, upper), text;
    next := idx;
    while n != 0
      invariant n <= tmp.Length && fresh(tmp) && tmp != str
      invariant next == |out| && Put(str[..], was, size, out) && out + Rev(tmp[..n]) == whole
      decreases n
    {
      RevLast(tmp[..n]);
      assert tmp[..n][..n - 1] == tmp[..n - 1];
      n := n - 1;
      assert out + [tmp[n]] + Rev(tmp[..n]) == whole;
      next := Bputc(str, size, next, tmp[n], was, out);
      out := out + [tmp[n]];
    }
    assert tmp[..0] == "";
    RevEmpty();
    assert out + "" == out;
  }

  lemma RevLast(s: string)
    requires s != ""
    ensures Rev(s) == [s[|s| - 1]] + Rev(s[..|s| - 1])
  {}

  lemma WordSize()
    ensures Arith64.Pow2(64) == 0x1_0000_0000_0000_0000
  {
    Arith64.Pow2Values();
  }

  /** One conversion of vsnprintf. */
  method Convert(str: array<char>, size: nat, idx: nat, c: char, args: seq<Arg>, ghost was: seq<char>,
                 ghost text: string)
    returns (next: nat, rest: seq<Arg>)
    requires Suits(c, args) && forall i :: 0 <= i < |args| ==> ArgOk(args[i])
    requires size <= str.Length && idx == |text| && Put(str[..], was, size, text)
    modifies str
    ensures rest == args[Takes(c)..]
    ensures var t := text + Converted(c, args);
            next == |t| && Put(str[..], was, size, t)
  {
    hide Put, Digits;
    WordSize();
    rest := args;
    if c == '%' {
      next := Bputc(str, size, idx, '%', was, text);
    } else if c == 'c' {
      next := Bputc(str, size, idx, args[0].c, was, text);
      rest := args[1..];
    } else if c == 's' {
      next := Bputs(str, size, idx, if args[0].Text? then args[0].s else "(null)", was, text);
      rest := args[1..];
    } else if c == 'd' || c == 'i' {
      next := PutSigned(str, size, idx, args[0].i, was, text);
      rest := args[1..];
    } else if c == 'u' {
      next := Bputud(str, size, idx, args[0].u, 10, false, was, text);
      rest := args[1..];
    } else if c == 'x' {
      next := Bputud(str, size, idx, args[0].u, 16, false, was, text);
      rest := args[1..];
    } else if c == 'X' {
      next := Bputud(str, size, idx, args[0].u, 16, true, was, text);
      rest := args[1..];
    } else if c == 'p' {
      next := Bputs(str, size, idx, "0x", was, text);
      next := Bputud(str, size, next, args[0].u, 16, false, was, text + "0x");
      rest := args[1..];
      assert text + "0x" + Digits(args[0].u, 16, false) == text + ("0x" + Digits(args[0].u, 16, false));
    } else if c == 'f' {
      next := idx;
      assert text + "" == text;
    } else {
      next := Bputc(str, size, idx, '%', was, text);
      next := Bputc(str, size, next, c, was, text + "%");
      assert text + "%" + [c] == text + ("%" + [c]);
    }
  }

  method PutSigned(str: array<char>, size: nat, idx: nat, v: int, ghost was: seq<char>, ghost text: string)
    returns (next: nat)
    requires INT_MIN <= v <= INT_MAX
    requires size <= str.Length && idx == |text| && Put(str[..], was, size, text)
    modifies str
    ensures var t := text + SignedText(v);
            next == |t| && Put(str[..], was, size, t)
  {
    hide Put, Digits;
    WordSize();
    if v < 0 {
      next := Bputc(str, size, idx, '-', was, text);
      next := Bputud(str, size, next, -v, 10, false, was, text + "-");
      assert text + "-" + Digits(-v, 10, false) == text + ("-" + Digits(-v, 10, false));
    } else {
      next := Bputud(str, size, idx, v, 10, false, was, text);
    }
  }

  /** The loop of vsnprintf over the format. */
  method Render(str: array<char>, size: nat, fmt: string, args: seq<Arg>) returns (idx: nat)
    requires size <= str.Length && WellTyped(fmt, args) && forall i :: 0 <= i < |args| ==> ArgOk(args[i])
    modifies str
    ensures idx == |Rendered(fmt, args)| && Put(str[..], old(str[..]), size, Rendered(fmt, args))
  {
    hide Put, Converted, Suits, Rendered, WellTyped, Takes, ArgOk;
    ghost var was, out, text := str[..], Rendered(fmt, args), "";
    PutNothing(was, size);
    idx := 0;
    var f, rest := fmt, args;
    while f != ""
      invariant WellTyped(f, rest) && text + Rendered(f, rest) == out
      invariant forall i :: 0 <= i < |rest| ==> ArgOk(rest[i])
      invariant idx == |text| && Put(str[..], was, size, text)
      decreases |f|
    {
      RenderStep(f, rest, text);
      if f[0] != '%' {
        idx := Bputc(str, size, idx, f[0], was, text);
        text := text + [f[0]];
        f := f[1..];
      } else if |f| == 1 {
        f := "";
      } else {
        var c := f[1];
        ghost var t := Converted(c, rest);
        idx, rest := Convert(str, size, idx, c, rest, was, text);
        text := text + t;
        f := f[2..];
      }
    }
    RenderEnd(rest);
    assert text + "" == text;
  }

  lemma RenderEnd(args: seq<Arg>)
    ensures WellTyped("", args) && Rendered("", args) == ""
  {}

  /** What one turn of the loop leaves to print. */
  lemma RenderStep(f: string, args: seq<Arg>, text: string)
    requires f != "" && WellTyped(f, args)
    ensures f[0] != '%' ==>
              WellTyped(f[1..], args) && text + [f[0]] + Rendered(f[1..], args) == text + Rendered(f, args)
    ensures f[0] == '%' && |f| == 1 ==> WellTyped("", args) && Rendered("", args) == Rendered(f, args)
    ensures f[0] == '%' && |f| > 1 ==>
              && Suits(f[1], args) && Takes(f[1]) <= |args|
              && WellTyped(f[2..], args[Takes(f[1])..])
              && text + Converted(f[1], args) + Rendered(f[2..], args[Takes(f[1])..]) == text + Rendered(f, args)
  {
    hide Converted;
  }

  lemma PutNothing(was: seq<char>, size: nat)
    ensures Put(was, was, size, "")
  {}

  /** vsnprintf: the buffer ends up with the longest prefix of the full output that
      leaves room for the terminator, nothing past it changes, and the result is the
      full length, capped.  The full output is the only text the format spells. */
  method Vsnprintf(str: array<char>, size: nat, fmt: string, args: seq<Arg>) returns (r: int)
    requires size <= str.Length && WellTyped(fmt, args) && forall i :: 0 <= i < |args| ==> ArgOk(args[i])
    modifies str
    ensures var out := Rendered(fmt, args);
            && (forall t :: Spells(fmt, args, t) <==> t == out)
            && r == (if |out| > INT_MAX then INT_MAX else |out|)
            && (size == 0 ==> str[..] == old(str[..]))
            && (size > 0 ==>
                  var m := if |out| < size then |out| else size - 1;
                  str[..m] == out[..m] && str[m] == '\0' && str[m + 1..] == old(str[m + 1..]))
  {
    hide Rendered, WellTyped, Spells, Put;
    forall t ensures Spells(fmt, args, t) <==> t == Rendered(fmt, args) { SpelledExactly(fmt, args, t); }
    var idx := Render(str, size, fmt, args);
    PutPrefix(str[..], old(str[..]), size, Rendered(fmt, args));
    if size > 0 {
      if idx >= size {
        str[size - 1] := '\0';
      } else {
        str[idx] := '\0';
      }
    }
    r := if idx > INT_MAX then INT_MAX else idx;
  }

  /** What the buffer holds once `text` has been put into it. */
  lemma PutPrefix(buf: seq<char>, was: seq<char>, size: nat, text: string)
    requires Put(buf, was, size, text) && size <= |buf|
    ensures |buf| == |was| && (size == 0 ==> buf == was)
    ensures size > 0 ==>
              var m := if |text| < size then |text| else size - 1;
              buf[..m] == text[..m] && buf[m + 1..] == was[m + 1..]
  {}

  // ---------------------------------------------------------------------
  // atoi
  // ---------------------------------------------------------------------

  /** Signed overflow has no defined result in C. */
  datatype Parsed = Value(v: int) | Overflow

  predicate IsSpace(c: char) { c == ' ' || '\t' <= c <= '\r' }
  predicate IsDigit(c: char) { '0' <= c <= '9' }

  ghost predicate AllDigits(s: string) { forall i :: 0 <= i < |s| ==> IsDigit(s[i]) }

  /** The number a string of digits denotes. */
  function Number(s: string): (n: nat)
    requires AllDigits(s)
  {
    if s == "" then 0
    else
      assert IsDigit(s[|s| - 1]);
      Number(s[..|s| - 1]) * 10 + (s[|s| - 1] as int - '0' as int)
  }

  /** How many leading characters satisfy the test. */
  function Spaces(s: string): (n: nat)
    ensures n <= |s| && (n < |s| ==> !IsSpace(s[n]))
    ensures forall i :: 0 <= i < n ==> IsSpace(s[i])
  {
    if s != "" && IsSpace(s[0]) then 1 + Spaces(s[1..]) else 0
  }

  function Run(s: string): (n: nat)
    ensures n <= |s| && AllDigits(s[..n]) && (n < |s| ==> !IsDigit(s[n]))
  {
    if s != "" && IsDigit(s[0]) then 1 + Run(s[1..]) else 0
  }

  /** Blanks, an optional sign, then the longest run of digits. */
  function AtoiSpec(s: string): Parsed
  {
    var t := s[Spaces(s)..];
    var signed := t != "" && (t[0] == '+' || t[0] == '-');
    var u := if signed then t[1..] else t;
    var n: int := Number(u[..Run(u)]);
    if n > INT_MAX then Overflow else Value(if signed && t[0] == '-' then 0 - n else n)
  }

  lemma {:induction false} SpacesAt(s: string, n: nat)
    requires n <= |s| && (n < |s| ==> !IsSpace(s[n])) && forall i :: 0 <= i < n ==> IsSpace(s[i])
    ensures Spaces(s) == n
  {
    if n > 0 { SpacesAt(s[1..], n - 1); }
  }

  lemma {:induction false} RunAt(s: string, n: nat)
    requires n <= |s| && AllDigits(s[..n]) && (n < |s| ==> !IsDigit(s[n]))
    ensures Run(s) == n
  {
    if n > 0 {
      assert s[..n][0] == s[0];
      var u := s[1..][..n - 1];
      forall i | 0 <= i < |u| ensures IsDigit(u[i]) { assert u[i] == s[..n][i + 1]; }
      RunAt(s[1..], n - 1);
    }
  }

  /** Longer digit strings denote numbers at least as large. */
  lemma {:induction false} NumberGrows(s: string, k: nat)
    requires AllDigits(s) && k <= |s|
    ensures AllDigits(s[..k]) && Number(s[..k]) <= Number(s)
  {
    if k < |s| {
      var t := s[..|s| - 1];
      NumberGrows(t, k);
      assert t[..k] == s[..k];
    } else {
      assert s[..k] == s;
    }
  }

  method Atoi(s: string) returns (r: Parsed)
    ensures r == AtoiSpec(s)
  {
    hide Number, Run, Spaces;
    var p := 0;
    while p < |s| && IsSpace(s[p])
      invariant 0 <= p <= |s| && forall i :: 0 <= i < p ==> IsSpace(s[i])
    {
      p := p + 1;
    }
    SpacesAt(s, p);
    var t := s[p..];
    var sign := 1;
    if t != "" && (t[0] == '+' || t[0] == '-') {
      if t[0] == '-' {
        sign := -1;
      }
      t := t[1..];
    }
    var k, result := 0, 0;
    assert t[..0] == "";
    NumberEmpty();
    while k < |t| && IsDigit(t[k])
      invariant 0 <= k <= |t| && AllDigits(t[..k]) && 0 <= result == Number(t[..k]) <= INT_MAX
    {
      NumberNext(t, k);
      if result * 10 + (t[k] as int - '0' as int) > INT_MAX {
        NumberInRun(t, k + 1);
        return Overflow;
      }
      result := result * 10 + (t[k] as int - '0' as int);
      k := k + 1;
    }
    RunAt(t, k);
    return Value(sign * result);
  }

  lemma NumberEmpty()
    ensures Number("") == 0
  {}

  lemma NumberNext(t: string, k: nat)
    requires k < |t| && AllDigits(t[..k]) && IsDigit(t[k])
    ensures AllDigits(t[..k + 1]) && Number(t[..k + 1]) == Number(t[..k]) * 10 + (t[k] as int - '0' as int)
  {
    var u := t[..k + 1];
    assert u[..k] == t[..k];
    forall i | 0 <= i < |u| ensures IsDigit(u[i]) { if i < k { assert u[i] == t[..k][i]; } }
  }

  lemma NumberInRun(t: string, k: nat)
    requires k <= |t| && AllDigits(t[..k])
    ensures k <= Run(t) && Number(t[..k]) <= Number(t[..Run(t)])
  {
    var n := Run(t);
    RunCovers(t, k);
    NumberGrows(t[..n], k);
    assert t[..n][..k] == t[..k];
  }

  lemma {:induction false} RunCovers(t: string, k: nat)
    requires k <= |t| && AllDigits(t[..k])
    ensures k <= Run(t)
  {
    if k > 0 {
      assert t[..k][0] == t[0];
      var u := t[1..][..k - 1];
      forall i | 0 <= i < |u| ensures IsDigit(u[i]) { assert u[i] == t[..k][i + 1]; }
      RunCovers(t[1..], k - 1);
    }
  }

  /** The value of a digit character of either case, -1 for any other. */
  function DigitValue(c: char): int
  {
    if '0' <= c <= '9' then c as int - '0' as int
    else if 'a' <= c <= 'f' then c as int - 'a' as int + 10
    else if 'A' <= c <= 'F' then c as int - 'A' as int + 10
    else -1
  }

  ghost predicate Numeral(s: string, base: nat) { forall i :: 0 <= i < |s| ==> 0 <= DigitValue(s[i]) < base }

  /** The number a numeral denotes, by place value. */
  function NumberIn(s: string, base: nat): (n: nat)
    requires Numeral(s, base)
  {
    if s == "" then 0 else NumberIn(s[..|s| - 1], base) * base + DigitValue(s[|s| - 1])
  }

  lemma NumberAppend(init: string, base: nat, d: nat, upper: bool)
    requires Numeral(init, base) && d < base <= 16
    ensures var t := init + [DigitChar(d, upper)];
            Numeral(t, base) && NumberIn(t, base) == NumberIn(init, base) * base + d
  {
    var t := init + [DigitChar(d, upper)];
    assert t[..|t| - 1] == init && DigitValue(t[|t| - 1]) == d;
  }

  /** In every base, what is printed denotes the value and has no leading zero. */
  lemma {:induction false} NumberOfDigits(v: nat, base: nat, upper: bool)
    requires 2 <= base <= 16
    ensures Numeral(Digits(v, base, upper), base) && NumberIn(Digits(v, base, upper), base) == v
    ensures v != 0 ==> DigitValue(Digits(v, base, upper)[0]) != 0
  {
    Smaller(v, base);
    Arith64.DivisionEquation(v, base);
    var init := if v / base == 0 then "" else Digits(v / base, base, upper);
    if v / base != 0 { NumberOfDigits(v / base, base, upper); }
    assert Digits(v, base, upper) == init + [DigitChar(v % base, upper)];
    hide Digits, DigitChar, DigitValue;
    NumberAppend(init, base, v % base, upper);
    FirstDigit(v, base, upper, init);
  }

  lemma FirstDigit(v: nat, base: nat, upper: bool, init: string)
    requires 2 <= base <= 16 && v == base * (v / base) + v % base && 0 <= v % base < base
    requires v / base == 0 <==> init == ""
    requires init != "" ==> DigitValue(init[0]) != 0
    ensures v != 0 ==> DigitValue((init + [DigitChar(v % base, upper)])[0]) != 0
  {
    if init == "" { assert base * (v / base) == 0; }
  }

  /** Decimal numerals are the strings atoi reads. */
  lemma {:induction false} Decimal(s: string)
    requires Numeral(s, 10)
    ensures AllDigits(s) && Number(s) == NumberIn(s, 10)
  {
    forall i | 0 <= i < |s| ensures IsDigit(s[i]) { assert 0 <= DigitValue(s[i]) < 10; }
    if s != "" {
      assert IsDigit(s[|s| - 1]);
      Decimal(s[..|s| - 1]);
    }
  }

  lemma Printed(m: nat)
    ensures var d := Digits(m, 10, false); AllDigits(d) && Number(d) == m
  {
    hide Digits, Number;
    NumberOfDigits(m, 10, false);
    Decimal(Digits(m, 10, false));
  }

  /** What atoi makes of a run of digits, with or without a minus sign. */
  lemma AtoiOfDigits(d: string, m: nat)
    requires d != "" && AllDigits(d) && Number(d) == m
    ensures AtoiSpec(d) == if m > INT_MAX then Overflow else Value(m)
    ensures AtoiSpec("-" + d) == if m > INT_MAX then Overflow else Value(0 - m)
  {
    hide Number, Run, Spaces;
    assert IsDigit(d[0]);
    RunAt(d, |d|);
    assert d[..|d|] == d;
    SpacesAt(d, 0);
    assert d[0..] == d;
    var s := "-" + d;
    SpacesAt(s, 0);
    assert s[0..] == s && s[1..] == d;
  }

  /** atoi undoes `%d` for every int but the smallest, whose magnitude is not an int. */
  lemma AtoiUndoesPrintExactly(v: int)
    requires INT_MIN <= v <= INT_MAX
    ensures AtoiSpec(SignedText(v)) == Value(v) <==> v != INT_MIN
  {
    hide Digits, AtoiSpec, AllDigits, Number;
    var m := if v < 0 then -v else v;
    Printed(m);
    AtoiOfDigits(Digits(m, 10, false), m);
  }

  // ---------------------------------------------------------------------
  // What each conversion means
  // ---------------------------------------------------------------------

  /** `t` is the numeral of `v`, without leading zeros. */
  ghost predicate Writes(t: string, v: nat, base: nat)
  {
    t != "" && Numeral(t, base) && NumberIn(t, base) == v && (t[0] == '0' ==> t == "0")
  }

  ghost predicate NoCapitals(t: string) { forall i :: 0 <= i < |t| ==> !('A' <= t[i] <= 'F') }
  ghost predicate NoSmall(t: string) { forall i :: 0 <= i < |t| ==> !('a' <= t[i] <= 'f') }

  ghost predicate WritesSigned(t: string, v: int)
  {
    if v < 0 then t != "" && t[0] == '-' && Writes(t[1..], -v, 10) else Writes(t, v, 10)
  }

  /** `t` is what conversion `c` is for. */
  ghost predicate Prints(c: char, args: seq<Arg>, t: string)
    requires Suits(c, args)
  {
    match c
    case 'c' => |t| == 1 && t[0] == args[0].c
    case 's' => if args[0].NullText? then t == "(null)" else t == args[0].s
    case 'd' => WritesSigned(t, args[0].i)
    case 'i' => WritesSigned(t, args[0].i)
    case 'u' => Writes(t, args[0].u, 10)
    case 'x' => Writes(t, args[0].u, 16) && NoCapitals(t)
    case 'X' => Writes(t, args[0].u, 16) && NoSmall(t)
    case 'p' => |t| > 2 && t[0] == '0' && t[1] == 'x' && Writes(t[2..], args[0].u, 16) && NoCapitals(t[2..])
    case '%' => t == "%"
    case 'f' => t == ""
    case _ => |t| == 2 && t[0] == '%' && t[1] == c
  }

  /** The whole format: each conversion prints its own argument, all else stands for itself. */
  ghost predicate Spells(fmt: string, args: seq<Arg>, t: string)
    requires WellTyped(fmt, args)
    decreases |fmt|
  {
    if |fmt| == 0 then t == ""
    else if fmt[0] != '%' then t != "" && t[0] == fmt[0] && Spells(fmt[1..], args, t[1..])
    else if |fmt| == 1 then t == ""
    else
      exists k :: 0 <= k <= |t| && Prints(fmt[1], args, t[..k]) &&
        Spells(fmt[2..], if fmt[1] in "csdiuxXp" then args[1..] else args, t[k..])
  }

  /** All letters of a numeral are of the case asked for. */
  lemma {:induction false} DigitsCase(v: nat, base: nat, upper: bool)
    requires 2 <= base <= 16
    ensures if upper then NoSmall(Digits(v, base, upper)) else NoCapitals(Digits(v, base, upper))
  {
    Smaller(v, base);
    if v / base != 0 { DigitsCase(v / base, base, upper); }
  }

  lemma DigitsWrite(v: nat, base: nat, upper: bool)
    requires 2 <= base <= 16
    ensures Writes(Digits(v, base, upper), v, base)
    ensures if upper then NoSmall(Digits(v, base, upper)) else NoCapitals(Digits(v, base, upper))
  {
    NumberOfDigits(v, base, upper);
    DigitsCase(v, base, upper);
    if v == 0 { assert 0 / base == 0 && 0 % base == 0; }
  }

  /** A digit character is determined by its value and case. */
  lemma DigitUnique(a: char, b: char)
    requires DigitValue(a) == DigitValue(b) >= 0
    requires (!('A' <= a <= 'F') && !('A' <= b <= 'F')) || (!('a' <= a <= 'f') && !('a' <= b <= 'f'))
    ensures a == b
  {}

  /** Dividing a numeral's value by the base takes off its last digit. */
  lemma NumberSplit(s: string, base: nat)
    requires s != "" && Numeral(s, base) && base > 0
    ensures Numeral(s[..|s| - 1], base)
    ensures var d := DigitValue(s[|s| - 1]);
            0 <= d < base && NumberIn(s, base) / base == NumberIn(s[..|s| - 1], base) && NumberIn(s, base) % base == d
  {
    var init, d := s[..|s| - 1], DigitValue(s[|s| - 1]);
    assert NumberIn(s, base) == NumberIn(init, base) * base + d;
    Arith64.DivisionUnique(NumberIn(s, base), base, NumberIn(init, base), d);
  }

  /** A numeral that starts with another digit than zero does not denote zero. */
  lemma {:induction false} NonZero(s: string, base: nat)
    requires s != "" && Numeral(s, base) && base > 0 && DigitValue(s[0]) != 0
    ensures NumberIn(s, base) != 0
  {
    if |s| > 1 {
      NonZero(s[..|s| - 1], base);
      NumberSplit(s, base);
      Arith64.DivisionUnique(0, base, 0, 0);
    } else {
      assert s[..0] == "";
    }
  }

  /** The digits but the last are the numeral of the quotient, if there is one. */
  lemma WritesInit(t: string, v: nat, base: nat)
    requires Writes(t, v, base) && base > 0
    ensures v / base >= 0 && (|t| == 1 <==> v / base == 0)
    ensures |t| > 1 ==> Writes(t[..|t| - 1], v / base, base)
    ensures DigitValue(t[|t| - 1]) == v % base
    ensures NoCapitals(t) ==> NoCapitals(t[..|t| - 1])
    ensures NoSmall(t) ==> NoSmall(t[..|t| - 1])
  {
    var init := t[..|t| - 1];
    NumberSplit(t, base);
    if init != "" { NonZero(init, base); }
  }

  /** Two numerals of one number, in one case and without leading zeros, are the same. */
  lemma {:induction false} NumeralUnique(a: string, b: string, v: nat, base: nat)
    requires Writes(a, v, base) && Writes(b, v, base) && base > 0
    requires (NoCapitals(a) && NoCapitals(b)) || (NoSmall(a) && NoSmall(b))
    ensures a == b
    decreases |a|
  {
    WritesInit(a, v, base);
    WritesInit(b, v, base);
    DigitUnique(a[|a| - 1], b[|b| - 1]);
    var a', b' := a[..|a| - 1], b[..|b| - 1];
    hide Numeral, NumberIn, NoCapitals, NoSmall, DigitValue;
    if |a| > 1 { NumeralUnique(a', b', v / base, base); }
    assert a == a' + [a[|a| - 1]] && b == b' + [b[|b| - 1]];
  }

  lemma SmallBase(t: string, base: nat)
    requires Numeral(t, base) && base <= 10
    ensures NoCapitals(t) && NoSmall(t)
  {
    forall i | 0 <= i < |t| ensures '0' <= t[i] <= '9' { assert DigitValue(t[i]) < base; }
  }

  /** The digits printed are the one numeral of the number in that base and case. */
  lemma WritesExactly(t: string, v: nat, base: nat, upper: bool)
    requires 2 <= base <= 16
    ensures t == Digits(v, base, upper) <==>
            Writes(t, v, base) && (if upper then NoSmall(t) else NoCapitals(t))
  {
    hide Digits, Numeral, NumberIn, NoCapitals, NoSmall;
    DigitsWrite(v, base, upper);
    if Writes(t, v, base) && (if upper then NoSmall(t) else NoCapitals(t)) {
      NumeralUnique(t, Digits(v, base, upper), v, base);
    }
  }

  lemma DecimalExactly(t: string, v: nat)
    ensures t == Digits(v, 10, false) <==> Writes(t, v, 10)
  {
    hide Digits, NumberIn, NoCapitals, NoSmall;
    WritesExactly(t, v, 10, false);
    if Writes(t, v, 10) { SmallBase(t, 10); }
  }

  lemma SignedExactly(t: string, v: int)
    ensures t == SignedText(v) <==> WritesSigned(t, v)
  {
    hide Digits, Writes;
    if v < 0 {
      DecimalExactly(if t == "" then t else t[1..], -v);
      if t != "" && t[0] == '-' { assert t == "-" + t[1..]; }
    } else {
      DecimalExactly(t, v);
    }
  }

  lemma PointerExactly(t: string, v: nat)
    ensures t == "0x" + Digits(v, 16, false) <==>
            |t| > 2 && t[0] == '0' && t[1] == 'x' && Writes(t[2..], v, 16) && NoCapitals(t[2..])
  {
    hide Digits, Writes, NoCapitals;
    if |t| >= 2 {
      WritesExactly(t[2..], v, 16, false);
      if t[0] == '0' && t[1] == 'x' { assert t == "0x" + t[2..]; }
    }
  }

  /** What is printed for a conversion is the one text it is for. */
  lemma ConvertedExactly(c: char, args: seq<Arg>, t: string)
    requires Suits(c, args)
    ensures Prints(c, args, t) <==> t == Converted(c, args)
  {
    hide Digits, Writes, NoCapitals, NoSmall, WritesSigned, SignedText;
    match c
    case 'd' => SignedExactly(t, args[0].i);
    case 'i' => SignedExactly(t, args[0].i);
    case 'u' => DecimalExactly(t, args[0].u);
    case 'x' => WritesExactly(t, args[0].u, 16, false);
    case 'X' => WritesExactly(t, args[0].u, 16, true);
    case 'p' => PointerExactly(t, args[0].u);
    case _ =>
  }

  /** What is printed for a format is the one text it spells. */
  lemma {:induction false} SpelledExactly(fmt: string, args: seq<Arg>, t: string)
    requires WellTyped(fmt, args)
    ensures Spells(fmt, args, t) <==> t == Rendered(fmt, args)
    decreases |fmt|
  {
    hide Converted, Prints;
    if |fmt| == 0 {
    } else if fmt[0] != '%' {
      if t != "" {
        SpelledExactly(fmt[1..], args, t[1..]);
        assert t == [t[0]] + t[1..];
      }
    } else if |fmt| > 1 {
      var c, rest := fmt[1], args[Takes(fmt[1])..];
      var head := Converted(c, args);
      assert rest == if c in "csdiuxXp" then args[1..] else args;
      forall k | 0 <= k <= |t|
        ensures Prints(c, args, t[..k]) && Spells(fmt[2..], rest, t[k..]) <==>
                t[..k] == head && t[k..] == Rendered(fmt[2..], rest)
      {
        ConvertedExactly(c, args, t[..k]);
        SpelledExactly(fmt[2..], rest, t[k..]);
        assert t == t[..k] + t[k..];
      }
      if t == Rendered(fmt, args) {
        assert t[..|head|] == head && t[|head|..] == Rendered(fmt[2..], rest);
      }
    }
  }

  /** What vsnprintf prints for `%d` is that text. */
  lemma RenderedInt(v: int)
    requires INT_MIN <= v <= INT_MAX
    ensures WellTyped("%d", [Int(v)]) && Rendered("%d", [Int(v)]) == SignedText(v)
  {
    assert "%d"[2..] == "";
    assert SignedText(v) + "" == SignedText(v);
  }
}
