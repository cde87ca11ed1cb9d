/** The 64-bit integer helpers that 32-bit builds link instead of libgcc
    (freestanding/compat/arith64.c).

    A machine word is the integer in [0, 2^64) it denotes; every place where C
    would wrap is written out with `% WORD`. */
module Arith64 {

  const WORD: int := 0x1_0000_0000_0000_0000
  const SIGN: int := 0x8000_0000_0000_0000

  type u64 = x: int | 0 <= x < WORD
  type s64 = x: int | -SIGN <= x < SIGN

  /** Outcome of a division: `Trap` is the deliberate 1/0 of the source. */
  datatype Division = Trap | Divided(quot: u64, rem: u64)

  // ---------------------------------------------------------------------
  // Powers of two and the shift operators
  // ---------------------------------------------------------------------

  function Pow2(n: nat): (p: int)
    ensures p >= 1
  {
    if n == 0 then 1 else 2 * Pow2(n - 1)
  }

  /** Reduction modulo 2^64. */
  function Wrap(x: int): u64 { x % 0x1_0000_0000_0000_0000 }

  function Shl(x: u64, n: nat): u64 { Wrap(x * Pow2(n)) }

  function Shr(x: u64, n: nat): u64 {
    QuotientBound(x, Pow2(n));
    x / Pow2(n)
  }

  /** `x & ~(2^k - 1)`: the bits of `x` at position `k` and above. */
  function HighBits(x: u64, k: nat): int { x - x % Pow2(k) }

  /** `(s64)x >> 63`: the sign bit of `x` copied into every position. */
  function SignFill(x: u64): u64 { if x >= SIGN then WORD - 1 else 0 }

  lemma MulMono(a: int, b: int, k: int)
    requires a <= b && k >= 0
    ensures a * k <= b * k
  {}

  lemma MulAssoc(a: int, b: int, c: int)
    ensures (a * b) * c == a * (b * c)
  {}

  /** `q` and `r` are the quotient and remainder as soon as they satisfy the
      division equation. */
  lemma DivisionUnique(x: int, p: int, q: int, r: int)
    requires p >= 1 && x == q * p + r && 0 <= r < p
    ensures x / p == q && x % p == r
  {
    var q', r' := x / p, x % p;
    assert (q - q') * p == r' - r;
    if q > q' { MulMono(1, q - q', p); } else if q < q' { MulMono(q - q', -1, p); }
  }

  lemma QuotientBound(x: int, p: int)
    requires p >= 1 && x >= 0
    ensures 0 <= x / p <= x
  {
    var q := x / p;
    if q < 0 { MulMono(q, -1, p); }
    if q > x { MulMono(1, p, q); }
  }

  lemma {:induction false} Pow2Add(m: nat, n: nat)
    ensures Pow2(m + n) == Pow2(m) * Pow2(n)
  {
    if m != 0 {
      Pow2Add(m - 1, n);
      assert m + n - 1 == m - 1 + n;
      assert Pow2(m) * Pow2(n) == 2 * (Pow2(m - 1) * Pow2(n));
    }
  }

  lemma {:induction false} Pow2Mono(m: nat, n: nat)
    requires m <= n
    ensures Pow2(m) <= Pow2(n)
  {
    if m < n { Pow2Mono(m, n - 1); }
  }

  lemma Pow2Values()
    ensures Pow2(1) == 2 && Pow2(2) == 4 && Pow2(4) == 16 && Pow2(8) == 256
    ensures Pow2(16) == 0x1_0000 && Pow2(32) == 0x1_0000_0000
    ensures Pow2(48) == 0x1_0000_0000_0000 && Pow2(56) == 0x100_0000_0000_0000
    ensures Pow2(60) == 0x1000_0000_0000_0000 && Pow2(62) == 0x4000_0000_0000_0000
    ensures Pow2(63) == SIGN && Pow2(64) == WORD
  {
    assert Pow2(3) == 8 && Pow2(4) == 16;
    Pow2Add(4, 4);
    Pow2Add(8, 8);
    Pow2Add(16, 16);
    Pow2Add(32, 16);
    Pow2Add(48, 8);
    Pow2Add(56, 4);
    Pow2Add(60, 2);
    assert Pow2(63) == 2 * Pow2(62) && Pow2(64) == 2 * Pow2(63);
  }

  // ---------------------------------------------------------------------
  // __clzdi2
  // ---------------------------------------------------------------------

  /** `n` is the number of zero bits above the highest one bit of `a`. */
  predicate LeadingZeros(a: u64, n: int)
  {
    0 <= n <= 63 && Pow2(63 - n) <= a < Pow2(64 - n)
  }

  /** One halving stage of the count: when the top `k` bits of `x` are clear the
      shift by `k` loses nothing. */
  lemma StageShift(x: u64, k: nat)
    requires k <= 64 && x < Pow2(64 - k)
    ensures Shl(x, k) == x * Pow2(k)
  {
    var p, h := Pow2(k), Pow2(64 - k);
    assert h * p == WORD by { Pow2Add(64 - k, k); Pow2Values(); }
    MulMono(x + 1, h, p);
    assert 0 <= x * p < WORD by { assert (x + 1) * p == x * p + p; MulMono(0, x, p); }
  }

  lemma HighBitsZero(x: u64, k: nat)
    ensures HighBits(x, k) == 0 <==> x < Pow2(k)
  {
    var p := Pow2(k);
    if x < p { DivisionUnique(x, p, 0, x); }
  }

  /** What one taken stage does to the value: nothing is lost and, if one of the
      top `2k` bits was set, one of the top `k` now is. */
  lemma StageGain(a0: u64, x: u64, n: nat, k: nat)
    requires 1 <= k <= 32 && x == a0 * Pow2(n)
    requires 1 <= x < Pow2(64 - k)
    requires 2 * k == 64 || x >= Pow2(64 - 2 * k)
    ensures Shl(x, k) == a0 * Pow2(n + k)
    ensures Shl(x, k) >= Pow2(64 - k)
  {
    StageShift(x, k);
    Pow2Add(n, k);
    MulAssoc(a0, Pow2(n), Pow2(k));
    var low := if 2 * k == 64 then 1 else Pow2(64 - 2 * k);
    if 2 * k != 64 { Pow2Add(64 - 2 * k, k); }
    MulMono(low, x, Pow2(k));
  }

  /** One stage of the binary search: if the top `k` bits are clear, shift them
      out and add `k` to the count. */
  method ClzStage(ghost a0: u64, x: u64, n: nat, k: nat) returns (y: u64, m: nat)
    requires 1 <= k <= 32 && x >= 1 && x == a0 * Pow2(n)
    requires 2 * k == 64 || x >= Pow2(64 - 2 * k)
    ensures n <= m <= n + k && y == a0 * Pow2(m)
    ensures y >= Pow2(64 - k)
  {
    HighBitsZero(x, 64 - k);
    if HighBits(x, 64 - k) == 0 {
      StageGain(a0, x, n, k);
      m := n + k;
      y := Shl(x, k);
    } else {
      m := n;
      y := x;
    }
  }

  lemma CancelPow2(a: int, lo: int, hi: int, p: int)
    requires p >= 1 && lo * p <= a * p < hi * p
    ensures lo <= a < hi
  {
    if a < lo { MulMono(a + 1, lo, p); }
    if a >= hi { MulMono(hi, a, p); }
  }

  /** __clzdi2: six halving stages. */
  method Clz(a: u64) returns (n: nat)
    requires a != 0
    ensures LeadingZeros(a, n)
  {
    assert a == a * Pow2(0);
    var x, c := ClzStage(a, a, 0, 32);
    x, c := ClzStage(a, x, c, 16);
    x, c := ClzStage(a, x, c, 8);
    x, c := ClzStage(a, x, c, 4);
    x, c := ClzStage(a, x, c, 2);
    x, c := ClzStage(a, x, c, 1);
    n := c;
    assert Pow2(63 - n) * Pow2(n) == SIGN by { Pow2Add(63 - n, n); Pow2Values(); }
    assert Pow2(64 - n) * Pow2(n) == WORD by { Pow2Add(64 - n, n); Pow2Values(); }
    assert Pow2(63) == SIGN by { Pow2Values(); }
    CancelPow2(a, Pow2(63 - n), Pow2(64 - n), Pow2(n));
  }

  /** The count is determined by the value. */
  lemma LeadingZerosUnique(a: u64, m: int, n: int)
    requires LeadingZeros(a, m) && LeadingZeros(a, n)
    ensures m == n
  {
    if m < n { Pow2Mono(64 - n, 63 - m); }
    if n < m { Pow2Mono(64 - m, 63 - n); }
  }

  /** A larger value has at most as many leading zeros. */
  lemma LeadingZerosAntitone(a: u64, m: int, b: u64, n: int)
    requires LeadingZeros(a, m) && LeadingZeros(b, n) && b <= a
    ensures m <= n
  {
    if n < m { Pow2Mono(64 - m, 63 - n); }
  }

  // ---------------------------------------------------------------------
  // __divmoddi4
  // ---------------------------------------------------------------------

  /** The state of the shift-and-subtract loop with `m` numerator bits to go.
      `q` is the quotient found so far; the register `a` holds the unread
      numerator bits on top and all of `q` but its last bit below, and the last
      bit of `q` waits in `wrap`. */
  ghost predicate LongDivision(num: u64, b: u64, m: nat, q: int, rem: int, a: int, wrap: int)
  {
    && m <= 63
    && num / Pow2(m) == q * b + rem && 0 <= rem < b && 0 <= q
    && q < Pow2(64 - m)
    && a == (num % Pow2(m)) * Pow2(64 - m) + q / 2
    && wrap == (if q % 2 == 1 then WORD - 1 else 0)
  }

  /** Writing `num` as `q*p + s`, the low bit of `q` is the bit of `num` at
      weight `p`; shifted up by `r = 2^63 / p` it becomes the sign bit. */
  lemma SplitBit(num: int, p: int)
    requires num >= 0 && p >= 1
    ensures var bit := (num / p) % 2;
            num / (2 * p) == num / p / 2 && num % (2 * p) == bit * p + num % p
  {
    var q, s := num / p, num % p;
    assert num == q * p + s;
    assert q == 2 * (q / 2) + q % 2;
    var e, bit := q / 2, q % 2;
    assert (2 * e + bit) * p == e * (2 * p) + bit * p;
    assert bit * p + s < 2 * p;
    DivisionUnique(num, 2 * p, e, bit * p + s);
  }

  lemma ShiftBit(p: int, r: int, bit: int, s: int, h: int)
    requires p >= 1 && r >= 1 && p * r == SIGN
    requires 0 <= bit <= 1 && 0 <= s < p && 0 <= h < r
    ensures 0 <= s * r + h / 2 < SIGN
    ensures (bit * p + s) * r + h / 2 == (if bit == 1 then SIGN else 0) + (s * r + h / 2)
  {
    MulMono(s, p - 1, r);
    assert (p - 1) * r == p * r - r;
    MulMono(0, s, r);
    MulAssoc(bit, p, r);
  }

  /** The top bit of the register, and what stays below it. */
  lemma TopBit(num: u64, m: nat, h: int)
    requires 1 <= m <= 63 && 0 <= h < Pow2(64 - m)
    ensures var bit := (num / Pow2(m - 1)) % 2;
            var a := (num % Pow2(m)) * Pow2(64 - m) + h / 2;
            var rest := (num % Pow2(m - 1)) * Pow2(64 - m) + h / 2;
            && a == (if bit == 1 then SIGN else 0) + rest && 0 <= rest < SIGN
            && num / Pow2(m - 1) == 2 * (num / Pow2(m)) + bit
  {
    var p, r := Pow2(m - 1), Pow2(64 - m);
    assert p * r == SIGN by { Pow2Add(m - 1, 64 - m); Pow2Values(); }
    assert Pow2(m) == 2 * p;
    SplitBit(num, p);
    ShiftBit(p, r, (num / p) % 2, num % p, h);
  }

  /** The branch-free comparison `(s64)(b - rem - 1) >> 63` is all ones exactly
      when `rem >= b`, although `b - rem - 1` is computed modulo 2^64. */
  lemma SignTrick(b: u64, rem: u64)
    requires (b < SIGN && rem < 2 * b) || (b <= rem && rem - b < SIGN)
    ensures SignFill(Wrap(b - rem - 1)) == if b > rem then 0 else WORD - 1
  {}

  /** One turn of the loop, on values. */
  function LoopStep(b: u64, rem: u64, a: u64, wrap: u64): (u64, u64, u64)
  {
    var rem1 := Wrap(2 * rem + a / 0x8000_0000_0000_0000);
    var a1 := Wrap(2 * a + wrap % 2);
    var wrap1 := SignFill(Wrap(b - rem1 - 1));
    (Wrap(rem1 - (if wrap1 == 0 then 0 else b)), a1, wrap1)
  }

  /** Schoolbook step: bringing down `bit` and subtracting `b` when it fits. */
  lemma BringDown(n: int, q: int, b: int, rem: int, bit: int)
    requires n == q * b + rem && 0 <= rem < b && q >= 0 && 0 <= bit <= 1
    ensures 2 * rem + bit <= 2 * n + bit
    ensures 2 * rem + bit < b ==> 2 * n + bit == (2 * q) * b + (2 * rem + bit)
    ensures 2 * rem + bit >= b ==> 2 * n + bit == (2 * q + 1) * b + (2 * rem + bit - b)
  {
    MulMono(0, q, b);
    assert (2 * q) * b == 2 * (q * b);
    assert (2 * q + 1) * b == 2 * (q * b) + b;
  }

  /** What a turn computes, free of wrap-around. */
  lemma TurnValues(b: u64, rem: u64, bit: int, a: u64, wrap: u64)
    requires rem < b && 0 <= bit <= 1 && 2 * rem + bit < WORD
    requires a / 0x8000_0000_0000_0000 == bit
    requires b < SIGN || b <= 2 * rem + bit
    ensures var (rem1, _, wrap1) := LoopStep(b, rem, a, wrap);
            var r := 2 * rem + bit;
            && rem1 == (if r < b then r else r - b)
            && wrap1 == (if r < b then 0 else WORD - 1)
  {
    SignTrick(b, 2 * rem + bit);
  }

  /** The remainder and `wrap` parts of a turn. */
  lemma RemainderTurn(n: int, b: u64, q: int, rem: u64, bit: int, a: u64, wrap: u64)
    returns (q1: int)
    requires n == q * b + rem && rem < b && q >= 0 && 0 <= bit <= 1
    requires 2 * n + bit < WORD && a / 0x8000_0000_0000_0000 == bit
    requires b < SIGN || (n == rem && b <= 2 * n + bit)
    ensures var (rem1, _, wrap1) := LoopStep(b, rem, a, wrap);
            && q1 / 2 == q && 2 * n + bit == q1 * b + rem1 && rem1 < b
            && wrap1 == (if q1 % 2 == 1 then WORD - 1 else 0)
  {
    BringDown(n, q, b, rem, bit);
    TurnValues(b, rem, bit, a, wrap);
    q1 := if 2 * rem + bit < b then 2 * q else 2 * q + 1;
  }

  /** The register part of a turn: the top bit leaves, the quotient bit that was
      waiting in `wrap` enters.  `t` is the unread part of the numerator. */
  lemma RegisterTurn(t: int, bit: int, q: int, b: u64, rem: u64, a: u64, wrap: u64)
    requires 0 <= bit <= 1 && a == (if bit == 1 then SIGN else 0) + (t + q / 2)
    requires 0 <= t + q / 2 < SIGN && wrap == (if q % 2 == 1 then WORD - 1 else 0)
    ensures a / 0x8000_0000_0000_0000 == bit
    ensures LoopStep(b, rem, a, wrap).1 == 2 * t + q
  {}

  lemma DoubleRight(s: int, r: int)
    ensures s * (2 * r) == 2 * (s * r)
  {}

  /** Each turn of the loop brings in one numerator bit and one quotient bit. */
  lemma LongDivisionStep(num: u64, b: u64, m: nat, q: int, rem: u64, a: u64, wrap: u64)
    returns (q1: int)
    requires m >= 1 && LongDivision(num, b, m, q, rem, a, wrap)
    requires b < SIGN || (m == 1 && q == 0 && b <= num)
    ensures var (rem1, a1, wrap1) := LoopStep(b, rem, a, wrap);
            LongDivision(num, b, m - 1, q1, rem1, a1, wrap1)
  {
    hide LoopStep;
    TopBit(num, m, q);
    var n, bit := num / Pow2(m), (num / Pow2(m - 1)) % 2;
    var s, r := num % Pow2(m - 1), Pow2(64 - m);
    RegisterTurn(s * r, bit, q, b, rem, a, wrap);
    DoubleRight(s, r);
    QuotientBound(num, Pow2(m - 1));
    if b >= SIGN { assert q * b == 0; }
    q1 := RemainderTurn(n, b, q, rem, bit, a, wrap);
    assert Pow2(65 - m) == 2 * Pow2(64 - m);
  }

  /** The shift counts stay in 1..63, and are 1 for a divisor with its top bit set. */
  lemma IterationCount(a: u64, b: u64, ca: int, cb: int)
    requires 2 <= b <= a && LeadingZeros(a, ca) && LeadingZeros(b, cb)
    ensures 1 <= cb - ca + 1 <= 63
    ensures b >= SIGN ==> cb - ca + 1 == 1
  {
    LeadingZerosAntitone(a, ca, b, cb);
    if b >= SIGN { TopBitZeros(b, cb); }
    SmallZeros(b, cb);
  }

  lemma TopBitZeros(b: u64, cb: int)
    requires LeadingZeros(b, cb) && b >= SIGN
    ensures cb == 0
  {
    Pow2Values();
    hide Pow2;
    if cb > 0 { Pow2Mono(64 - cb, 63); }
  }

  lemma SmallZeros(b: u64, cb: int)
    requires LeadingZeros(b, cb) && b >= 2
    ensures cb <= 62
  {
    assert Pow2(1) == 2;
  }

  lemma QuotientBelow(a: int, p: int, h: int, b: int)
    requires p >= 1 && a < h * p && h <= b
    ensures a / p < b
  {
    var q := a / p;
    if q >= h { MulMono(h, q, p); }
  }

  /** The leading-zero counts make the first partial remainder smaller than the
      divisor. */
  lemma FirstRemainder(a: u64, b: u64, ca: int, cb: int)
    requires LeadingZeros(a, ca) && LeadingZeros(b, cb) && ca <= cb
    ensures a / Pow2(cb - ca + 1) < b
  {
    var m := cb - ca + 1;
    Pow2Add(63 - cb, m);
    assert 63 - cb + m == 64 - ca;
    QuotientBelow(a, Pow2(m), Pow2(63 - cb), b);
  }

  /** Before the loop. */
  lemma LongDivisionStart(a: u64, b: u64, ca: int, cb: int)
    requires 2 <= b <= a && LeadingZeros(a, ca) && LeadingZeros(b, cb)
    ensures var m := cb - ca + 1;
            && 1 <= m <= 63 && (b >= SIGN ==> m == 1)
            && LongDivision(a, b, m, 0, Shr(a, m), Shl(a, 64 - m), 0)
  {
    IterationCount(a, b, ca, cb);
    var m := cb - ca + 1;
    FirstRemainder(a, b, ca, cb);
    LeftJustify(a, m);
    QuotientBound(a, Pow2(m));
    assert 0 * b == 0;
  }

  lemma WrapMultiple(a: int, p: int, r: int)
    requires a >= 0 && p >= 1 && r >= 1 && p * r == WORD
    ensures Wrap(a * r) == (a % p) * r
  {
    var q, s := a / p, a % p;
    assert a * r == q * WORD + s * r by {
      MulAssoc(q, p, r);
      assert (q * p + s) * r == (q * p) * r + s * r;
    }
    assert 0 <= s * r < WORD by {
      MulMono(s, p - 1, r);
      assert (p - 1) * r == p * r - r;
      MulMono(0, s, r);
    }
  }

  /** Shifting left by `64 - m` keeps exactly the low `m` bits, at the top. */
  lemma LeftJustify(a: u64, m: nat)
    requires 1 <= m <= 63
    ensures Shl(a, 64 - m) == (a % Pow2(m)) * Pow2(64 - m)
  {
    assert Pow2(m) * Pow2(64 - m) == WORD by { Pow2Add(m, 64 - m); Pow2Values(); }
    WrapMultiple(a, Pow2(m), Pow2(64 - m));
  }

  /** After the loop. */
  lemma LongDivisionEnd(num: u64, b: u64, q: int, rem: u64, a: u64, wrap: u64)
    requires LongDivision(num, b, 0, q, rem, a, wrap)
    ensures num / b == q && num % b == rem && q < WORD && Wrap(2 * a + wrap % 2) == q
  {
    assert num == q * b + rem && a == q / 2 by { UnitScale(num, Pow2(64)); }
    assert q < WORD by { Pow2Values(); }
    DivisionUnique(num, b, q, rem);
    LastBit(q, wrap);
  }

  lemma UnitScale(num: int, r: int)
    ensures num / Pow2(0) == num && (num % Pow2(0)) * r == 0
  {
    assert Pow2(0) == 1;
  }

  lemma LastBit(q: int, wrap: int)
    requires 0 <= q < WORD && wrap == (if q % 2 == 1 then WORD - 1 else 0)
    ensures Wrap(2 * (q / 2) + wrap % 2) == q
  {}

  /** The loop of __divmoddi4 (arith64.c:203-217). */
  method ShiftSubtract(a: u64, b: u64) returns (quot: u64, rem: u64)
    requires 2 <= b <= a
    ensures quot == a / b && rem == a % b
  {
    hide LongDivision;
    var cb := Clz(b);
    var ca := Clz(a);
    LongDivisionStart(a, b, ca, cb);
    var bits := cb - ca + 1;
    rem := Shr(a, bits);
    var x: u64 := Shl(a, 64 - bits);
    var wrap: u64 := 0;
    ghost var q := 0;
    while bits > 0
      invariant 0 <= bits && LongDivision(a, b, bits, q, rem, x, wrap)
      invariant b < SIGN || bits == 0 || (bits == 1 && q == 0)
    {
      q := LongDivisionStep(a, b, bits, q, rem, x, wrap);
      bits := bits - 1;
      rem := Wrap(2 * rem + x / 0x8000_0000_0000_0000);
      x := Wrap(2 * x + wrap % 2);
      wrap := SignFill(Wrap(b - rem - 1));
      rem := Wrap(rem - (if wrap == 0 then 0 else b));
    }
    LongDivisionEnd(a, b, q, rem, x, wrap);
    quot := Wrap(2 * x + wrap % 2);
  }

  /** __divmoddi4: exact unsigned division for every numerator and every
      nonzero divisor; a zero divisor raises the exception. */
  method DivMod(a: u64, b: u64) returns (d: Division)
    ensures b == 0 ==> d == Trap
    ensures b != 0 ==> d == Divided(a / b, a % b)
  {
    if b > a {
      DivisionUnique(a, b, 0, a);
      return Divided(0, a);
    }
    if b / 0x1_0000_0000 == 0 {
      if b == 0 { return Trap; }
      if b == 1 { return Divided(a, 0); }
      if a / 0x1_0000_0000 == 0 {
        QuotientBound(a, b);
        return Divided(a / b, a % b);
      }
    }
    var quot, rem := ShiftSubtract(a, b);
    return Divided(quot, rem);
  }

  // ---------------------------------------------------------------------
  // __udivmoddi4
  // ---------------------------------------------------------------------

  /** The second loop: `den` is the divisor scaled by the quotient bit being
      tried, and what is left of the numerator is below twice that. */
  ghost predicate Restoring(num0: u64, d: u64, num: u64, den: u64, quot: u64, qbit: u64)
  {
    && num0 == quot * d + num
    && (if qbit == 0 then num < d
        else exists k: nat :: qbit == Pow2(k) && den == d * Pow2(k) && num < 2 * den)
  }

  /** One quotient bit: subtract when it fits, then halve divisor and bit. */
  lemma RestoringStep(num0: u64, d: u64, num: u64, den: u64, quot: u64, qbit: u64)
    requires d >= 1 && qbit != 0 && Restoring(num0, d, num, den, quot, qbit)
    ensures var num1 := if den <= num then num - den else num;
            var quot1 := if den <= num then quot + qbit else quot;
            quot1 < WORD && Restoring(num0, d, num1, den / 2, quot1, qbit / 2)
  {
    var k: nat :| qbit == Pow2(k) && den == d * Pow2(k) && num < 2 * den;
    HalfPower(d, k);
    hide Pow2;
    RestoringAlgebra(num0, d, num, den, quot, qbit);
    var num1 := if den <= num then num - den else num;
    if k > 0 { assert qbit / 2 == Pow2(k - 1) && den / 2 == d * Pow2(k - 1) && num1 < 2 * (den / 2); }
  }

  /** Subtracting the shifted divisor or not, on integers. */
  lemma RestoringAlgebra(num0: int, d: int, num: int, den: int, quot: int, qbit: int)
    requires d >= 1 && num >= 0 && quot >= 0 && qbit >= 0 && num0 == quot * d + num && den == d * qbit && num < 2 * den
    ensures var num1 := if den <= num then num - den else num;
            var quot1 := if den <= num then quot + qbit else quot;
            0 <= num1 < den && num0 == quot1 * d + num1 && quot1 <= num0
  {
    var num1 := if den <= num then num - den else num;
    var quot1 := if den <= num then quot + qbit else quot;
    assert (quot + qbit) * d == quot * d + d * qbit;
    FactorBound(quot1, d, num0 - num1);
  }

  lemma FactorBound(q: int, d: int, n: int)
    requires d >= 1 && q >= 0 && q * d == n
    ensures q <= n
  {
    MulMono(1, d, q);
  }

  lemma HalfPower(d: int, k: nat)
    ensures k == 0 ==> Pow2(k) / 2 == 0 && d * Pow2(k) == d
    ensures k > 0 ==> Pow2(k) / 2 == Pow2(k - 1) >= 1
    ensures k > 0 ==> d * Pow2(k) / 2 == d * Pow2(k - 1) && d * Pow2(k) == 2 * (d * Pow2(k - 1))
  {
    if k > 0 {
      var p := Pow2(k - 1);
      assert d * (2 * p) == 2 * (d * p);
      DivisionUnique(2 * (d * p), 2, d * p, 0);
    }
  }

  /** Doubling the divisor once more keeps it a multiple by a power of two. */
  lemma DoubleDivisor(d: u64, den: u64, qbit: u64, k: nat)
    requires d >= 1 && qbit == Pow2(k) && den == d * Pow2(k)
    ensures 2 * qbit == Pow2(k + 1) && 2 * den == d * Pow2(k + 1) && qbit <= den
  {
    assert d * (2 * Pow2(k)) == 2 * (d * Pow2(k));
    MulMono(1, d, qbit);
  }

  /** The first loop: shift the divisor up until its top bit is set. */
  method LeftJustifyDivisor(ghost num0: u64, d: u64) returns (den: u64, qbit: u64)
    requires d >= 1
    ensures qbit >= 1 && Restoring(num0, d, num0, den, 0, qbit)
  {
    hide Restoring;
    den, qbit := d, 1;
    ghost var k: nat := 0;
    while den < SIGN
      invariant 1 <= den && 1 <= qbit && qbit == Pow2(k) && den == d * Pow2(k)
      decreases WORD - den
    {
      DoubleDivisor(d, den, qbit, k);
      den := Wrap(2 * den);
      qbit := Wrap(2 * qbit);
      k := k + 1;
    }
    RestoringStart(num0, d, den, qbit, k);
  }

  /** __udivmoddi4 (from libgcc) agrees with __divmoddi4 on every input. */
  method UDivMod(num0: u64, d: u64) returns (r: Division)
    ensures d == 0 ==> r == Trap
    ensures d != 0 ==> r == Divided(num0 / d, num0 % d)
  {
    hide Restoring;
    if d == 0 { return Trap; }
    var den, qbit := LeftJustifyDivisor(num0, d);
    var num, quot: u64 := num0, 0;
    while qbit != 0
      invariant Restoring(num0, d, num, den, quot, qbit)
      decreases qbit
    {
      RestoringStep(num0, d, num, den, quot, qbit);
      if den <= num {
        num := num - den;
        quot := quot + qbit;
      }
      den := den / 2;
      qbit := qbit / 2;
    }
    RestoringEnd(num0, d, num, den, quot);
    return Divided(quot, num);
  }

  lemma RestoringStart(num0: u64, d: u64, den: u64, qbit: u64, k: nat)
    requires den >= SIGN && qbit == Pow2(k) && den == d * Pow2(k)
    ensures Restoring(num0, d, num0, den, 0, qbit)
  {
    assert 0 * d == 0;
  }

  lemma RestoringEnd(num0: u64, d: u64, num: u64, den: u64, quot: u64)
    requires d >= 1 && Restoring(num0, d, num, den, quot, 0)
    ensures quot == num0 / d && num == num0 % d
  {
    DivisionUnique(num0, d, quot, num);
  }

  // ---------------------------------------------------------------------
  // __divdi3 and __moddi3
  // ---------------------------------------------------------------------

  datatype Signed = SignedTrap | Value(v: s64)

  /** The two's-complement image of a signed value, and back. */
  function Bits(a: s64): u64 { if a < 0 then a + WORD else a }
  function FromBits(x: u64): s64 { if x >= SIGN then x - WORD else x }

  /** arith64_neg: `(a ^ ((b >= 0) - 1)) + (b < 0)`, that is xor with all ones and
      increment when `b` is negative. */
  function Neg(a: u64, b: s64): u64 {
    if b >= 0 then a else Wrap((WORD - 1 - a) + 1)
  }

  function Abs(a: s64): u64 { Neg(Bits(a), a) }

  /** Any value with the sign of `a ^ b`. */
  function XorSign(a: s64, b: s64): s64 { if (a < 0) != (b < 0) then -1 else 0 }

  function Magnitude(a: int): nat { if a < 0 then -a else a }

  /** Section 6.5.5 of C11: the quotient truncates toward zero, so the remainder
      is smaller than the divisor and has the sign of the numerator. */
  ghost predicate Truncates(a: int, b: int, q: int, r: int)
  {
    && a == q * b + r
    && Magnitude(r) < Magnitude(b)
    && (r != 0 ==> (r < 0 <==> a < 0))
  }

  lemma TruncatesFrom(a: int, b: int, m: int, r: int)
    requires b != 0 && m == Magnitude(a) / Magnitude(b) && r == Magnitude(a) % Magnitude(b)
    ensures Truncates(a, b, if (a < 0) != (b < 0) then -m else m, if a < 0 then -r else r)
  {
    DivisionEquation(Magnitude(a), Magnitude(b));
    SignRules(m, b);
  }

  lemma DivisionEquation(x: int, y: int)
    requires y >= 1
    ensures x == (x / y) * y + x % y
  {}

  lemma SignRules(m: int, b: int)
    ensures (-m) * b == -(m * b) && m * (-b) == -(m * b)
  {}

  /** The quotient and remainder of section 6.5.5 are unique. */
  lemma TruncatesUnique(a: int, b: int, q: int, r: int, q1: int, r1: int)
    requires Truncates(a, b, q, r) && Truncates(a, b, q1, r1)
    ensures q == q1 && r == r1
  {
    assert (q - q1) * b == r1 - r;
    var k := q - q1;
    assert k * -b == -(k * b);
    var y := Magnitude(b);
    if k > 0 { MulMono(1, k, y); }
    if k < 0 { MulMono(k, -1, y); }
  }

  /** The magnitude of the quotient fits a signed word, except for one pair. */
  lemma MagnitudeQuotient(a: s64, b: s64)
    requires b != 0
    ensures 0 <= Magnitude(a) / Magnitude(b) <= SIGN
    ensures Magnitude(a) / Magnitude(b) == SIGN ==> a == -SIGN && (b == 1 || b == -1)
    ensures a == -SIGN && b == -1 ==> Magnitude(a) / Magnitude(b) == SIGN
  {
    var x, y := Magnitude(a), Magnitude(b);
    QuotientBound(x, y);
    if y >= 2 { QuotientBelow(x, y, SIGN - 1, SIGN - 1); }
    if y == 1 { DivisionUnique(x, y, x, 0); }
  }

  lemma AbsMagnitude(a: s64)
    ensures Abs(a) == Magnitude(a)
  {}

  lemma SignedImage(m: int, neg: s64)
    requires 0 <= m <= SIGN
    ensures FromBits(Neg(m, neg)) == if neg < 0 then -m else if m == SIGN then -SIGN else m
  {}

  /** __divdi3: truncating signed division.  The one quotient that does not fit,
      INT64_MIN / -1, wraps to INT64_MIN. */
  method DivSigned(a: s64, b: s64) returns (s: Signed)
    ensures b == 0 <==> s == SignedTrap
    ensures b != 0 && !(a == -SIGN && b == -1) ==> exists r :: Truncates(a, b, s.v, r)
    ensures a == -SIGN && b == -1 ==> s.v == -SIGN
  {
    hide Truncates;
    AbsMagnitude(a);
    AbsMagnitude(b);
    hide Abs;
    var d := DivMod(Abs(a), Abs(b));
    if d.Trap? { return SignedTrap; }
    s := Value(FromBits(Neg(d.quot, XorSign(a, b))));
    MagnitudeQuotient(a, b);
    SignedImage(d.quot, XorSign(a, b));
    TruncatesFrom(a, b, d.quot, d.rem);
  }

  /** __moddi3: the matching remainder, on every input without exception. */
  method ModSigned(a: s64, b: s64) returns (s: Signed)
    ensures b == 0 <==> s == SignedTrap
    ensures b != 0 ==> exists q :: Truncates(a, b, q, s.v)
  {
    hide Truncates;
    AbsMagnitude(a);
    AbsMagnitude(b);
    hide Abs;
    var d := DivMod(Abs(a), Abs(b));
    if d.Trap? { return SignedTrap; }
    s := Value(FromBits(Neg(d.rem, a)));
    assert 0 <= d.rem < SIGN;
    SignedImage(d.rem, a);
    TruncatesFrom(a, b, d.quot, d.rem);
  }
}
