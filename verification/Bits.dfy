/** Single bits of 32-bit words: `1U << b`, SET_BIT, CLEAR_BIT and __builtin_ctz,
    as the kernel's bitmaps use them. */
module Bits {

  const FULL: bv32 := 0xFFFF_FFFF

  /** `1U << b` */
  function Mask(b: nat): bv32
    requires b < 32
  {
    1 << (b as bv6)
  }

  predicate BitAt(w: bv32, x: bv6)
    requires x < 32
  {
    (w >> x) & 1 == 1
  }

  predicate Bit(w: bv32, b: nat)
    requires b < 32
  {
    IndexRange(b);
    BitAt(w, b as bv6)
  }

  lemma IndexRange(b: nat)
    requires b < 32
    ensures (b as bv6) < 32 && (b as bv6) as nat == b
  {}

  /** `w & (1U << b)` tests the bit. */
  lemma TestBit(w: bv32, b: nat)
    requires b < 32
    ensures w & Mask(b) != 0 <==> Bit(w, b)
  {
    IndexRange(b);
    TestAt(w, b as bv6);
  }

  lemma TestAt(w: bv32, x: bv6)
    requires x < 32
    ensures w & (1 << x) != 0 <==> BitAt(w, x)
  {}

  /** SET_BIT and CLEAR_BIT: `w | (1U << b)` and `w & ~(1U << b)`. */
  function Set(w: bv32, b: nat): bv32
    requires b < 32
  {
    IndexRange(b);
    OrShift(w, b as bv6)
  }

  function Clear(w: bv32, b: nat): bv32
    requires b < 32
  {
    IndexRange(b);
    AndNotShift(w, b as bv6)
  }

  function OrShift(w: bv32, x: bv6): bv32
    requires x < 32
  {
    w | (1 << x)
  }

  function AndNotShift(w: bv32, x: bv6): bv32
    requires x < 32
  {
    w & !(1 << x)
  }

  /** Setting one bit changes that bit only. */
  lemma SetBit(w: bv32, b: nat, c: nat)
    requires b < 32 && c < 32
    ensures Bit(Set(w, b), c) <==> c == b || Bit(w, c)
  {
    hide BitAt, OrShift;
    IndexRange(b);
    IndexRange(c);
    SetAt(w, b as bv6, c as bv6);
  }

  lemma SetAt(w: bv32, x: bv6, y: bv6)
    requires x < 32 && y < 32
    ensures BitAt(OrShift(w, x), y) <==> x == y || BitAt(w, y)
  {}

  /** Clearing one bit changes that bit only. */
  lemma ClearBit(w: bv32, b: nat, c: nat)
    requires b < 32 && c < 32
    ensures Bit(Clear(w, b), c) <==> c != b && Bit(w, c)
  {
    hide BitAt, AndNotShift;
    IndexRange(b);
    IndexRange(c);
    ClearAt(w, b as bv6, c as bv6);
  }

  lemma ClearAt(w: bv32, x: bv6, y: bv6)
    requires x < 32 && y < 32
    ensures BitAt(AndNotShift(w, x), y) <==> x != y && BitAt(w, y)
  {}

  lemma ComplementBit(w: bv32, b: nat)
    requires b < 32
    ensures Bit(!w, b) <==> !Bit(w, b)
  {
    hide BitAt;
    IndexRange(b);
    ComplementAt(w, b as bv6);
  }

  lemma ComplementAt(w: bv32, x: bv6)
    requires x < 32
    ensures BitAt(!w, x) <==> !BitAt(w, x)
  {}

  lemma FullBit(b: nat)
    requires b < 32
    ensures Bit(FULL, b)
  {
    hide BitAt;
    IndexRange(b);
    FullAt(b as bv6);
  }

  lemma FullAt(x: bv6)
    requires x < 32
    ensures BitAt(FULL, x)
  {}

  lemma ZeroBit(b: nat)
    requires b < 32
    ensures !Bit(0, b)
  {}

  /** A word with no bit set is zero. */
  lemma AllClear(w: bv32)
    requires forall b: nat :: b < 32 ==> !Bit(w, b)
    ensures w == 0
  {
    hide BitAt;
    assert !Bit(w, 0) && !Bit(w, 1) && !Bit(w, 2) && !Bit(w, 3) && !Bit(w, 4) && !Bit(w, 5) && !Bit(w, 6) && !Bit(w, 7);
    assert !Bit(w, 8) && !Bit(w, 9) && !Bit(w, 10) && !Bit(w, 11) && !Bit(w, 12) && !Bit(w, 13) && !Bit(w, 14) &&
           !Bit(w, 15);
    assert !Bit(w, 16) && !Bit(w, 17) && !Bit(w, 18) && !Bit(w, 19) && !Bit(w, 20) && !Bit(w, 21) && !Bit(w, 22) &&
           !Bit(w, 23);
    assert !Bit(w, 24) && !Bit(w, 25) && !Bit(w, 26) && !Bit(w, 27) && !Bit(w, 28) && !Bit(w, 29) && !Bit(w, 30) &&
           !Bit(w, 31);
    AllClearAt(w);
  }

  lemma AllClearAt(w: bv32)
    requires !BitAt(w, 0) && !BitAt(w, 1) && !BitAt(w, 2) && !BitAt(w, 3) && !BitAt(w, 4) && !BitAt(w, 5) &&
             !BitAt(w, 6)
    requires !BitAt(w, 7) && !BitAt(w, 8) && !BitAt(w, 9) && !BitAt(w, 10) && !BitAt(w, 11) && !BitAt(w, 12)
    requires !BitAt(w, 13) && !BitAt(w, 14) && !BitAt(w, 15) && !BitAt(w, 16) && !BitAt(w, 17) && !BitAt(w, 18)
    requires !BitAt(w, 19) && !BitAt(w, 20) && !BitAt(w, 21) && !BitAt(w, 22) && !BitAt(w, 23) && !BitAt(w, 24)
    requires !BitAt(w, 25) && !BitAt(w, 26) && !BitAt(w, 27) && !BitAt(w, 28) && !BitAt(w, 29) && !BitAt(w, 30)
    requires !BitAt(w, 31)
    ensures w == 0
  {}

  /** __builtin_ctz: the index of the lowest set bit. */
  function Ctz(w: bv32): (r: nat)
    requires w != 0
    ensures r < 32 && Bit(w, r) && forall b: nat :: b < r ==> !Bit(w, b)
  {
    var r := FirstBit(w, 0);
    assert r < 32 by { if r == 32 { AllClear(w); } }
    r
  }

  function FirstBit(w: bv32, i: nat): (r: nat)
    requires i <= 32 && forall b: nat :: b < i ==> !Bit(w, b)
    ensures r <= 32 && (r < 32 ==> Bit(w, r)) && forall b: nat :: b < r ==> !Bit(w, b)
    decreases 32 - i
  {
    if i == 32 || Bit(w, i) then i else FirstBit(w, i + 1)
  }

  /** `~w`'s lowest set bit is `w`'s lowest clear bit; a full word has none. */
  lemma LowestClear(w: bv32)
    ensures w == FULL ==> forall b: nat :: b < 32 ==> Bit(w, b)
    ensures w != FULL ==>
              && !w != 0 && !Bit(w, Ctz(!w))
              && forall b: nat :: b < Ctz(!w) ==> Bit(w, b)
  {
    hide Bit, Ctz;
    if w == FULL {
      forall b: nat | b < 32 ensures Bit(w, b) { FullBit(b); }
    } else {
      ComplementZero(w);
      ComplementBit(w, Ctz(!w));
      forall b: nat | b < Ctz(!w) ensures Bit(w, b) { ComplementBit(w, b); }
    }
  }

  lemma ComplementZero(w: bv32)
    ensures !w == 0 <==> w == FULL
  {}

  /** The lowest clear bit, found as the lowest set bit of the complement. */
  function FreeBit(w: bv32): (r: nat)
    ensures r <= 32 && (r < 32 ==> !Bit(w, r)) && forall b: nat :: b < r ==> Bit(w, b)
  {
    FreeBitOk(w);
    if !w == 0 then 32 else Ctz(!w)
  }

  lemma FreeBitOk(w: bv32)
    ensures !w == 0 ==> forall b: nat :: b < 32 ==> Bit(w, b)
    ensures !w != 0 ==> !Bit(w, Ctz(!w)) && forall b: nat :: b < Ctz(!w) ==> Bit(w, b)
  {
    hide Bit, Ctz;
    ComplementZero(w);
    LowestClear(w);
  }

  /** A word that is not full has a clear bit. */
  lemma PartialFree(w: bv32)
    requires w != FULL
    ensures !w != 0 && FreeBit(w) == Ctz(!w) && FreeBit(w) < 32
  {
    hide Ctz;
    ComplementZero(w);
  }
}
