/** What the tables of bvcommon/mathutil.c, lines 35-106, mean. */
module MathTables {
  import opened Arithmetic
  import opened BasicOps
  import opened MathUtil

  // ---- powers ----

  lemma PowLow(i: nat)
    requires i < 32
    ensures 16384 <= TabPowLow()[i] <= TabPowLow()[i + 1] <= 23170 && TabPowLow()[i + 1] - TabPowLow()[i] <= 400
    ensures TabPowLow()[0] == 16384 && TabPowLow()[32] == 23170
  {}

  lemma PowHigh(i: nat)
    requires i < 31
    ensures 23423 <= TabPowHigh()[i] <= TabPowHigh()[i + 1] <= 32767 && TabPowHigh()[i + 1] - TabPowHigh()[i] <= 400
    ensures TabPowHigh()[0] == 23423
  {}

  lemma PowTable(i: nat)
    requires i < 64
    ensures 16384 <= TabPow()[i] <= TabPow()[i + 1] <= 32767 && TabPow()[i + 1] - TabPow()[i] <= 400
    ensures TabPow()[0] == 16384
  {
    hide TabPowLow, TabPowHigh;
    var a, b := TabPowLow(), TabPowHigh();
    PowLow(if i < 32 then i else 0);
    PowHigh(if i > 32 then i - 33 else 0);
    if i < 32 {
      assert TabPow()[i] == a[i] && TabPow()[i + 1] == a[i + 1];
    } else if i > 32 {
      assert TabPow()[i] == b[i - 33] && TabPow()[i + 1] == b[i - 32];
    }
  }

  lemma LogLow(i: nat)
    requires i < 32
    ensures 0 <= TabLogLow()[i] <= TabLogLow()[i + 1] <= 19168 && TabLogLow()[i + 1] - TabLogLow()[i] <= 800
    ensures TabLogLow()[0] == 0 && TabLogLow()[32] == 19168
  {}

  lemma LogHigh(i: nat)
    requires i < 31
    ensures 19658 <= TabLogHigh()[i] <= TabLogHigh()[i + 1] <= 32767 && TabLogHigh()[i + 1] - TabLogHigh()[i] <= 800
    ensures TabLogHigh()[0] == 19658
  {}

  lemma LogTable(i: nat)
    requires i < 64
    ensures 0 <= TabLog()[i] <= TabLog()[i + 1] <= 32767 && TabLog()[i + 1] - TabLog()[i] <= 800
    ensures TabLog()[0] == 0
  {
    hide TabLogLow, TabLogHigh;
    var a, b := TabLogLow(), TabLogHigh();
    LogLow(if i < 32 then i else 0);
    LogHigh(if i > 32 then i - 33 else 0);
    if i < 32 {
      assert TabLog()[i] == a[i] && TabLog()[i + 1] == a[i + 1];
    } else if i > 32 {
      assert TabLog()[i] == b[i - 33] && TabLog()[i + 1] == b[i - 32];
    }
  }

  // ---- interpolation ----

  /** The value between two table entries, in the upper half of a word. */
  function Between(base: Word16, next: Word16, sub: Word16): Word32 {
    LMac(DepositH(base), sub, Sub(next, base))
  }

  /** It lies between the two, starts at the first, and does not fall. */
  lemma BetweenRange(base: Word16, next: Word16, sub: Word16, more: Word16)
    requires 0 <= base <= next <= base + 800 && 0 <= sub <= more
    ensures base * 0x1_0000 <= Between(base, next, sub) as int <= Between(base, next, more) as int <= next * 0x1_0000
    ensures sub == 0 ==> Between(base, next, sub) as int == base * 0x1_0000
  {
    var d: int, u: int, v: int := next - base, sub, more;
    MulNat(u, d, 0x7fff, 800);
    MulNat(v, d, 0x7fff, 800);
    MulNat(v - u, d, v - u, d);
    MulNat(0x8000 - v, d, 0x8000 - v, d);
    Spread(u, v, d);
    BetweenIs(base, next, sub);
    BetweenIs(base, next, more);
  }

  lemma BetweenIs(base: Word16, next: Word16, sub: Word16)
    requires 0 <= base <= next <= base + 800 && 0 <= sub
    ensures Between(base, next, sub) as int == base * 0x1_0000 + 2 * (sub * (next as int - base))
  {
    var d: int, u: int := next - base, sub;
    MulNat(u, d, 0x7fff, 800);
    MulNat(0x8000 - u, d, 0x8000 - u, d);
    Spread(u, u, d);
  }

  lemma Spread(u: int, v: int, d: int)
    ensures (v - u) * d == v * d - u * d && (0x8000 - v) * d == 0x8000 * d - v * d
  {}
}

/** The power of two, from its table. */
module Powers {
  import opened Arithmetic
  import opened BasicOps
  import opened MathUtil
  import opened MathTables

  /** The interpolated table value, with its leading bit at 2^30. */
  function Mantissa(f: Word16): Word32
    requires 0 <= f
  {
    Between(TabPow()[f / 512], TabPow()[f / 512 + 1], f % 512 * 64)
  }

  lemma PowIs(whole: Word16, f: Word16)
    requires 0 <= f
    ensures Pow2(whole, f) == LShrR(Mantissa(f), Sub(30, whole))
  {
    hide LShrR, LMac, TabPow;
  }

  lemma {:induction false} PowAscends(i: nat, j: nat)
    requires i <= j <= 64
    ensures TabPow()[i] <= TabPow()[j]
    decreases j
  {
    hide TabPow;
    if i < j {
      PowAscends(i, j - 1);
      PowTable(j - 1);
    }
  }

  lemma MantissaRises(f: Word16, g: Word16)
    requires 0 <= f <= g
    ensures 0x4000_0000 <= Mantissa(f) <= Mantissa(g) <= 0x7fff_0000
    ensures f == 0 ==> Mantissa(f) == 0x4000_0000
  {
    hide TabPow, Between;
    var i: nat, j: nat := f / 512, g / 512;
    var u: Word16, v: Word16 := f % 512 * 64, g % 512 * 64;
    PowTable(i);
    PowTable(j);
    if i == j {
      BetweenRange(TabPow()[i], TabPow()[i + 1], u, v);
    } else {
      BetweenRange(TabPow()[i], TabPow()[i + 1], u, u);
      BetweenRange(TabPow()[j], TabPow()[j + 1], v, v);
      PowAscends(i + 1, j);
    }
  }

  lemma OneStep(base: Word16, next: Word16, sub: Word16)
    requires 0 <= base <= next <= base + 400 && 0 <= sub <= 0x7fff - 64
    ensures Between(base, next, sub + 64) as int <= Between(base, next, sub) as int + 51200
  {
    var d: int, u: int := next - base, sub;
    BetweenIs(base, next, sub);
    BetweenIs(base, next, sub + 64);
    assert (u + 64) * d == u * d + 64 * d;
    hide Between;
  }

  lemma LastStep(base: Word16, next: Word16)
    requires 0 <= base <= next <= base + 400
    ensures next * 0x1_0000 <= Between(base, next, 511 * 64) as int + 51200
  {
    BetweenIs(base, next, 511 * 64);
    hide Between;
  }

  lemma MantissaIs(f: Word16, i: nat, r: nat)
    requires i < 64 && r < 512 && f as int == 512 * i + r
    ensures Mantissa(f) == Between(TabPow()[i], TabPow()[i + 1], r * 64)
  {
    hide TabPow, Between;
    assert f / 512 == i && f % 512 == r;
  }

  lemma CellOf(f: Word16) returns (i: nat, r: nat)
    requires 0 <= f < MAX_16
    ensures i < 64 && r < 512 && f as int == 512 * i + r && (r == 511 ==> i < 63)
  {
    i, r := f / 512, f % 512;
  }

  /** From one fraction to the next the mantissa takes only small steps, also from one table entry to the next. */
  lemma MantissaSteps(f: Word16)
    requires 0 <= f < MAX_16
    ensures Mantissa(f) <= Mantissa(f + 1) && Mantissa(f + 1) as int <= Mantissa(f) + 51200
  {
    hide TabPow, Between, Mantissa;
    MantissaRises(f, f + 1);
    var i, r := CellOf(f);
    PowTable(i);
    MantissaIs(f, i, r);
    var sub: Word16 := r * 64;
    if r < 511 {
      MantissaIs(f + 1, i, r + 1);
      OneStep(TabPow()[i], TabPow()[i + 1], sub);
    } else {
      PowTable(i + 1);
      MantissaIs(f + 1, i + 1, 0);
      LastStep(TabPow()[i], TabPow()[i + 1]);
      BetweenRange(TabPow()[i + 1], TabPow()[i + 2], 0, 0);
    }
  }

  // ---- the shift ----

  /** A rounding shift halves once more than it divides, upwards. */
  lemma RoundingShift(a: Word32, n: nat)
    requires 0 < n <= 31 && a >= 0
    ensures LShrR(a, n) as int == (a / TwoTo(n - 1) + 1) / 2
  {
    hide TwoTo;
    Doubled(n);
    HalfQuotient(a, TwoTo(n - 1));
    ShiftBound(a, TwoTo(n - 1));
    assert LShr(a, n) as int == a / TwoTo(n);
  }

  lemma Doubled(n: nat)
    requires n > 0
    ensures TwoTo(n) == 2 * TwoTo(n - 1)
  {}

  lemma HalfQuotient(a: int, p: nat)
    requires a >= 0 && p >= 1
    ensures a / (2 * p) == a / p / 2
  {
    var q, r := a / p, a % p;
    var h, b := q / 2, q % 2;
    assert a == p * (2 * h + b) + r == (2 * p) * h + (p * b + r);
    assert b == 0 || b == 1;
    DivUnique(a, 2 * p, h, p * b + r);
  }

  /** The powers of two that fit a word; below them 1 and 0, above them the largest word. */
  function Floor(w: int): int {
    if w < -1 then 0 else if w == -1 then 1 else if w <= 30 then TwoTo(w) else MAX_32
  }

  lemma Tops()
    ensures TwoTo(0) == 1 && TwoTo(30) == 0x4000_0000 && TwoTo(31) == 0x8000_0000
  {
    PowerOfTwo31();
    Doubled(31);
  }

  lemma FloorRises(v: int, w: int)
    requires v <= w
    ensures Floor(v) <= Floor(w)
  {
    hide TwoTo;
    Tops();
    if 0 <= v <= w <= 30 { PowersGrow(v, w); }
    else if v <= 30 && 0 <= v { PowersGrow(v, 30); }
    else if 0 <= w <= 30 { PowersGrow(0, w); }
  }

  /** A mantissa shifted to a whole part lies between that power and the next. */
  lemma ShiftedBetween(a: Word32, w: int)
    requires 0x4000_0000 <= a && -1000 <= w <= 1000
    ensures Floor(w) <= LShrR(a, 30 - w) as int <= Floor(w + 1)
  {
    Tops();
    if w < -1 {
    } else if w < 30 {
      var n := 30 - w;
      RoundingShift(a, n);
      hide LShrR;
      QuotientRange(a, n - 1);
      Doubled(w + 2);
      if w >= 0 { Doubled(w + 1); }
      hide TwoTo;
    } else if w == 30 {
    } else {
      assert LShrR(a, 30 - w) == Sat32(a * TwoTo(w - 30));
      Doubled(w - 30);
      hide TwoTo;
      MulNat(2, a, TwoTo(w - 30), a);
      Swap(a, TwoTo(w - 30));
    }
  }

  lemma Swap(a: int, p: int)
    ensures a * p == p * a
  {}

  lemma QuotientRange(a: int, m: nat)
    requires 0x4000_0000 <= a < 0x8000_0000 && m <= 30
    ensures TwoTo(30 - m) <= a / TwoTo(m) < TwoTo(31 - m)
  {
    Tops();
    hide TwoTo;
    PowersAdd(m, 30 - m);
    PowersAdd(m, 31 - m);
    var p, q := TwoTo(m), a / TwoTo(m);
    assert a == p * q + a % p;
    if q < TwoTo(30 - m) { MulNat(p, TwoTo(30 - m) - 1 - q, p, TwoTo(30 - m) - 1 - q); Less(p, TwoTo(30 - m), q); }
    if q >= TwoTo(31 - m) { MulNat(p, q - TwoTo(31 - m), p, q - TwoTo(31 - m)); Less(p, q, TwoTo(31 - m)); }
  }

  lemma Less(p: int, x: int, y: int)
    ensures p * (x - 1 - y) == p * x - p - p * y && p * (x - y) == p * x - p * y
  {}

  /** The shift does not turn the order of two mantissas round. */
  lemma ShiftRises(a: Word32, b: Word32, w: int)
    requires 0x4000_0000 <= a <= b && -1000 <= w <= 1000
    ensures LShrR(a, 30 - w) <= LShrR(b, 30 - w)
  {
    if w < -1 {
    } else if w < 30 {
      RoundingShift(a, 30 - w);
      RoundingShift(b, 30 - w);
      hide LShrR, TwoTo;
      DivMonotone(a, b, TwoTo(30 - w - 1));
    } else if w == 30 {
      Tops();
    } else {
      hide TwoTo;
      MulNat(b - a, TwoTo(w - 30), b - a, TwoTo(w - 30));
      Less(TwoTo(w - 30), b, a);
      Swap(a, TwoTo(w - 30));
      Swap(b, TwoTo(w - 30));
      Swap(b - a, TwoTo(w - 30));
    }
  }

  /** 2^x lies between the powers of its whole part, and equals the lower one when there is no fraction. */
  lemma PowRange(whole: Word16, f: Word16)
    requires 0 <= f && -1000 <= whole <= 1000
    ensures Floor(whole) <= Pow2(whole, f) as int <= Floor(whole + 1)
  {
    PowIs(whole, f);
    MantissaRises(f, f);
    hide Mantissa, LShrR;
    ShiftedBetween(Mantissa(f), whole);
  }

  lemma ExactQuotient(m: nat)
    requires m <= 30
    ensures 0x4000_0000 / TwoTo(m) == TwoTo(30 - m)
  {
    Tops();
    hide TwoTo;
    PowersAdd(m, 30 - m);
    DivUnique(0x4000_0000, TwoTo(m), TwoTo(30 - m), 0);
  }

  lemma PowOfWhole(whole: Word16)
    requires 0 <= whole <= 30
    ensures Pow2(whole, 0) as int == TwoTo(whole)
  {
    hide Mantissa, TwoTo;
    PowIs(whole, 0);
    MantissaRises(0, 0);
    Tops();
    if whole < 30 {
      hide LShrR;
      RoundingShift(0x4000_0000, 30 - whole);
      ExactQuotient(29 - whole);
      Doubled(whole + 1);
    }
  }

  /** 2^x does not fall as x grows. */
  lemma PowRises(v: Word16, f: Word16, w: Word16, g: Word16)
    requires 0 <= f && 0 <= g && -1000 <= v <= w <= 1000 && (v == w ==> f <= g)
    ensures Pow2(v, f) <= Pow2(w, g)
  {
    hide Pow2;
    if v == w {
      PowIs(v, f);
      PowIs(w, g);
      MantissaRises(f, g);
      hide Mantissa, LShrR;
      ShiftRises(Mantissa(f), Mantissa(g), v);
    } else {
      PowRange(v, f);
      PowRange(w, g);
      FloorRises(v + 1, w);
      hide Floor;
    }
  }
}

/** The base-two logarithm, from its table. */
module Logarithms {
  import opened Arithmetic
  import opened BasicOps
  import opened MathUtil
  import opened MathTables
  import opened Powers

  /** The logarithm as one number, in units of 2^-15. */
  function LogWord(x: Word32): int {
    0x8000 * Log2(x).0 + Log2(x).1
  }

  /** A positive word shifted up to its leading bit, without that bit. */
  function Remainder(x: Word32): (m: int)
    requires x > 0
    ensures 0 <= m < 0x4000_0000
  {
    x * TwoTo(NormL(x)) - 0x4000_0000
  }

  function Fraction(m: int): Word16
    requires 0 <= m < 0x4000_0000
  {
    var a := m / 256;
    IntRound(Between(TabLog()[a / 0x1_0000], TabLog()[a / 0x1_0000 + 1], a % 0x1_0000 / 2))
  }

  lemma LogIs(x: Word32)
    requires x > 0
    ensures NormL(x) <= 30 && Log2(x) == (30 - NormL(x), Fraction(Remainder(x)))
  {
    hide TabLog, LMac, IntRound, NormL, TwoTo;
    NormBound(x);
    assert Sat32(x * TwoTo(NormL(x))) as int == x * TwoTo(NormL(x));
  }

  lemma {:induction false} LogAscends(i: nat, j: nat)
    requires i <= j <= 64
    ensures TabLog()[i] <= TabLog()[j]
    decreases j
  {
    hide TabLog;
    if i < j {
      LogAscends(i, j - 1);
      LogTable(j - 1);
    }
  }

  lemma FractionRises(m: int, n: int)
    requires 0 <= m <= n < 0x4000_0000
    ensures 0 <= Fraction(m) <= Fraction(n)
    ensures m == 0 ==> Fraction(m) == 0
  {
    hide TabLog, Between;
    var a: int, b: int := m / 256, n / 256;
    var i: nat, j: nat := a / 0x1_0000, b / 0x1_0000;
    var u: Word16, v: Word16 := a % 0x1_0000 / 2, b % 0x1_0000 / 2;
    LogTable(i);
    LogTable(j);
    if i == j {
      BetweenRange(TabLog()[i], TabLog()[i + 1], u, v);
    } else {
      BetweenRange(TabLog()[i], TabLog()[i + 1], u, u);
      BetweenRange(TabLog()[j], TabLog()[j + 1], v, v);
      LogAscends(i + 1, j);
    }
  }

  lemma SmallStep(base: Word16, next: Word16, sub: Word16, more: Word16)
    requires 0 <= base <= next <= base + 800 && 0 <= sub <= more <= sub + 0x100
    ensures Between(base, next, more) as int <= Between(base, next, sub) as int + 409600
  {
    var d: int, u: int, v: int := next - base, sub, more;
    BetweenIs(base, next, sub);
    BetweenIs(base, next, more);
    assert v * d == u * d + (v - u) * d;
    MulNat(v - u, d, 0x100, 800);
    hide Between;
  }

  lemma NearTop(base: Word16, next: Word16, sub: Word16)
    requires 0 <= base <= next <= base + 800 && 0x7f00 <= sub
    ensures next * 0x1_0000 <= Between(base, next, sub) as int + 409600
  {
    var d: int, u: int := next - base, sub;
    BetweenIs(base, next, sub);
    assert 0x8000 * d == u * d + (0x8000 - u) * d;
    MulNat(0x8000 - u, d, 0x100, 800);
    hide Between;
  }

  lemma RoundedStep(a: Word32, b: Word32, step: int)
    requires 0 <= a && 0 <= b <= 0x7fff_0000 && (b as int) <= a + step && 0 <= step <= 900000
    ensures IntRound(b) as int <= IntRound(a) + 14
  {}

  lemma FractionIs(m: int, i: nat, u: nat)
    requires 0 <= m < 0x4000_0000 && i < 64 && i == m / 0x100_0000 && u == m % 0x100_0000 / 512
    ensures Fraction(m) == IntRound(Between(TabLog()[i], TabLog()[i + 1], u))
  {
    hide TabLog, Between, IntRound;
    assert m / 256 / 0x1_0000 == i && m / 256 % 0x1_0000 / 2 == u;
  }

  /** The cells of two arguments that are close. */
  lemma CloseCells(m: int, n: int)
    requires 0 <= m <= n < 0x4000_0000 && n <= m + 0x1_0000
    ensures var i, j, u, v := m / 0x100_0000, n / 0x100_0000, m % 0x100_0000 / 512, n % 0x100_0000 / 512;
      && 0 <= i < 64 && 0 <= j < 64 && 0 <= u < 0x8000 && 0 <= v < 0x8000
      && if i == j then u <= v <= u + 0x100 else j == i + 1 && u >= 0x7f00 && v <= 0x100
  {}

  /** A small change of the argument changes the fraction by little, also from one table entry to the next. */
  lemma FractionSteps(m: int, n: int)
    requires 0 <= m <= n < 0x4000_0000 && n <= m + 0x1_0000
    ensures Fraction(m) <= Fraction(n) && Fraction(n) as int <= Fraction(m) + 14
  {
    FractionRises(m, n);
    hide TabLog, Between, IntRound, Fraction;
    CloseCells(m, n);
    var i: nat, j: nat := m / 0x100_0000, n / 0x100_0000;
    var u: Word16, v: Word16 := m % 0x100_0000 / 512, n % 0x100_0000 / 512;
    FractionIs(m, i, u);
    FractionIs(n, j, v);
    LogTable(i);
    LogTable(j);
    var x, y := Between(TabLog()[i], TabLog()[i + 1], u), Between(TabLog()[j], TabLog()[j + 1], v);
    BetweenRange(TabLog()[i], TabLog()[i + 1], u, u);
    BetweenRange(TabLog()[j], TabLog()[j + 1], v, v);
    if i == j {
      SmallStep(TabLog()[i], TabLog()[i + 1], u, v);
      RoundedStep(x, y, 409600);
    } else {
      NearTop(TabLog()[i], TabLog()[i + 1], u);
      BetweenRange(TabLog()[j], TabLog()[j + 1], 0, 0);
      SmallStep(TabLog()[j], TabLog()[j + 1], 0, v);
      RoundedStep(x, y, 819200);
    }
  }

  /** A word that n shifts bring up to 2^30 has its leading bit n places below. */
  lemma LeadingBit(x: int, n: nat, p: int)
    requires n <= 30 && p == TwoTo(n) && 0x4000_0000 <= x * p <= MAX_32
    ensures TwoTo(30 - n) <= x < TwoTo(31 - n)
    ensures x == TwoTo(30 - n) ==> x * p == 0x4000_0000
  {
    Tops();
    hide TwoTo;
    PowersAdd(30 - n, n);
    PowersAdd(31 - n, n);
    if x < TwoTo(30 - n) { Cancelled(x, TwoTo(30 - n), p); }
    if x >= TwoTo(31 - n) { Cancelled(TwoTo(31 - n) - 1, x, p); Spread(0, TwoTo(31 - n), p); NextProduct(TwoTo(31 - n), p); }
  }

  lemma NextProduct(x: int, p: int)
    ensures (x - 1) * p == x * p - p
  {}

  lemma Cancelled(x: int, y: int, p: nat)
    requires x < y && p > 0
    ensures x * p + p <= y * p
  {
    MulNat(y - x - 1, p, y - x - 1, p);
    assert (y - x - 1) * p == y * p - x * p - p;
  }

  /** The whole part is the place of the leading bit; a power of two has no fraction. */
  lemma LogRange(x: Word32)
    requires x > 0
    ensures 0 <= Log2(x).0 <= 30 && 0 <= Log2(x).1
    ensures TwoTo(Log2(x).0) <= x as int < TwoTo(Log2(x).0 + 1)
    ensures x as int == TwoTo(Log2(x).0) ==> Log2(x).1 == 0
  {
    hide TwoTo, NormL, Log2, Fraction;
    LogIs(x);
    var n := NormL(x);
    FractionRises(Remainder(x), Remainder(x));
    LeadingBit(x, n, TwoTo(n));
    assert 30 - n + 1 == 31 - n;
  }

  lemma RemainderRises(x: Word32, y: Word32)
    requires 0 < x <= y && NormL(x) == NormL(y)
    ensures Remainder(x) <= Remainder(y)
  {
    hide TwoTo, NormL;
    var p := TwoTo(NormL(x));
    MulNat(y - x, p, y - x, p);
    Spread(x, y, p);
  }

  /** The logarithm does not fall as its argument grows. */
  lemma LogRises(x: Word32, y: Word32)
    requires 0 < x <= y
    ensures LogWord(x) <= LogWord(y)
  {
    hide TwoTo, NormL, Log2, Fraction, Remainder;
    LogRange(x);
    LogRange(y);
    LogIs(x);
    LogIs(y);
    var v: int, w: int := Log2(x).0, Log2(y).0;
    if v > w {
      PowersGrow(w + 1, v);
    } else if v == w {
      RemainderRises(x, y);
      FractionRises(Remainder(x), Remainder(y));
    }
  }
}
