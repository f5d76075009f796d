/**
 The double-precision format of oper_32b.c: a 32-bit word as hi * 2^16 + lo * 2, with 0 <= lo.
 Products keep 31 bits; the quotient is one Newton step on a 15-bit reciprocal.
 */
module DoublePrecision {
  import opened Arithmetic
  import opened BasicOps

  datatype Dpf = Dpf(hi: Word16, lo: Word16)

  /** The value a pair stands for. */
  function Value(x: Dpf): int { x.hi * 0x1_0000 + 2 * x.lo }

  ghost predicate Canonical(x: Dpf) { 0 <= x.lo }

  function LExtract(a: Word32): Dpf {
    var hi := ExtractH(a);
    Dpf(hi, ExtractL(LMsu(LShr(a, 1), hi, 16384)))
  }

  function LComp(x: Dpf): Word32 {
    LMac(DepositH(x.hi), x.lo, 1)
  }

  function Mpy32(x: Dpf, y: Dpf): Word32 {
    LMac(LMac(LMult(x.hi, y.hi), Mult(x.hi, y.lo), 1), Mult(x.lo, y.hi), 1)
  }

  function Mpy3216(x: Dpf, n: Word16): Word32 {
    LMac(LMult(x.hi, n), Mult(x.lo, n), 1)
  }

  /** One Newton step on the 15-bit reciprocal of a normalised denominator; Q29. */
  function Reciprocal(den: Dpf): Word32
    requires 0x4000 <= den.hi
  {
    var approx := DivS(0x3fff, den.hi);
    Mpy3216(LExtract(LSub(MAX_32, Mpy3216(den, approx))), approx)
  }

  /** num / den for 0 < num < den, den normalised; the result is Q31. */
  function Div32(num: Word32, den: Dpf): Word32
    requires 0x4000 <= den.hi
  {
    LShl(Mpy32(LExtract(num), LExtract(Reciprocal(den))), 2)
  }

  /** Extraction is canonical and drops exactly the lowest bit; composing gives the rest back. */
  lemma ExtractComposes(a: Word32)
    ensures Canonical(LExtract(a))
    ensures a == Value(LExtract(a)) + a % 2
    ensures LComp(LExtract(a)) == a - a % 2
  {
    var hi: int := ExtractH(a);
    assert TwoTo(1) == 2 * TwoTo(0) == 2;
    assert LShr(a, 1) == a / 2;
    assert LMult(hi, 16384) == hi * 0x8000;
    assert a / 2 - hi * 0x8000 == (a % 0x1_0000) / 2;
  }

  /** A canonical pair comes back unchanged from the word it composes. */
  lemma ComposeExtracts(x: Dpf)
    requires Canonical(x)
    ensures LComp(x) == Value(x)
    ensures LExtract(LComp(x)) == x
  {
    assert LMult(x.lo, 1) == 2 * x.lo;
    ExtractComposes(LComp(x));
  }

  /** A canonical pair times a word stays inside 46 bits, with room for one truncation. */
  lemma ScaledProductRange(v: int, n: int)
    requires MIN_32 <= v <= MAX_32 - 1 && MIN_16 <= n <= MAX_16
    requires v >= MIN_32 + 0x1_0000 || n != MIN_16
    ensures -0x8000 * 0x8000_0000 + 0x1_0000 <= v * n < 0x8000 * 0x8000_0000
  {
    MulSigns(v, n);
    if v >= 0 {
      if n >= 0 { MulNat(v, n, MAX_32 - 1, MAX_16); } else { MulNat(v, -n, MAX_32 - 1, 0x8000); }
    } else if n >= 0 {
      MulNat(-v, n, 0x8000_0000, MAX_16);
    } else if n == MIN_16 {
      MulNat(-v, -n, 0x7fff_0000, 0x8000);
    } else {
      MulNat(-v, -n, 0x8000_0000, MAX_16);
    }
  }

  /** The exact Q31 product of a pair and a word, scaled by 2^15, exceeds the result by [0, 2). */
  lemma Mpy3216Error(x: Dpf, n: Word16)
    requires Canonical(x) && (x.hi != MIN_16 || n != MIN_16)
    ensures 0 <= Value(x) * n - 0x8000 * Mpy3216(x, n) < 2 * 0x8000
  {
    Mpy3216Exact(x, n);
    assert Value(x) * n == 0x1_0000 * (x.hi * n) + 2 * (x.lo * n);
  }

  lemma Mpy3216Exact(x: Dpf, n: Word16)
    requires Canonical(x) && (x.hi != MIN_16 || n != MIN_16)
    ensures Mpy3216(x, n) == 2 * (x.hi * n) + 2 * (x.lo * n / 0x8000)
    ensures LMult(x.hi, n) == 2 * (x.hi * n)
  {
    var hi: int, lo: int, m: int := x.hi, x.lo, n;
    ProductRange(x.hi, n);
    ProductRange(x.lo, n);
    var low := lo * m / 0x8000;
    assert LMult(x.hi, n) == 2 * (hi * m);
    assert Mult(x.lo, n) == low;
    assert Value(x) * m == 0x1_0000 * (hi * m) + 2 * (lo * m);
    ScaledProductRange(Value(x), m);
    assert Mpy3216(x, n) == 2 * (hi * m) + 2 * low;
  }

  lemma DoubleProductRange(v: int, w: int)
    requires MIN_32 <= v < MAX_32 && MIN_32 <= w < MAX_32
    requires v >= MIN_32 + 0x1_0000 || w >= MIN_32 + 0x1_0000
    ensures v * w < 0x8000_0000 * 0x8000_0000
  {
    MulSigns(v, w);
    if v >= 0 && w >= 0 {
      MulNat(v, w, MAX_32 - 1, MAX_32 - 1);
    } else if v < 0 && w < 0 {
      if v >= MIN_32 + 0x1_0000 {
        MulNat(-v, -w, 0x7fff_0000, 0x8000_0000);
      } else {
        MulNat(-v, -w, 0x8000_0000, 0x7fff_0000);
      }
    } else if v < 0 {
      MulNat(-v, w, 0x8000_0000, MAX_32);
    } else {
      MulNat(v, -w, MAX_32, 0x8000_0000);
    }
  }

  /** The exact Q31 product of two pairs, scaled by 2^31, exceeds the result by [0, 6). */
  lemma Mpy32Error(x: Dpf, y: Dpf)
    requires Canonical(x) && Canonical(y) && (x.hi != MIN_16 || y.hi != MIN_16)
    ensures 0 <= Value(x) * Value(y) - 0x8000_0000 * Mpy32(x, y) < 6 * 0x8000_0000
  {
    var h: int, l: int, g: int, k: int := x.hi, x.lo, y.hi, y.lo;
    Mpy3216Exact(y, x.hi);
    Mpy3216Exact(x, y.hi);
    ProductRange(x.lo, y.hi);
    ProductRange(x.hi, y.lo);
    MulNat(l, k, MAX_16, MAX_16);
    var f, e := h * k / 0x8000, l * g / 0x8000;
    var s := 2 * (h * g) + 2 * f + 2 * e;
    assert Value(x) * Value(y)
        == 0x1_0000_0000 * (h * g) + 0x2_0000 * (h * k) + 0x2_0000 * (l * g) + 4 * (l * k) by {
      Expand(h, l, g, k);
    }
    DoubleProductRange(Value(x), Value(y));
    assert h * g == g * h && h * k == k * h;
    assert Mult(y.lo, x.hi) == f && Mult(x.lo, y.hi) == e;
    Signs(h, g, l, k);
    assert MIN_32 <= s <= MAX_32;
    assert Mpy32(x, y) == LAdd(LAdd(2 * (h * g), 2 * f), 2 * e) == s;
  }

  lemma Expand(h: int, l: int, g: int, k: int)
    ensures (h * 0x1_0000 + 2 * l) * (g * 0x1_0000 + 2 * k)
         == 0x1_0000_0000 * (h * g) + 0x2_0000 * (h * k) + 0x2_0000 * (l * g) + 4 * (l * k)
  {}

  lemma Signs(h: int, g: int, l: int, k: int)
    requires 0 <= l <= MAX_16 && 0 <= k <= MAX_16 && MIN_16 <= h <= MAX_16 && MIN_16 <= g <= MAX_16
    ensures h >= 0 ==> h * k / 0x8000 >= 0
    ensures g >= 0 ==> l * g / 0x8000 >= 0
    ensures (h < 0) == (g < 0) ==> h * g >= 0
    ensures h * k / 0x8000 >= -0x8000 && l * g / 0x8000 >= -0x8000
  {
    MulSigns(h, k);
    MulSigns(l, g);
    MulSigns(h, g);
    if h >= 0 { MulNat(h, k, MAX_16, MAX_16); } else { MulNat(-h, k, 0x8000, MAX_16); }
    if g >= 0 { MulNat(l, g, MAX_16, MAX_16); } else { MulNat(l, -g, MAX_16, 0x8000); }
    if h >= 0 && g >= 0 { MulNat(h, g, MAX_16, MAX_16); }
    if h < 0 && g < 0 { MulNat(-h, -g, 0x8000, 0x8000); }
  }

  /** A normalised denominator as oper_32b.c demands it. */
  ghost predicate Normalised(den: Dpf) {
    Canonical(den) && 0x4000 <= den.hi
  }

  /** The 15-bit reciprocal makes den * approx fall short of 2^45 by less than 2^32. */
  lemma SeedError(den: Dpf)
    requires Normalised(den)
    ensures var x := DivS(0x3fff, den.hi);
      0 < x <= 0x7ffe && 0 < 0x2000_0000_0000 - Value(den) * x < 0x1_0000_0000
  {
    var h: int, l: int := den.hi, den.lo;
    var P := 0x3fff * 0x8000;
    DivBound(0x3fff, h);
    var x: int := DivS(0x3fff, den.hi);
    assert x == P / h;
    DivideBounds(P, h);
    assert x <= 0x7ffe by {
      if x >= 0x7fff { MulNat(0x4000, 0x7fff, h, x); }
    }
    MulNat(l, x, MAX_16, 0x7ffe);
    assert Value(den) * x == 0x1_0000 * (x * h) + 2 * (l * x);
    assert x == 0 ==> (x + 1) * h == h;
  }

  lemma DivideBounds(p: int, h: int)
    requires 0 <= p && 0 < h
    ensures p / h * h <= p < (p / h + 1) * h && p / h >= 0
  {}

  /** The complement 2 - den * approx, in Q30, up to its rounding d. */
  lemma Complement(den: Dpf, x: Word16) returns (d: int)
    requires Normalised(den) && 0 < x <= 0x7ffe
    requires 0 < 0x2000_0000_0000 - Value(den) * x < 0x1_0000_0000
    ensures var c := LExtract(LSub(MAX_32, Mpy3216(den, x)));
      && Canonical(c) && -0x1_0000 <= d < 0x8000
      && 0x8000 * Value(c) == (0x4000_0000_0000 - Value(den) * x) + d
      && 0x4000_0000 <= Value(c) <= 0x4002_0001
  {
    hide Mpy3216, LExtract;
    Mpy3216Error(den, x);
    var u := LSub(MAX_32, Mpy3216(den, x));
    assert u == MAX_32 - Mpy3216(den, x);
    ExtractComposes(u);
    d := 0x8000 * Value(LExtract(u)) - (0x4000_0000_0000 - Value(den) * x);
  }

  /** One Newton step: den * (1/den in Q29) misses 2^60 by the square of the seed error plus rounding. */
  lemma NewtonStep(den: Dpf, x: Word16)
    requires Normalised(den) && 0 < x <= 0x7ffe
    requires 0 < 0x2000_0000_0000 - Value(den) * x < 0x1_0000_0000
    ensures var m := Value(LExtract(Mpy3216(LExtract(LSub(MAX_32, Mpy3216(den, x))), x)));
      var W := Value(den) * x;
      && 0 < m
      && -0x1_4000_0000 < 0x4000_0000 * m - (0x4000_0000_0000 - W) * x < 0x4000_0000
  {
    hide Mpy3216, LExtract, LSub;
    var d := Complement(den, x);
    var c := LExtract(LSub(MAX_32, Mpy3216(den, x)));
    var W, v := Value(den) * x, Value(c);
    Mpy3216Error(c, x);
    ExtractComposes(Mpy3216(c, x));
    hide Value;
    ScaleSum(v, 0x4000_0000_0000 - W, d, x);
    MulSigns(d, x);
    if d >= 0 { MulNat(d, x, 0x7fff, 0x7ffe); } else { MulNat(-d, x, 0x1_0000, 0x7ffe); }
    MulMonotone(x, v);
    assert x * v == v * x;
  }

  lemma ScaleSum(v: int, a: int, d: int, x: int)
    requires 0x8000 * v == a + d
    ensures 0x8000 * (v * x) == a * x + d * x
  {
    assert (0x8000 * v) * x == 0x8000 * (v * x);
    assert (a + d) * x == a * x + d * x;
  }

  /** den times the Q29 reciprocal, exactly: 2^90 less the squared seed error, plus bounded rounding. */
  lemma ReciprocalProduct(D: int, x: int, m: int, t: int)
    requires 0x4000_0000 * m == (0x4000_0000_0000 - D * x) * x + t
    ensures var F := 0x2000_0000_0000 - D * x;
      0x4000_0000 * (m * D) == 0x2000_0000_0000 * 0x2000_0000_0000 - F * F + t * D
  {
    var W := D * x;
    var F := 0x2000_0000_0000 - W;
    assert (0x4000_0000 * m) * D == 0x4000_0000 * (m * D);
    assert ((0x4000_0000_0000 - W) * x + t) * D == (0x4000_0000_0000 - W) * x * D + t * D;
    assert (0x4000_0000_0000 - W) * x * D == (0x4000_0000_0000 - W) * W by {
      assert x * D == W;
      MulAssoc(0x4000_0000_0000 - W, x, D);
    }
    assert (0x2000_0000_0000 + F) * (0x2000_0000_0000 - F)
        == 0x2000_0000_0000 * 0x2000_0000_0000 - F * F;
  }

  lemma MulAssoc(a: int, b: int, c: int)
    ensures a * b * c == a * (b * c)
  {}

  /** The seed error F and the rounding t of a reciprocal, and the product they leave. */
  lemma ReciprocalError(den: Dpf) returns (F: int, t: int)
    requires Normalised(den)
    ensures 0 < F < 0x1_0000_0000 && -0x1_4000_0000 < t < 0x4000_0000
    ensures var m := Value(LExtract(Reciprocal(den)));
      && 0 < m
      && 0x4000_0000 * (m * Value(den)) == 0x2000_0000_0000 * 0x2000_0000_0000 - F * F + t * Value(den)
  {
    hide DivS, Mpy3216, LExtract;
    var x := DivS(0x3fff, den.hi);
    SeedError(den);
    NewtonStep(den, x);
    var m, W := Value(LExtract(Reciprocal(den))), Value(den) * x;
    F, t := 0x2000_0000_0000 - W, 0x4000_0000 * m - (0x4000_0000_0000 - W) * x;
    ReciprocalProduct(Value(den), x, m, t);
  }

  lemma PositiveValue(r: Dpf)
    requires Canonical(r) && 0 < Value(r)
    ensures r.hi != MIN_16
  {}

  lemma LastProduct(D: int, num: int, x: Dpf, r: Dpf, F: int, t: int)
    requires Canonical(x) && Canonical(r) && 0x4000_0000 <= D <= MAX_32 && 0 < Value(r)
    requires 0 <= num - Value(x) <= 1 && 0 <= Value(x) && 0 < num < D
    requires 0 < F < 0x1_0000_0000 && -0x1_4000_0000 < t < 0x4000_0000
    requires 0x4000_0000 * (Value(r) * D) == 0x2000_0000_0000 * 0x2000_0000_0000 - F * F + t * D
    ensures -4 * D < 0x8000_0000 * num - 4 * (Mpy32(x, r) * D) < 78 * D
  {
    hide *;
    PositiveValue(r);
    Mpy32Error(x, r);
    var q: int, n, m := Mpy32(x, r), Value(x), Value(r);
    var th: int := n * m - 0x8000_0000 * q;
    QuotientError(D, num, n, m, F, t, q, th);
  }

  /**
   Main result: the quotient is 24 bits accurate. In units of the last place of Q31 the exact
   quotient 2^31 * num / den exceeds the result by more than -4 and by less than 78.
   */
  lemma Div32Error(num: Word32, den: Dpf)
    requires Normalised(den) && 0 < num < Value(den)
    ensures var e := 0x8000_0000 * num - Div32(num, den) * Value(den);
      -4 * Value(den) < e < 78 * Value(den)
  {
    assert 0x4000_0000 <= Value(den) <= MAX_32;
    hide LExtract, Mpy32, Reciprocal, LShl, Value;
    var F, t := ReciprocalError(den);
    ExtractComposes(num);
    ExtractComposes(Reciprocal(den));
    var x, r := LExtract(num), LExtract(Reciprocal(den));
    LastProduct(Value(den), num, x, r, F, t);
    FinalShift(num, den, Mpy32(x, r));
  }

  /** The error of the last product, scaled by 2^59, as a sum of four separate contributions. */
  lemma QuotientTerms(D: int, n: int, m: int, FF: int, t: int, q: int, th: int)
    requires 0x4000_0000 * (m * D) == 0x2000_0000_0000 * 0x2000_0000_0000 - FF + t * D
    requires n * m == 0x8000_0000 * q + th
    ensures 0x2000_0000_0000_0000 * (q * D)
         == 0x2000_0000_0000 * 0x2000_0000_0000 * n - n * FF + n * t * D - 0x4000_0000 * (th * D)
  {
    var B := 0x2000_0000_0000 * 0x2000_0000_0000;
    ExpandThree(n, B, FF, t, D);
    Regroup(n, m, D);
    assert (0x8000_0000 * q + th) * D == 0x8000_0000 * (q * D) + th * D;
  }

  lemma QuotientError(D: int, num: int, n: int, m: int, F: int, t: int, q: int, th: int)
    requires 0x4000_0000 <= D <= MAX_32 && 0 <= num - n <= 1 && 0 <= n < D && 0 < num < D
    requires 0 < F < 0x1_0000_0000 && -0x1_4000_0000 < t < 0x4000_0000
    requires 0x4000_0000 * (m * D) == 0x2000_0000_0000 * 0x2000_0000_0000 - F * F + t * D
    requires n * m == 0x8000_0000 * q + th && 0 <= th < 6 * 0x8000_0000
    ensures -4 * D < 0x8000_0000 * num - 4 * (q * D) < 78 * D
  {
    QuotientTerms(D, n, m, F * F, t, q, th);
    MulNat(F, F, 0x1_0000_0000, 0x1_0000_0000);
    MulNat(n, F * F, D, 0x1_0000_0000 * 0x1_0000_0000);
    MulNat(th, D, 6 * 0x8000_0000, D);
    CrossTerm(n, t, D);
    Combine(D, num, n, n * (F * F), n * t * D, q * D, th * D);
  }

  lemma Combine(D: int, num: int, n: int, b: int, c: int, X: int, d: int)
    requires 0x4000_0000 <= D && 0 <= num - n <= 1
    requires 0x2000_0000_0000_0000 * X
          == 0x2000_0000_0000 * 0x2000_0000_0000 * n - b + c - 0x4000_0000 * d
    requires 0 <= b <= D * 0x1_0000_0000_0000_0000 && 0 <= d <= 6 * 0x8000_0000 * D
    requires -4 * 0x800_0000_0000_0000 * D < -c < 20 * 0x800_0000_0000_0000 * D
    ensures -4 * D < 0x8000_0000 * num - 4 * X < 78 * D
  {}

  lemma ExpandThree(n: int, b: int, f: int, t: int, d: int)
    ensures n * (b - f + t * d) == b * n - n * f + (n * t) * d
  {
    assert n * (b - f + t * d) == n * b - n * f + n * (t * d);
    MulAssoc(n, t, d);
  }

  lemma Regroup(n: int, m: int, d: int)
    ensures n * (0x4000_0000 * (m * d)) == 0x4000_0000 * ((n * m) * d)
  {
    MulAssoc(n, m, d);
  }

  lemma CrossTerm(n: int, t: int, D: int)
    requires 0 <= n < D <= MAX_32 && 0 < D && -0x1_4000_0000 < t < 0x4000_0000
    ensures -4 * 0x800_0000_0000_0000 * D < -(n * t * D) < 20 * 0x800_0000_0000_0000 * D
  {
    MulSigns(n, t);
    var c := n * t;
    if t >= 0 {
      MulNat(n, t, MAX_32, 0x4000_0000);
      assert 0 <= c < 4 * 0x800_0000_0000_0000;
    } else {
      MulNat(n, -t, MAX_32, 0x1_4000_0000);
      assert 0 <= -c < 20 * 0x800_0000_0000_0000;
    }
  }

  lemma FinalShift(num: Word32, den: Dpf, q: Word32)
    requires Normalised(den) && 0 < num < Value(den)
    requires -4 * Value(den) < 0x8000_0000 * num - 4 * (q * Value(den)) < 78 * Value(den)
    ensures var e := 0x8000_0000 * num - LShl(q, 2) * Value(den);
      -4 * Value(den) < e < 78 * Value(den)
  {
    var D := Value(den);
    assert TwoTo(2) == 2 * TwoTo(1) == 4;
    Multiples(q, D);
    if 4 * q > MAX_32 {
      assert LShl(q, 2) == MAX_32;
    } else {
      assert LShl(q, 2) == 4 * q;
    }
  }

  lemma Multiples(q: int, D: int)
    requires D > 0
    ensures 4 * (q * D) == (4 * q) * D
    ensures 4 * q > MAX_32 ==> MAX_32 * D < 4 * (q * D)
    ensures 4 * (q * D) > -78 * D ==> 4 * q > -78
  {
    if 4 * q > MAX_32 {
      MulNat(MAX_32 + 1, D, 4 * q, D);
    }
    if 4 * q <= -78 {
      MulNat(78, D, -(4 * q), D);
      MulSigns(4 * q, D);
    }
  }
}
