/** The normalised autocorrelation of computeLP (bcg729/src/computeLP.c, lines 153-211). */
module Autocorrelation {
  import opened Arithmetic
  import opened BasicOps

  // ---- the split multiply of fixedPointMacros.h, line 106 ----

  /** MULT16_32_P15: the high part exact, the low part rounded. */
  function Mult16By32P15(a: int, b: int): int {
    a * (b / 0x8000) + (a * (b % 0x8000) + 0x4000) / 0x8000
  }

  /** It is the exact product, rounded once. */
  lemma SplitProductIsRounded(a: int, b: int)
    ensures Mult16By32P15(a, b) == (a * b + 0x4000) / 0x8000
  {
    var h, l := b / 0x8000, b % 0x8000;
    assert a * b == 0x8000 * (a * h) + a * l by { assert b == 0x8000 * h + l; }
    ShiftOut(a * h, a * l + 0x4000);
  }

  lemma ShiftOut(h: int, l: int)
    ensures (0x8000 * h + l) / 0x8000 == h + l / 0x8000
  {}

  /** Its parts fit in 32 bits for every weight the lag window holds. */
  lemma SplitProductFits(a: int, b: int)
    requires 0 <= a <= 0x7fff && MIN_32 <= b <= MAX_32
    ensures MIN_32 <= a * (b / 0x8000) <= MAX_32 && 0 <= a * (b % 0x8000) + 0x4000 <= MAX_32
  {
    MulNat(a, b % 0x8000, 0x7fff, 0x7fff);
    if b >= 0 {
      MulNat(a, b / 0x8000, 0x7fff, 0xffff);
    } else {
      MulNat(a, -(b / 0x8000), 0x7fff, 0x1_0000);
      MulSigns(a, b / 0x8000);
    }
  }

  // ---- correlations ----

  type Signal = x: seq<int> | forall k :: 0 <= k < |x| ==> MIN_16 <= x[k] <= MAX_16 witness []

  /** The sum of x[j] x[j - lag] over lag <= j < k. */
  function Partial(x: seq<int>, lag: nat, k: nat): int
    requires k <= |x|
  {
    if k <= lag then 0 else Partial(x, lag, k - 1) + x[k - 1] * x[k - 1 - lag]
  }

  function Energy(x: seq<int>, k: nat): int
    requires k <= |x|
  {
    Partial(x, 0, k)
  }

  lemma {:induction false} EnergyGrows(x: Signal, j: nat, k: nat)
    requires j <= k <= |x|
    ensures 0 <= Energy(x, j) <= Energy(x, k) <= k * 0x4000_0000
  {
    if k > 0 {
      SquareBound(x[k - 1]);
      if j < k { EnergyGrows(x, j, k - 1); } else { EnergyGrows(x, k - 1, k - 1); }
    }
  }

  lemma SquareBound(x: int)
    requires MIN_16 <= x <= MAX_16
    ensures 0 <= x * x <= 0x4000_0000
  {
    if x >= 0 { MulNat(x, x, 0x8000, 0x8000); } else { MulNat(-x, -x, 0x8000, 0x8000); MulSigns(x, x); }
  }

  lemma MeansInequality(x: int, y: int)
    ensures -(x * x + y * y) <= 2 * (x * y) <= x * x + y * y
  {
    assert (x - y) * (x - y) == x * x - 2 * (x * y) + y * y;
    assert (x + y) * (x + y) == x * x + 2 * (x * y) + y * y;
    SquareNonNegative(x - y);
    SquareNonNegative(x + y);
  }

  lemma SquareNonNegative(x: int)
    ensures x * x >= 0
  {
    if x < 0 { MulNat(-x, -x, -x, -x); MulSigns(x, x); } else { MulNat(x, x, x, x); }
  }

  /** Twice a partial sum is bounded by the energies of the two stretches it pairs. */
  lemma {:induction false} PartialBound(x: Signal, lag: nat, k: nat)
    requires lag <= k <= |x|
    ensures -(Energy(x, k) + Energy(x, k - lag)) <= 2 * Partial(x, lag, k) <= Energy(x, k) + Energy(x, k - lag)
  {
    if k == lag {
      EnergyGrows(x, k, k);
    } else {
      PartialBound(x, lag, k - 1);
      MeansInequality(x[k - 1], x[k - 1 - lag]);
    }
  }

  /**
   Main result on the sums: for every lag and after every term, no partial sum exceeds the energy of
   the whole signal.
   */
  lemma PartialSumsBounded(x: Signal, lag: nat, k: nat)
    requires k <= |x|
    ensures -Energy(x, |x|) <= Partial(x, lag, k) <= Energy(x, |x|)
  {
    EnergyGrows(x, k, |x|);
    if lag <= k {
      PartialBound(x, lag, k);
      EnergyGrows(x, k - lag, |x|);
    }
  }

  // ---- normalisation ----

  /** The first coefficient before normalisation: at least one. */
  function Power(x: Signal): int {
    if Energy(x, |x|) == 0 then 1 else Energy(x, |x|)
  }

  /** Shift right by s, or left by -s. */
  function Shifted(v: int, s: int): int {
    if s > 0 then v / TwoTo(s) else v * TwoTo(-s)
  }

  ghost predicate Normalised(v: int) { 0x4000_0000 <= v <= MAX_32 }

  lemma HalveOnce(v: int, s: nat)
    ensures v / TwoTo(s) / 2 == v / TwoTo(s + 1)
  {
    hide TwoTo;
    TwiceTo(s);
    HalveQuotient(v, TwoTo(s));
  }

  lemma TwiceTo(s: nat)
    ensures TwoTo(s + 1) == 2 * TwoTo(s)
  {}

  lemma HalveQuotient(v: int, p: nat)
    requires p >= 1
    ensures v / p / 2 == v / (2 * p)
  {
    var q, r := v / p, v % p;
    var h, b := q / 2, q % 2;
    assert v == p * q + r && q == 2 * h + b;
    assert v == (2 * p) * h + (p * b + r) by { assert p * (2 * h + b) == (2 * p) * h + p * b; }
    MulNat(p, b, p, 1);
    FloorUnique(v, 2 * p, h, p * b + r);
  }

  lemma FloorUnique(d: int, m: nat, q: int, r: nat)
    requires d == m * q + r && r < m
    ensures d / m == q
  {
    var q', r' := d / m, d % m;
    assert d == m * q' + r';
    assert m * (q - q') == m * q - m * q';
    if q' < q { MulNat(m, q - q' - 1, m, q - q' - 1); } else if q < q' { MulNat(m, q' - q - 1, m, q' - q - 1); }
  }

  /** Halve until 31 bits are enough. */
  method HalveUntilFits(power: int) returns (r0: int, s: nat)
    requires power > MAX_32
    ensures s > 0 && r0 == power / TwoTo(s) && Normalised(r0)
  {
    hide TwoTo;
    r0, s := power / 2, 1;
    HalveOnce(power, 0);
    assert TwoTo(0) == 1 by { TwiceTo(0); OneIs(); }
    while r0 > MAX_32
      invariant s > 0 && r0 == power / TwoTo(s) && r0 >= 0x4000_0000
      decreases r0
    {
      HalveOnce(power, s);
      r0, s := r0 / 2, s + 1;
    }
  }

  lemma OneIs()
    ensures TwoTo(0) == 1
  {}

  /** countLeadingZeros, the sign bit left out. */
  method CountLeadingZeros(v: int) returns (zeros: nat)
    requires 0 <= v <= MAX_32
    ensures v == 0 ==> zeros == 31
    ensures v > 0 ==> Normalised(v * TwoTo(zeros))
  {
    if v == 0 { return 31; }
    hide TwoTo;
    OneIs();
    zeros := 0;
    var w := v;
    while w < 0x4000_0000
      invariant 0 < w <= MAX_32 && w == v * TwoTo(zeros)
      decreases 0x4000_0000 - w
    {
      TwiceTo(zeros);
      DoubleProduct(v, TwoTo(zeros));
      zeros, w := zeros + 1, 2 * w;
    }
  }

  lemma DoubleProduct(v: int, p: int)
    ensures v * (2 * p) == 2 * (v * p)
  {}

  /** How far each coefficient may be from zero before the lag window. */
  lemma ShiftedBound(c: int, power: int, s: int)
    requires -power <= c <= power && power > 0 && Normalised(Shifted(power, s))
    ensures -Shifted(power, s) - 1 <= Shifted(c, s) <= Shifted(power, s)
    ensures s <= 0 ==> -Shifted(power, s) <= Shifted(c, s)
  {
    hide TwoTo;
    if s > 0 {
      FloorRange(c, power, TwoTo(s));
    } else {
      ScaleBound(c, power, TwoTo(-s));
    }
  }

  lemma ScaleBound(c: int, m: int, p: nat)
    requires -m <= c <= m
    ensures -(m * p) <= c * p <= m * p
  {
    MulNat(m - c, p, m - c, p);
    MulNat(m + c, p, m + c, p);
    assert (m - c) * p == m * p - c * p && (m + c) * p == m * p + c * p;
  }

  /** The lag window brings every other coefficient strictly below the first. */
  lemma WindowedBelow(w: int, c: int, r0: int)
    requires 0 <= w <= 0x7fff && Normalised(r0) && -r0 - 1 <= c <= r0
    ensures -r0 < Mult16By32P15(w, c) < r0
  {
    SplitProductIsRounded(w, c);
    MulNat(w, r0 + 1, 0x7fff, r0 + 1);
    ScaleBound(c, r0 + 1, w);
    Commute(w, c);
    Commute(w, r0 + 1);
    assert -0x7fff * (r0 + 1) <= w * c <= 0x7fff * (r0 + 1);
    hide Mult16By32P15;
  }

  lemma Commute(a: int, b: int)
    ensures a * b == b * a
  {}

  // ---- computeLP up to the Levinson recursion ----

  const WLAG: seq<int> := [32767, 32728, 32619, 32438, 32187, 31867, 31480, 31029, 30517, 29946, 29321, 28646, 27923]

  function Correlation(x: seq<int>, lag: nat): int {
    Partial(x, lag, |x|)
  }

  /** The 64-bit loop for one lag; no sum leaves 64 bits for any signal that fits in memory. */
  method SumOn64(x: Signal, lag: nat) returns (acc64: int)
    requires |x| <= 0x1_0000_0000
    ensures acc64 == Correlation(x, lag)
    ensures -0x4000_0000_0000_0000 <= acc64 <= 0x4000_0000_0000_0000
  {
    hide Energy;
    acc64 := 0;
    EnergyGrows(x, 0, |x|);
    if lag < |x| {
      for j := lag to |x|
        invariant acc64 == Partial(x, lag, j)
        invariant -0x4000_0000_0000_0000 <= acc64 <= 0x4000_0000_0000_0000
      {
        acc64 := acc64 + x[j] * x[j - lag];
        PartialSumsBounded(x, lag, j + 1);
      }
    } else {
      PartialSumsBounded(x, lag, |x|);
    }
  }

  /** The 32-bit loop for one lag, safe because the energy fits. */
  method SumOn32(x: Signal, lag: nat) returns (acc32: int)
    requires Power(x) <= MAX_32
    ensures acc32 == Correlation(x, lag)
    ensures -MAX_32 <= acc32 <= MAX_32
  {
    hide Energy;
    acc32 := 0;
    if lag < |x| {
      for j := lag to |x|
        invariant acc32 == Partial(x, lag, j)
        invariant -MAX_32 <= acc32 <= MAX_32
      {
        acc32 := acc32 + x[j] * x[j - lag];
        PartialSumsBounded(x, lag, j + 1);
      }
    } else {
      PartialSumsBounded(x, lag, |x|);
    }
  }

  /** The first coefficient and the shift that normalises it. */
  method NormaliseFirst(x: Signal) returns (r0: int, rightShift: int)
    requires |x| <= 0x1_0000_0000
    ensures r0 == Shifted(Power(x), rightShift) && Normalised(r0)
    ensures rightShift > 0 <==> Power(x) > MAX_32
  {
    var acc64 := SumOn64(x, 0);
    EnergyGrows(x, |x|, |x|);
    if acc64 == 0 { acc64 := 1; }
    if acc64 > MAX_32 {
      r0, rightShift := HalveUntilFits(acc64);
    } else {
      var zeros: int := CountLeadingZeros(acc64);
      r0, rightShift := acc64 * TwoTo(zeros), -zeros;
    }
  }

  ghost predicate NormalisedSums(x: Signal, r: seq<int>, shift: int, n: nat)
    requires n <= |r|
  {
    forall i :: 1 <= i < n ==> r[i] == Shifted(Correlation(x, i), shift)
  }

  /** Coefficient i leaves the normalisation within one of the first, and within 32 bits. */
  lemma CoefficientBound(x: Signal, i: nat, shift: int, r0: int)
    requires r0 == Shifted(Power(x), shift) && Normalised(r0)
    ensures -r0 - 1 <= Shifted(Correlation(x, i), shift) <= r0
    ensures MIN_32 <= Shifted(Correlation(x, i), shift) <= MAX_32
  {
    PartialSumsBounded(x, i, |x|);
    EnergyGrows(x, 0, |x|);
    ShiftedBound(Correlation(x, i), Power(x), shift);
    hide Shifted;
  }

  /** All coefficients before the lag window. */
  method Correlate(x: Signal, number: nat) returns (r: array<int>, rightShift: int)
    requires 1 <= number && |x| <= 0x1_0000_0000
    ensures fresh(r) && r.Length == number && r[0] == Shifted(Power(x), rightShift) && Normalised(r[0])
    ensures NormalisedSums(x, r[..], rightShift, number)
  {
    hide Normalised, Power, Correlation, TwoTo;
    r := new int[number];
    var r0;
    r0, rightShift := NormaliseFirst(x);
    r[0] := r0;
    for i := 1 to number
      invariant r[0] == r0 && NormalisedSums(x, r[..], rightShift, i)
      modifies r
    {
      if rightShift > 0 {
        var acc64 := SumOn64(x, i);
        r[i] := acc64 / TwoTo(rightShift);
      } else {
        var acc32 := SumOn32(x, i);
        r[i] := acc32 * TwoTo(-rightShift);
      }
    }
  }

  function Windowed(i: nat): bool { 1 <= i < |WLAG| }

  /**
   Main result: the coefficients are the normalised correlations, the first lies in [2^30, 2^31), and
   behind the lag window all others are strictly below it, for every signal and every lag.
   */
  method ComputeAutocorrelation(x: Signal, number: nat) returns (r: array<int>, noLag: seq<int>, scale: int)
    requires 1 <= number && |x| <= 0x1_0000_0000
    ensures r.Length == |noLag| == number
    ensures noLag[0] == r[0] == Shifted(Power(x), -scale) && Normalised(r[0])
    ensures NormalisedSums(x, noLag, -scale, number)
    ensures forall i :: 0 <= i < number ==>
      r[i] == if Windowed(i) then (WLAG[i] * noLag[i] + 0x4000) / 0x8000 else noLag[i]
    ensures forall i :: 0 <= i < number && Windowed(i) ==> -r[0] < r[i] < r[0]
  {
    hide Normalised, Power, Correlation, Shifted, Mult16By32P15;
    var rightShift;
    r, rightShift := Correlate(x, number);
    scale := -rightShift;
    noLag := r[..];
    for i := 1 to if number > |WLAG| then |WLAG| else number
      invariant r[0] == noLag[0] && forall k :: i <= k < number ==> r[k] == noLag[k]
      invariant forall k :: 1 <= k < i ==> r[k] == (WLAG[k] * noLag[k] + 0x4000) / 0x8000
      invariant forall k :: 1 <= k < i ==> -r[0] < r[k] < r[0]
      modifies r
    {
      CoefficientBound(x, i, rightShift, r[0]);
      WindowBounds(i);
      WindowedBelow(WLAG[i], noLag[i], r[0]);
      SplitProductIsRounded(WLAG[i], noLag[i]);
      r[i] := Mult16By32P15(WLAG[i], r[i]);
    }
  }

  lemma WindowBounds(i: nat)
    requires i < |WLAG|
    ensures 0 <= WLAG[i] <= 0x7fff
  {}
}
