/** What the log-gain and the linear gain of BroadVoice16 mean: bv16/gainquan.c, lines 48-57 and 118-123. */
module LinearGain {
  import opened Arithmetic
  import opened BasicOps
  import opened DoublePrecision
  import opened MathUtil
  import opened Powers
  import opened Logarithms
  import opened GainCodec

  // ---- the linear gain ----

  lemma LinearIs(lgq: Word32)
    ensures var w, f := lgq / 0x400_0000 + 18, lgq % 0x400_0000 / 2048;
      -14 <= w <= 49 && 0 <= f <= MAX_16 && Linear(lgq) == Pow2(w, f)
  {
    hide Pow2, LExtract, TwoTo;
    TenShift();
    var y := LShr(lgq, 10);
    assert y as int == lgq / 0x400;
    ExtractComposes(y);
    ExtractParts(y);
    Parts(lgq);
    hide LShr;
  }

  lemma Parts(l: int)
    requires MIN_32 <= l <= MAX_32
    ensures l / 0x400 / 0x1_0000 == l / 0x400_0000 && l / 0x400 % 0x1_0000 / 2 == l % 0x400_0000 / 2048
    ensures -32 <= l / 0x400_0000 <= 31 && 0 <= l % 0x400_0000 / 2048 <= MAX_16
  {}

  lemma TenShift()
    ensures TwoTo(10) == 0x400
  {
    assert TwoTo(4) == 16;
    assert TwoTo(8) == 16 * TwoTo(4);
  }

  lemma ExtractParts(a: Word32)
    ensures LExtract(a).hi as int == a / 0x1_0000 && LExtract(a).lo as int == a % 0x1_0000 / 2
  {
    ExtractComposes(a);
    ExtractHigh(a);
    hide LExtract;
  }

  lemma ExtractHigh(a: Word32)
    ensures LExtract(a).hi as int == a / 0x1_0000
  {}

  /** Whole log-gains have exact linear gains: the gain of a log-gain of 0 is 2^18, and doubles with every 2.0. */
  lemma LinearOfWhole(n: int)
    requires -18 <= n <= 12
    ensures Linear(2 * n * 0x200_0000) as int == TwoTo(18 + n)
  {
    hide Linear, Pow2, TwoTo;
    var g: Word32 := 2 * n * 0x200_0000;
    assert g / 0x400_0000 == n && g % 0x400_0000 == 0 by { Multiple(n); }
    LinearIs(g);
    PowOfWhole(18 + n);
  }

  lemma Multiple(n: int)
    ensures (2 * n * 0x200_0000) / 0x400_0000 == n && (2 * n * 0x200_0000) % 0x400_0000 == 0
  {}

  lemma LinearRange(lgq: Word32)
    ensures Floor(lgq / 0x400_0000 + 18) <= Linear(lgq) as int <= Floor(lgq / 0x400_0000 + 19)
  {
    LinearIs(lgq);
    hide Linear, Pow2, TwoTo, Floor;
    PowRange(lgq / 0x400_0000 + 18, lgq % 0x400_0000 / 2048);
  }

  /** A larger log-gain never has a smaller linear gain. */
  lemma LinearRises(a: Word32, b: Word32)
    requires a <= b
    ensures Linear(a) <= Linear(b)
  {
    LinearIs(a);
    LinearIs(b);
    hide Linear, Pow2;
    PowRises(a / 0x400_0000 + 18, a % 0x400_0000 / 2048, b / 0x400_0000 + 18, b % 0x400_0000 / 2048);
  }

  // ---- the log-gain ----

  /** A fifth of the energy, which is sixteen times the mean of forty samples at twice their scale. */
  function Mean(ee: Word32): Word32 { Mpy3216(LExtract(ee), 6554) }

  lemma MeanIs(ee: Word32)
    requires ee >= 0
    ensures Mean(ee) as int == 2 * (ee / 2 * 6554 / 0x8000)
    ensures ee >= 2 * FRSZ ==> 16 <= Mean(ee)
  {
    hide LExtract, Mpy3216;
    var x := LExtract(ee);
    ExtractComposes(ee);
    Mpy3216Exact(x, 6554);
    HalvesScaled(ee, x.hi, x.lo);
  }

  lemma HalvesScaled(ee: int, hi: int, lo: int)
    requires ee >= 0 && ee == 0x1_0000 * hi + 2 * lo + ee % 2
    ensures 2 * (hi * 6554) + 2 * (lo * 6554 / 0x8000) == 2 * (ee / 2 * 6554 / 0x8000)
  {
    assert ee / 2 == 0x8000 * hi + lo;
    WholeOut(hi * 6554, lo * 6554);
  }

  lemma WholeOut(h: int, l: int)
    ensures (0x8000 * h + l) / 0x8000 == h + l / 0x8000
  {}

  lemma MeanRises(a: Word32, b: Word32)
    requires 2 * FRSZ <= a <= b
    ensures 0 < Mean(a) <= Mean(b)
  {
    hide Mean;
    MeanIs(a);
    MeanIs(b);
  }

  lemma LogGainIs(ee: Word32)
    requires ee >= 2 * FRSZ
    ensures LogGain(ee) as int == 0x400 * (LogWord(Mean(ee)) - 4 * 0x8000)
    ensures LogGain(ee) >= 0
  {
    hide Mpy3216, LExtract, Log2, TwoTo;
    MeanIs(ee);
    LogRange(Mean(ee));
    NotBelowFour(Log2(Mean(ee)).0, Mean(ee));
    Shifts(Log2(Mean(ee)).0, Log2(Mean(ee)).1);
  }

  lemma Shifts(e: Word16, f: Word16)
    requires 4 <= e <= 30 && 0 <= f
    ensures LShl(DepositH(Sub(e, 4)), 9) as int == (e - 4) * 0x200_0000 && LShr(DepositH(f), 6) as int == f * 0x400
  {
    assert TwoTo(4) == 16;
    assert TwoTo(6) == 4 * TwoTo(4);
    assert TwoTo(9) == 8 * TwoTo(6);
    hide TwoTo;
  }

  lemma NotBelowFour(e: int, x: int)
    requires 0 <= e && 16 <= x < TwoTo(e + 1)
    ensures e >= 4
  {
    assert TwoTo(4) == 16;
    hide TwoTo;
    if e < 4 { PowersGrow(e + 1, 4); }
  }

  /** A larger energy never has a smaller log-gain. */
  lemma LogGainRises(a: Word32, b: Word32)
    requires a <= b
    ensures LogGain(a) <= LogGain(b)
  {
    if a < 2 * FRSZ {
      hide Log2, LShl, LShr, Mpy3216, LExtract;
      if b >= 2 * FRSZ { LogGainIs(b); }
    } else {
      hide LogGain, LogWord, Mean;
      LogGainIs(a);
      LogGainIs(b);
      MeanRises(a, b);
      LogRises(Mean(a), Mean(b));
    }
  }

  /** Where the mean has its leading bit, the log-gain has its whole part. */
  lemma LogGainRange(ee: Word32, k: nat)
    requires ee >= 2 * FRSZ && 4 <= k <= 30 && TwoTo(k) <= Mean(ee) as int < TwoTo(k + 1)
    ensures (k - 4) * 0x200_0000 <= LogGain(ee) as int < (k - 3) * 0x200_0000
    ensures Mean(ee) as int == TwoTo(k) ==> LogGain(ee) as int == (k - 4) * 0x200_0000
  {
    hide LogGain, Log2, Mean, TwoTo;
    LogGainIs(ee);
    MeanIs(ee);
    LogRange(Mean(ee));
    OneLeadingBit(Log2(Mean(ee)).0, k, Mean(ee));
  }

  lemma OneLeadingBit(e: nat, k: nat, x: int)
    requires TwoTo(e) <= x < TwoTo(e + 1) && TwoTo(k) <= x < TwoTo(k + 1)
    ensures e == k
  {
    hide TwoTo;
    if e < k { PowersGrow(e + 1, k); } else if e > k { PowersGrow(k + 1, e); }
  }

  // ---- both ----

  /**
   Main result: the linear gain of the log-gain of a frame is the square root of its mean energy, in the
   units of both: when the mean lies between 4^j and 4^(j+1) sixteenths, the gain lies between 2^j and
   2^(j+1), scaled by 2^18; and a larger energy never has a smaller gain.
   */
  lemma GainIsRoot(ee: Word32, j: nat)
    requires ee >= 2 * FRSZ && j <= 12 && TwoTo(2 * j + 4) <= Mean(ee) as int < TwoTo(2 * j + 6)
    ensures TwoTo(18 + j) <= Linear(LogGain(ee)) as int <= TwoTo(19 + j)
    ensures Mean(ee) as int == TwoTo(2 * j + 4) ==> Linear(LogGain(ee)) as int == TwoTo(18 + j)
  {
    hide Mean, Linear, LogGain, TwoTo;
    var k := if Mean(ee) as int < TwoTo(2 * j + 5) then 2 * j + 4 else 2 * j + 5;
    if Mean(ee) as int == TwoTo(2 * j + 4) { PowersGrow(2 * j + 4, 2 * j + 5); NextPower(2 * j + 4); }
    LogGainRange(ee, k);
    var lg: int := LogGain(ee);
    WholeSteps(lg, j);
    LinearRange(lg);
    LinearOfWhole(j);
    FloorIs(18 + j);
    FloorIs(19 + j);
    hide Floor;
  }

  lemma NextPower(n: nat)
    ensures TwoTo(n) < TwoTo(n + 1)
  {}

  lemma WholeSteps(lg: int, j: nat)
    requires 2 * j * 0x200_0000 <= lg < (2 * j + 2) * 0x200_0000
    ensures lg / 0x400_0000 == j
  {}

  lemma FloorIs(w: nat)
    requires w <= 31
    ensures w <= 30 ==> Floor(w) == TwoTo(w)
    ensures Floor(w) <= TwoTo(w)
  {
    Tops();
  }
}
