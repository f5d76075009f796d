/** The range of the BroadVoice16 level estimator: bv16/levelest.c, lines 52-114. */
module LevelRange {
  import opened Arithmetic
  import opened BasicOps
  import opened DoublePrecision
  import opened GainTables
  import opened LevelEstimation
  import opened GainCodec

  /** A double-precision product with a fraction: at most the exact one, and less than three below it. */
  lemma ScaleBounds(x: Word32, n: Word16)
    requires 0 < n
    ensures 0x8000 * (Scale(x, n) as int) <= x * n
    ensures 0x8000 * (Scale(x, n) as int) > x * n - 0x1_0000 - n
  {
    ExtractComposes(x);
    Mpy3216Error(LExtract(x), n);
    LowBit(x, Value(LExtract(x)), n);
    hide Mpy3216, LExtract, Value, LComp;
  }

  lemma LowBit(y: int, v: int, n: int)
    requires v <= y <= v + 1 && 0 < n
    ensures y * n - n <= v * n <= y * n
  {
    if v == y { } else { assert (y - 1) * n == y * n - n; }
  }

  /** The weights of the running averages, whose sum is one. */
  predicate Weights(a: int, b: int) {
    (a == 32704 && b == 64) || (a == 32640 && b == 128) || (a == 32760 && b == 8)
  }

  /** An average never exceeds both of its parts, and falls short of the exact one by at most five. */
  lemma MixRange(x: Word32, a: Word16, y: Word32, b: Word16, low: int, low': int)
    requires Weights(a, b) || Weights(b, a)
    requires low <= x && low' <= y
    ensures Mix(x, a, y, b) <= x || Mix(x, a, y, b) <= y
    ensures 0x8000 * (Mix(x, a, y, b) as int + 5) >= low * a + low' * b
  {
    ScaleBounds(x, a);
    ScaleBounds(y, b);
    var p: int, q: int := Scale(x, a), Scale(y, b);
    assert Mix(x, a, y, b) as int == Sat32(p + q);
    hide Scale, Mix, Sat32;
    AverageRange(x, a, y, b, p, q, low, low');
    Saturated(p + q);
  }

  lemma AverageRange(x: int, a: int, y: int, b: int, p: int, q: int, low: int, low': int)
    requires Weights(a, b) || Weights(b, a)
    requires low <= x <= MAX_32 && low' <= y <= MAX_32
    requires 0x8000 * p <= x * a && 0x8000 * p > x * a - 0x1_0000 - a
    requires 0x8000 * q <= y * b && 0x8000 * q > y * b - 0x1_0000 - b
    ensures p + q <= x || p + q <= y
    ensures 0x8000 * (p + q + 5) >= low * a + low' * b
  {
    if a == 32704 { } else if a == 32640 { } else if a == 32760 { } else if a == 64 { } else if a == 128 { } else { }
  }

  /** Attenuation towards the mean stays between the two, up to three on the lower side. */
  lemma TowardRange(x: Word32, mean: Word32, f: Word16, low: int, low': int)
    requires f == 32760 || f == 32640
    requires MIN_32 <= low <= x && MIN_32 <= low' <= mean && -0x10_0000 <= low - low' <= 0x10_0000
    ensures Toward(x, mean, f) <= x || Toward(x, mean, f) <= mean
    ensures 0x8000 * (Toward(x, mean, f) as int + 3) >= low * f + low' * (0x8000 - f)
  {
    var d: int := LSub(x, mean);
    ScaleBounds(LSub(x, mean), f);
    var s: int := Scale(LSub(x, mean), f);
    assert Toward(x, mean, f) as int == Sat32(s + mean);
    hide Scale, Toward, Sat32;
    AttenuationRange(x, mean, f, d, s, low, low');
    Saturated(s + mean);
  }

  lemma Saturated(x: int)
    ensures Sat32(x) <= MAX_32 && (x <= MAX_32 ==> x <= Sat32(x) as int) && (x >= MIN_32 ==> Sat32(x) as int <= x)
    ensures x > MAX_32 ==> Sat32(x) == MAX_32
    ensures x < MIN_32 ==> Sat32(x) == MIN_32
  {}

  lemma AttenuationRange(x: int, mean: int, f: int, d: int, s: int, low: int, low': int)
    requires f == 32760 || f == 32640
    requires MIN_32 <= low <= x <= MAX_32 && MIN_32 <= low' <= mean <= MAX_32 && -0x10_0000 <= low - low' <= 0x10_0000
    requires d == if x - mean > MAX_32 then MAX_32 else if x - mean < MIN_32 then MIN_32 else x - mean
    requires 0x8000 * s <= d * f && 0x8000 * s > d * f - 0x1_0000 - f
    ensures s + mean <= x || s + mean <= mean
    ensures 0x8000 * (s + mean + 3) >= low * f + low' * (0x8000 - f)
  {
    if f == 32760 { } else { }
  }

  // ---- the invariant ----

  /** Log-gains between A and B, in Q25 and inside (-32, 32). */
  ghost predicate Bounds(A: int, B: int) { -0x3fff_0000 <= A <= B < 0x4000_0000 }

  /**
   Maximum, minimum, mean and level between the smallest and the largest log-gain, up to the rounding
   that can gather: a few units for the maximum, which every frame renews, and at most 42000 units, a
   thousandth, for the rest.
   */
  ghost predicate Within(s: Level, A: int, B: int) {
    && A - 16 <= s.lmax <= B && A - 42000 <= s.lmin <= B && A - 25000 <= s.lmean <= B
    && A - 1300 <= s.x1 <= B && A - 2600 <= s.level <= B
  }

  lemma MaximumStays(lg: Word32, lmax: Word32, lmean: Word32, A: int, B: int)
    requires Bounds(A, B) && A <= lg <= B && (lg > lmax || A - 16 <= lmax <= B) && A - 25000 <= lmean <= B
    ensures A - 16 <= (if lg > lmax then lg else Toward(lmax, lmean, ESTL_ALPHA)) <= B
  {
    if lg <= lmax { TowardRange(lmax, lmean, ESTL_ALPHA, A, A - 25000); }
    hide Toward;
  }

  lemma MinimumStays(lmin: Word32, lmean: Word32, alpha: Word16, A: int, B: int)
    requires Bounds(A, B) && A - 42000 <= lmin <= B && A - 25000 <= lmean <= B
    requires alpha == ESTL_ALPHA || alpha == ESTL_ALPHA1
    ensures A - 42000 <= Toward(lmin, lmean, alpha) <= B
  {
    TowardRange(lmin, lmean, alpha, A - 42000, A - 25000);
    hide Toward;
  }

  lemma MiddleRange(x: Word32, y: Word32, A: int, B: int)
    requires Bounds(A, B) && A - 16 <= x <= B && A - 42000 <= y <= B
    ensures A - 21009 <= Middle(x, y) <= B
  {
    assert TwoTo(1) == 2;
  }

  lemma MeanStays(middle: Word32, lmean: Word32, A: int, B: int)
    requires A - 21009 <= middle <= B && A - 25000 <= lmean <= B
    ensures A - 25000 <= Mix(middle, ESTL_BETA1, lmean, ESTL_BETA) <= B
  {
    MixRange(middle, ESTL_BETA1, lmean, ESTL_BETA, A - 21009, A - 25000);
    hide Mix;
  }

  lemma AverageStays(old_: Word32, new_: Word32, slack: int, A: int, B: int)
    requires slack >= 1300 && A - slack <= old_ <= B && A - slack + 1300 <= new_ <= B
    ensures A - slack <= Mix(old_, ESTL_A, new_, ESTL_A1) <= B
  {
    MixRange(old_, ESTL_A, new_, ESTL_A1, A - slack, A - slack + 1300);
    hide Mix;
  }

  /** Main result: whatever the flags, a frame whose log-gain lies in the range keeps the estimator in it. */
  lemma EstimateStays(lg: Word32, s: Level, ngfae: Word16, nggalgc: Word16, alphaMin: Word16, A: int, B: int)
    requires Bounds(A, B) && A <= lg <= B && Within(s, A, B)
    requires alphaMin == ESTL_ALPHA || alphaMin == ESTL_ALPHA1
    ensures Within(Estimate(lg, s, ngfae, nggalgc, alphaMin).0, A, B)
    ensures Estimate(lg, s, ngfae, nggalgc, alphaMin).1 in {ESTL_ALPHA, ESTL_ALPHA1}
  {
    hide Toward, Mix, Middle, Threshold;
    var alpha := DecayMode(nggalgc, alphaMin);
    MaximumStays(lg, s.lmax, s.lmean, A, B);
    MinimumStays(s.lmin, s.lmean, alpha, A, B);
    var r := Estimate(lg, s, ngfae, nggalgc, alphaMin).0;
    MiddleRange(r.lmax, r.lmin, A, B);
    MeanStays(Middle(r.lmax, r.lmin), s.lmean, A, B);
    AverageStays(s.x1, lg, 1300, A, B);
    AverageStays(s.level, Mix(s.x1, ESTL_A, lg, ESTL_A1), 2600, A, B);
  }

  /** The first frame after a reset replaces both extremes, so from then on the estimator is in range. */
  lemma FirstFrame(lg: Word32, A: int, B: int)
    requires Bounds(A, B) && A <= lg <= B && A <= START_LEVEL.lmean && START_LEVEL.level <= B
    ensures Within(Estimate(lg, START_LEVEL, LGPORDER + 1, NFDM + 1, ESTL_ALPHA).0, A, B)
  {
    hide Toward, Mix, Middle, Threshold;
    var r := Estimate(lg, START_LEVEL, LGPORDER + 1, NFDM + 1, ESTL_ALPHA).0;
    assert r.lmax == lg == r.lmin;
    MiddleRange(r.lmax, r.lmin, A, B);
    MeanStays(Middle(r.lmax, r.lmin), START_LEVEL.lmean, A, B);
    AverageStays(START_LEVEL.x1, lg, 1300, A, B);
    AverageStays(START_LEVEL.level, Mix(START_LEVEL.x1, ESTL_A, lg, ESTL_A1), 2600, A, B);
  }

  /** All log-gains the encoder quantises in a run lie between A and B. */
  ghost predicate GainsWithin(e: EncoderState, energies: seq<Word32>, A: int, B: int)
    decreases |energies|
  {
    energies == []
    || (A <= EncodeFrame(e, energies[0]).0.memory.prev <= B && GainsWithin(EncodeFrame(e, energies[0]).0, energies[1..], A, B))
  }

  lemma {:induction false} RunStays(e: EncoderState, energies: seq<Word32>, A: int, B: int)
    requires Bounds(A, B) && Within(e.level, A, B) && GainsWithin(e, energies, A, B)
    ensures Within(EncodeRun(e, energies).0.level, A, B)
    decreases |energies|
  {
    hide Within, Bounds;
    if energies != [] {
      FrameLevel(e, energies[0]);
      EstimateStays(EncodeFrame(e, energies[0]).0.memory.prev, e.level, LGPORDER + 1, NFDM + 1, ESTL_ALPHA, A, B);
      hide EncodeFrame, Estimate;
      RunStays(EncodeFrame(e, energies[0]).0, energies[1..], A, B);
    }
  }

  lemma FrameLevel(e: EncoderState, ee: Word32)
    ensures var r := EncodeFrame(e, ee).0;
      r.level == Estimate(r.memory.prev, e.level, LGPORDER + 1, NFDM + 1, ESTL_ALPHA).0
  {
    hide Choose, Accept, Linear, Estimate;
  }

  /** Main result over runs: from reset the encoder's estimator stays in the range of its log-gains. */
  lemma ResetStays(energies: seq<Word32>, A: int, B: int)
    requires Bounds(A, B) && A <= START_LEVEL.lmean && START_LEVEL.level <= B
    requires energies != [] && GainsWithin(ENCODER_RESET, energies, A, B)
    ensures Within(EncodeRun(ENCODER_RESET, energies).0.level, A, B)
  {
    hide Within, Bounds;
    FrameLevel(ENCODER_RESET, energies[0]);
    FirstFrame(EncodeFrame(ENCODER_RESET, energies[0]).0.memory.prev, A, B);
    hide EncodeFrame, Estimate;
    RunStays(EncodeFrame(ENCODER_RESET, energies[0]).0, energies[1..], A, B);
  }

  // ---- each value in exact arithmetic ----

  /** A value in Q25 of a sum in Q40: the sum floored, up to six. */
  ghost predicate Near(v: int, sum: int) { -6 * 0x8000 <= 0x8000 * v - sum <= 0 }

  /** Log-gains that leave room for their differences. */
  ghost predicate Small(x: int) { -0x4000_0000 < x < 0x4000_0000 }

  /** The exact average in Q40. */
  function Average(x: int, a: int, y: int, b: int): int { x * a + y * b }

  /** The exact value in Q40 a fraction f of the way from the mean to x. */
  function Pulled(x: int, mean: int, f: int): int { 0x8000 * mean + f * (x - mean) }

  lemma MixIs(x: Word32, a: Word16, y: Word32, b: Word16)
    requires (Weights(a, b) || Weights(b, a)) && Small(x) && Small(y)
    ensures Near(Mix(x, a, y, b), Average(x, a, y, b))
  {
    hide Scale;
    ScaleBounds(x, a);
    ScaleBounds(y, b);
    var p: int, q: int := Scale(x, a), Scale(y, b);
    PartFits(x, a, p);
    PartFits(y, b, q);
    assert Mix(x, a, y, b) as int == p + q;
    hide Mix;
    NearAverage(x, a, y, b, p, q);
  }

  lemma NearAverage(x: int, a: int, y: int, b: int, p: int, q: int)
    requires 0 < a < 0x8000 && 0 < b < 0x8000
    requires 0x8000 * p <= x * a && 0x8000 * p > x * a - 0x1_0000 - a
    requires 0x8000 * q <= y * b && 0x8000 * q > y * b - 0x1_0000 - b
    ensures Near(p + q, Average(x, a, y, b))
  {}

  lemma PartFits(x: int, a: int, p: int)
    requires Small(x) && 0 < a < 0x8000 && 0x8000 * p <= x * a && 0x8000 * p > x * a - 0x1_0000 - a
    ensures -0x4000_0000 <= p + 3 && p <= 0x3fff_ffff
  {
    if x >= 0 { MulNat(x, a, 0x3fff_ffff, 0x8000); } else { MulNat(-x, a, 0x4000_0000, 0x8000); MulSigns(x, a); }
  }

  lemma ScaledDifference(x: Word32, y: Word32, f: Word16)
    requires Small(x) && Small(y) && f > 0
    ensures Near(LAdd(y, Scale(LSub(x, y), f)), Pulled(x, y, f))
  {
    hide Scale;
    ScaleBounds(LSub(x, y), f);
    var d: int := x as int - y;
    assert LSub(x, y) as int == d;
    NearPulled(x, y, f, Scale(LSub(x, y), f));
  }

  lemma NearPulled(x: int, y: int, f: int, s: int)
    requires Small(x) && Small(y) && 0 < f < 0x8000
    requires 0x8000 * s <= (x - y) * f && 0x8000 * s > (x - y) * f - 0x1_0000 - f
    ensures MIN_32 <= s + y <= MAX_32 && Near(s + y, Pulled(x, y, f))
  {
    var d := x - y;
    if d >= 0 { MulNat(d, f, d, 0x7fff); } else { MulNat(-d, f, -d, 0x7fff); MulSigns(d, f); }
  }

  lemma TowardIs(x: Word32, mean: Word32, f: Word16)
    requires Small(x) && Small(mean) && f > 0
    ensures Near(Toward(x, mean, f), Pulled(x, mean, f))
  {
    ScaledDifference(x, mean, f);
    hide Scale, Near, Pulled, LSub;
  }

  lemma ThresholdIs(lmax: Word32, lmean: Word32)
    requires Small(lmax) && Small(lmean)
    ensures Near(Threshold(lmax, lmean), Pulled(lmax, lmean, ESTL_TH))
  {
    ScaledDifference(lmax, lmean, ESTL_TH);
    hide Scale, Near, Pulled, LSub;
  }

  lemma MiddleIs(x: Word32, y: Word32)
    requires Small(x) && Small(y)
    ensures Middle(x, y) as int == (x as int + y) / 2 && Small(Middle(x, y))
  {
    assert TwoTo(1) == 2;
  }

  lemma WithinIsSmall(s: Level, A: int, B: int)
    requires Bounds(A, B) && Within(s, A, B)
    ensures Small(s.lmax) && Small(s.lmin) && Small(s.lmean) && Small(s.x1) && Small(s.level)
  {}

  /** A frame is loud when it lies more than a fifth of the way up from the mean to the maximum. */
  ghost predicate Loud(lg: int, r: Level) { 0x8000 * lg > Pulled(r.lmax, r.lmean, 6554) }

  /** The same with room for the rounding of the threshold. */
  ghost predicate Quiet(lg: int, r: Level) { 0x8000 * (lg + 6) <= Pulled(r.lmax, r.lmean, 6554) }

  /** Maximum and minimum take in the log-gain or decay towards the mean. */
  lemma ExtremesAre(lg: Word32, s: Level, ngfae: Word16, nggalgc: Word16, alphaMin: Word16)
    requires Small(s.lmax) && Small(s.lmin) && Small(s.lmean) && alphaMin > 0
    ensures var r := Estimate(lg, s, ngfae, nggalgc, alphaMin).0;
      var alpha := if nggalgc == 0 then 32640 else if nggalgc == 101 then 32760 else alphaMin as int;
      && (if lg > s.lmax then r.lmax == lg else Near(r.lmax, Pulled(s.lmax, s.lmean, 32760)))
      && (if lg < s.lmin && ngfae == 9 && nggalgc > 8 then r.lmin == lg else Near(r.lmin, Pulled(s.lmin, s.lmean, alpha)))
  {
    hide Toward, Mix, Middle, Threshold, Small, Near, Pulled;
    TowardIs(s.lmax, s.lmean, ESTL_ALPHA);
    TowardIs(s.lmin, s.lmean, DecayMode(nggalgc, alphaMin));
  }

  /** The mean follows the middle of the two, and a loud frame moves the level, by two averages in a row. */
  lemma AveragesAre(lg: Word32, s: Level, ngfae: Word16, nggalgc: Word16, alphaMin: Word16)
    requires Small(lg) && Small(s.lmean) && Small(s.x1) && Small(s.level)
    requires var r := Estimate(lg, s, ngfae, nggalgc, alphaMin).0; Small(r.lmax) && Small(r.lmin) && Small(r.lmean) && Small(r.x1)
    ensures var r := Estimate(lg, s, ngfae, nggalgc, alphaMin).0;
      && Near(r.lmean, Average((r.lmax as int + r.lmin) / 2, 64, s.lmean, 32704))
      && (Loud(lg, r) ==> Near(r.x1, Average(s.x1, 32640, lg, 128)) && Near(r.level, Average(s.level, 32640, r.x1, 128)))
      && (Quiet(lg, r) ==> r.x1 == s.x1 && r.level == s.level)
  {
    hide Toward, Mix, Middle, Threshold, Small, Near, Pulled, Average, Loud, Quiet, DecayMode;
    var r := Estimate(lg, s, ngfae, nggalgc, alphaMin).0;
    MiddleIs(r.lmax, r.lmin);
    MixIs(Middle(r.lmax, r.lmin), ESTL_BETA1, s.lmean, ESTL_BETA);
    ThresholdIs(r.lmax, r.lmean);
    NearThreshold(lg, Threshold(r.lmax, r.lmean), r);
    MixIs(s.x1, ESTL_A, lg, ESTL_A1);
    MixIs(s.level, ESTL_A, r.x1, ESTL_A1);
  }

  lemma NearThreshold(lg: int, th: int, r: Level)
    requires Near(th, Pulled(r.lmax, r.lmean, 6554))
    ensures Loud(lg, r) ==> lg > th
    ensures Quiet(lg, r) ==> lg <= th
  {}

  /** Main result: every value of the estimator in exact arithmetic, for every frame in range. */
  lemma EstimateIs(lg: Word32, s: Level, ngfae: Word16, nggalgc: Word16, alphaMin: Word16, A: int, B: int)
    requires Bounds(A, B) && A <= lg <= B && Within(s, A, B)
    requires alphaMin == ESTL_ALPHA || alphaMin == ESTL_ALPHA1
    ensures var r := Estimate(lg, s, ngfae, nggalgc, alphaMin).0;
      var alpha := if nggalgc == 0 then 32640 else if nggalgc == 101 then 32760 else alphaMin as int;
      && (if lg > s.lmax then r.lmax == lg else Near(r.lmax, Pulled(s.lmax, s.lmean, 32760)))
      && (if lg < s.lmin && ngfae == 9 && nggalgc > 8 then r.lmin == lg else Near(r.lmin, Pulled(s.lmin, s.lmean, alpha)))
      && Near(r.lmean, Average((r.lmax as int + r.lmin) / 2, 64, s.lmean, 32704))
      && (Loud(lg, r) ==> Near(r.x1, Average(s.x1, 32640, lg, 128)) && Near(r.level, Average(s.level, 32640, r.x1, 128)))
      && (Quiet(lg, r) ==> r.x1 == s.x1 && r.level == s.level)
  {
    hide Estimate, Near, Pulled, Average, Loud, Quiet;
    EstimateStays(lg, s, ngfae, nggalgc, alphaMin, A, B);
    WithinIsSmall(s, A, B);
    WithinIsSmall(Estimate(lg, s, ngfae, nggalgc, alphaMin).0, A, B);
    assert Small(lg);
    ExtremesAre(lg, s, ngfae, nggalgc, alphaMin);
    AveragesAre(lg, s, ngfae, nggalgc, alphaMin);
  }
}
