/** The tables behind the log-gain quantiser: tables.c of BroadVoice16. */
module GainTables {
  import opened Arithmetic
  import opened BasicOps

  const LGPORDER := 8
  const LGPECBSZ := 16
  const NGB := 18
  const NGCB := 12
  const LGLB: Word16 := -24
  const LGCLB: Word16 := -8
  const LGMEAN: Word16 := 23465

  /** Codebook of log-gain prediction errors, Q11. */
  function Lgpecb(): (t: seq<Word16>)
    ensures |t| == LGPECBSZ
  {
    [-11028, -7538, -5670, -4295, -3015, -696, 1378, 3728,
     -1813, 343, 2464, 5377, 7793, 11562, 17830, 24272]
  }

  /** The order that sorts the codebook. */
  function Idxord(): (t: seq<nat>)
    ensures |t| == LGPECBSZ
    ensures forall i :: 0 <= i < |t| ==> t[i] < LGPECBSZ
  {
    [0, 1, 2, 3, 4, 8, 5, 9, 6, 10, 7, 11, 12, 13, 14, 15]
  }

  /** Log-gain predictor, Q15. */
  function Lgp(): (t: seq<Word16>)
    ensures |t| == LGPORDER
  {
    [25564, 24175, 20155, 19419, 15316, 11914, 7794, 4217]
  }

  /** Largest log-gain change allowed, Q9: one row per relative level, one column per last change. */
  function Lgclimit(): (t: seq<seq<Word16>>)
    ensures |t| == NGB
  {
    [[0, 405, 285, 7304, 7211, 0, 0, 0, 0, 0, 0, 0],
     [0, 7092, 886, 7049, 7131, 0, 0, 0, 0, 0, 0, 0],
     [-1004, 4563, 4012, 7219, 7055, 466, -1236, 0, 0, 0, 0, 0],
     [-1004, 4439, 6928, 7217, 7143, 6643, 1099, 0, 0, 0, 0, 0],
     [-754, 4758, 7130, 7112, 7106, 7136, 6250, -2555, 0, 0, 0, 0],
     [2358, 6315, 7215, 7241, 7250, 6905, 6344, 1030, 0, 0, 0, 0],
     [5458, 5492, 7082, 7006, 7137, 7055, 6705, 5210, -79, -1498, 0, 0],
     [3376, 5220, 6832, 6591, 6844, 6842, 6722, 6486, 373, 154, 2494, 4023],
     [1352, 4877, 5046, 5304, 5443, 6617, 6505, 6478, 4591, 678, 2492, 4001],
     [3199, 4233, 4496, 4652, 4624, 5295, 5744, 5669, 4263, 4311, 3944, 4025],
     [3169, 3440, 4088, 3774, 3842, 3942, 4655, 4473, 3539, 3936, 3698, 1797],
     [2255, 2798, 3163, 3095, 3144, 3506, 3016, 2784, 2392, 2857, 3947, 3820],
     [1739, 2773, 2765, 2446, 2352, 2373, 3294, 1813, 2242, 1895, 3404, 2429],
     [0, 1792, 2357, 2008, 1885, 2159, 2144, 1703, 1735, 1192, 2637, 904],
     [0, 564, 1559, 1633, 1332, 1245, 1490, 760, 223, 227, 770, 898],
     [0, -61, -582, 725, 766, 373, 309, -181, -503, -589, -1021, 0],
     [0, 0, 0, 701, 607, -189, -2057, -1133, 0, -681, -1558, 0],
     [0, 0, 0, 271, 221, 0, 0, -1466, 0, 0, 0, 0]]
  }

  ghost predicate LimitRow(row: seq<Word16>) {
    |row| == NGCB && forall n :: 0 <= n < |row| ==> row[n] >= -2555
  }

  /** Every row has the right length and no entry is below -2555. */
  lemma LimitRows(i: nat)
    requires i < NGB
    ensures LimitRow(Lgclimit()[i])
  {}

  /** The search order starts at codebook entry 0, visits no entry twice, and sorts the codebook. */
  lemma SearchOrder(i: nat, j: nat)
    requires i < j < LGPECBSZ
    ensures Idxord()[i] != Idxord()[j]
    ensures Lgpecb()[Idxord()[i]] < Lgpecb()[Idxord()[j]]
    ensures Idxord()[0] == 0
  {}

  lemma CodebookRange(i: nat)
    requires i < LGPECBSZ
    ensures -11028 <= Lgpecb()[i] <= 24272
  {}
}

/** The input level estimator that encoder and decoder both run: levelest.c. */
module LevelEstimation {
  import opened Arithmetic
  import opened BasicOps
  import opened DoublePrecision
  import opened GainTables

  const ESTL_ALPHA: Word16 := 32760
  const ESTL_ALPHA1: Word16 := 32640
  const ESTL_BETA: Word16 := 32704
  const ESTL_BETA1: Word16 := 64
  const ESTL_A: Word16 := 32640
  const ESTL_A1: Word16 := 128
  const ESTL_TH: Word16 := 6554
  const NFDM: Word16 := 100

  datatype Level = Level(lmax: Word32, lmin: Word32, lmean: Word32, x1: Word32, level: Word32)

  function Scale(x: Word32, n: Word16): Word32 { Mpy3216(LExtract(x), n) }

  /** mean + factor * (x - mean) */
  function Toward(x: Word32, mean: Word32, factor: Word16): Word32 {
    hide Scale;
    LAdd(Scale(LSub(x, mean), factor), mean)
  }

  function Mix(x: Word32, a: Word16, y: Word32, b: Word16): Word32 {
    hide Scale;
    LAdd(Scale(x, a), Scale(y, b))
  }

  function Middle(x: Word32, y: Word32): Word32 { LShr(LAdd(x, y), 1) }

  /** The forgetting factor of lmin before the frame is looked at. */
  function DecayMode(nggalgc: Word16, alphaMin: Word16): Word16 {
    if nggalgc == 0 then ESTL_ALPHA1
    else if nggalgc == NFDM + 1 then ESTL_ALPHA
    else alphaMin
  }

  predicate NewMinimum(lg: Word32, s: Level, ngfae: Word16, nggalgc: Word16) {
    lg < s.lmin && ngfae == LGPORDER + 1 && nggalgc > LGPORDER
  }

  /** One frame of level estimation. */
  function Estimate(lg: Word32, s: Level, ngfae: Word16, nggalgc: Word16, alphaMin: Word16): (Level, Word16) {
    hide Toward, Mix, Middle;
    var alpha := DecayMode(nggalgc, alphaMin);
    var lmax := if lg > s.lmax then lg else Toward(s.lmax, s.lmean, ESTL_ALPHA);
    var minimum := NewMinimum(lg, s, ngfae, nggalgc);
    var lmin := if minimum then lg else Toward(s.lmin, s.lmean, alpha);
    var lmean := Mix(Middle(lmax, lmin), ESTL_BETA1, s.lmean, ESTL_BETA);
    var lth := Threshold(lmax, lmean);
    var x1 := if lg > lth then Mix(s.x1, ESTL_A, lg, ESTL_A1) else s.x1;
    var level := if lg > lth then Mix(s.level, ESTL_A, x1, ESTL_A1) else s.level;
    (Level(lmax, lmin, lmean, x1, level), if minimum then ESTL_ALPHA else alpha)
  }

  function Threshold(lmax: Word32, lmean: Word32): Word32 {
    hide Scale;
    LAdd(lmean, Scale(LSub(lmax, lmean), ESTL_TH))
  }

  /** The estimator as a piece of mutable codec state. */
  class Estimator {
    var lmax: Word32
    var lmin: Word32
    var lmean: Word32
    var x1: Word32
    var level: Word32

    constructor ()
      ensures State() == Level(MIN_32, MAX_32, 419430400, 570425344, 570425344)
    {
      lmax, lmin, lmean, x1, level := MIN_32, MAX_32, 419430400, 570425344, 570425344;
    }

    function State(): Level
      reads this
    {
      Level(lmax, lmin, lmean, x1, level)
    }

    method EstLevel(lg: Word32, ngfae: Word16, nggalgc: Word16, alphaMin: Word16) returns (alpha: Word16)
      modifies this
      ensures (State(), alpha) == Estimate(lg, old(State()), ngfae, nggalgc, alphaMin)
    {
      hide Toward, Mix, Middle, Threshold;
      alpha := alphaMin;
      if nggalgc == 0 {
        alpha := ESTL_ALPHA1;
      } else if nggalgc == NFDM + 1 {
        alpha := ESTL_ALPHA;
      }
      if lg > lmax {
        lmax := lg;
      } else {
        lmax := Toward(lmax, lmean, ESTL_ALPHA);
      }
      if lg < lmin && ngfae == LGPORDER + 1 && nggalgc > LGPORDER {
        lmin := lg;
        alpha := ESTL_ALPHA;
      } else {
        lmin := Toward(lmin, lmean, alpha);
      }
      lmean := Mix(Middle(lmax, lmin), ESTL_BETA1, lmean, ESTL_BETA);
      var lth := Threshold(lmax, lmean);
      if lg > lth {
        x1 := Mix(x1, ESTL_A, lg, ESTL_A1);
        level := Mix(level, ESTL_A, x1, ESTL_A1);
      }
    }
  }
}

/** The predictive log-gain quantiser, its decoder, and their agreement: gainquan.c, gaindec.c. */
module GainCodec {
  import opened Arithmetic
  import opened BasicOps
  import opened DoublePrecision
  import opened MathUtil
  import opened GainTables
  import opened LevelEstimation

  const FRSZ := 40

  /** The predictor memory: lgpm[0..8) and the last two quantised log-gains. */
  type Taps = s: seq<Word16> | |s| == LGPORDER witness [0, 0, 0, 0, 0, 0, 0, 0]
  type Index = c: nat | c < LGPECBSZ
  datatype Memory = Memory(lgpm: Taps, prev: Word32, prev2: Word32)

  // ---- pieces both sides compute ----

  /** The log-gain of a frame energy, Q25. */
  function LogGain(ee: Word32): Word32 {
    if ee < 2 * FRSZ then 0
    else
      hide Mpy3216, LExtract, Log2, LShl;
      var (e, f) := Log2(Mpy3216(LExtract(ee), 6554));
      LAdd(LShl(DepositH(Sub(e, 4)), 9), LShr(DepositH(f), 6))
  }

  /** The first k taps of the log-gain prediction, Q26. */
  function Predicted(lgpm: Taps, k: nat): Word32
    requires k <= LGPORDER
  {
    if k == 0 then LShr(DepositH(LGMEAN), 1)
    else LMac0(Predicted(lgpm, k - 1), Lgp()[k - 1], lgpm[k - 1])
  }

  function Estimated(m: Memory): Word32
  {
    LShr(Predicted(m.lgpm, LGPORDER), 1)
  }

  /** The log-gain that codebook entry c stands for on top of the estimate. */
  function Quantised(c: Index, elg: Word32): Word32
  {
    LAdd(LShr(DepositH(Lgpecb()[c]), 2), elg)
  }

  function Clamp(x: int, top: nat): (r: nat)
    requires top > 0
    ensures r < top && (0 <= x < top ==> r == x)
  {
    if x >= top then top - 1 else if x < 0 then 0 else x
  }

  /** The largest change, Q9, allowed by the level relative to the input and by the last change. */
  function ChangeLimit(m: Memory, level: Word32): Word16 {
    var i := Clamp(Shr(Sub(Shr(ExtractH(LSub(m.prev, level)), 9), LGLB), 1), NGB);
    var n := Clamp(Shr(Sub(Shr(ExtractH(LSub(m.prev, m.prev2)), 9), LGCLB), 1), NGCB);
    LimitRows(i);
    Lgclimit()[i][n]
  }

  function Linear(lgq: Word32): Word32 {
    ExtractComposes(LShr(lgq, 10));
    var x := LExtract(LShr(lgq, 10));
    Pow2(Add(x.hi, 18), x.lo)
  }

  function Shift(m: Memory, tap: Word16, lgq: Word32): (r: Memory)
  {
    Memory([tap] + m.lgpm[..LGPORDER - 1], lgq, m.prev)
  }

  // ---- the encoder ----

  /** Distance of search position i from the prediction error. */
  function Distance(lgpe: Word16, i: nat): Word16
    requires i < LGPECBSZ
  {
    AbsS(Sub(lgpe, Lgpecb()[Idxord()[i]]))
  }

  /** The first of the leading n search positions with the smallest distance. */
  function Nearest(lgpe: Word16, n: nat): (best: (Word16, nat))
    requires n <= LGPECBSZ
    ensures best.1 < LGPECBSZ && best.0 <= MAX_16
    ensures n > 0 ==> best.1 < n && best.0 == Distance(lgpe, best.1)
    ensures forall i :: 0 <= i < n ==> best.0 <= Distance(lgpe, i)
    ensures forall i :: 0 <= i < best.1 ==> best.0 < Distance(lgpe, i)
  {
    if n == 0 then (MAX_16, 0)
    else
      hide Distance;
      var best := Nearest(lgpe, n - 1);
      var d := Distance(lgpe, n - 1);
      if d < best.0 then (d, n - 1) else best
  }

  /** Walk down the search order while the quantised log-gain exceeds the limit. */
  function Descend(i: nat, elg: Word32, limit: Word32): (r: nat)
    requires i < LGPECBSZ
    ensures r <= i
    ensures r == 0 || Quantised(Idxord()[r], elg) <= limit
    ensures forall l :: r < l <= i ==> Quantised(Idxord()[l], elg) > limit
  {
    hide Quantised, Idxord;
    if Quantised(Idxord()[i], elg) > limit && i > 0 then Descend(i - 1, elg, limit) else i
  }

  function PredictionError(lg: Word32, elg: Word32): Word16 {
    IntRound(LShl(LSub(lg, elg), 2))
  }

  function LimitLevel(m: Memory, level: Word32): Word32 {
    LAdd(m.prev, DepositH(ChangeLimit(m, level)))
  }

  /** The codebook index the encoder settles on. */
  function Choose(m: Memory, level: Word32, ee: Word32): (c: Index)
  {
    hide Nearest, Quantised;
    var elg := Estimated(m);
    Idxord()[Descend(Nearest(PredictionError(LogGain(ee), elg), LGPECBSZ).1, elg, LimitLevel(m, level))]
  }

  /** The memory after codebook entry c has been accepted. */
  function Accept(m: Memory, c: Index): (r: Memory)
  {
    Shift(m, Lgpecb()[c], Quantised(c, Estimated(m)))
  }

  // ---- the decoder ----

  datatype Decoded = Decoded(memory: Memory, nggalgc: Word16, lgEl: Word32, gain: Word32)

  /** The decoder declares a bit error: the decoded gain jumps beyond the limit. */
  predicate BitError(m: Memory, level: Word32, gidx: Index)
  {
    ExtractH(LSub(Quantised(gidx, Estimated(m)), m.prev)) > ChangeLimit(m, level) && gidx > 0
  }

  function Count(nggalgc: Word16): Word16 {
    if Add(nggalgc, 1) > NFDM then NFDM + 1 else Add(nggalgc, 1)
  }

  /** The tap that goes with a repeated log-gain. */
  function ReplacementTap(m: Memory): Word16 {
    ExtractH(LShl(LSub(m.prev, Estimated(m)), 2))
  }

  function Decode(m: Memory, level: Word32, nggalgc: Word16, gidx: Index): Decoded
  {
    hide Linear, Quantised, ChangeLimit;
    if BitError(m, level, gidx) then
      Decoded(Shift(m, ReplacementTap(m), m.prev), 0, LimitLevel(m, level), Linear(m.prev))
    else
      var r := Accept(m, gidx);
      Decoded(r, Count(nggalgc), r.prev, Linear(r.prev))
  }

  // ---- range of the memory ----

  const LOWEST := -505078948

  /** What every honest run keeps: taps from the codebook's range, log-gains not too low. */
  ghost predicate InRange(m: Memory) {
    && (forall i :: 0 <= i < LGPORDER ==> -11028 <= m.lgpm[i] <= 24272)
    && LOWEST <= m.prev && LOWEST <= m.prev2
  }

  function TapSum(k: nat): nat
    requires k <= LGPORDER
  {
    if k == 0 then 0 else TapSum(k - 1) + Lgp()[k - 1]
  }

  lemma PredictedStep(lgpm: Taps, k: nat)
    requires 0 < k <= LGPORDER
    ensures Predicted(lgpm, k) == LMac0(Predicted(lgpm, k - 1), Lgp()[k - 1], lgpm[k - 1])
    ensures TapSum(k) == TapSum(k - 1) + Lgp()[k - 1]
  {
    hide Lgp, LMac0;
  }

  lemma PredictedStart(lgpm: Taps)
    ensures Predicted(lgpm, 0) == 768901120
  {
    assert TwoTo(1) == 2 * TwoTo(0) == 2;
  }

  lemma {:induction false} PredictedAbove(lgpm: Taps, k: nat)
    requires k <= LGPORDER
    requires forall i :: 0 <= i < LGPORDER ==> -11028 <= lgpm[i]
    ensures Predicted(lgpm, k) >= 768901120 - 11028 * TapSum(k)
  {
    hide Lgp, Predicted, LMac0;
    if k == 0 {
      PredictedStart(lgpm);
    } else {
      PredictedAbove(lgpm, k - 1);
      LgpPositive(k - 1);
      TapSumBound(k);
      PredictedStep(lgpm, k);
      AddTap(Predicted(lgpm, k - 1), Lgp()[k - 1], lgpm[k - 1], 768901120 - 11028 * TapSum(k - 1));
    }
  }

  lemma LgpPositive(k: nat)
    requires k < LGPORDER
    ensures 0 <= Lgp()[k]
  {}

  lemma AddTap(acc: Word32, p: Word16, x: Word16, low: int)
    requires 0 <= p && -11028 <= x && low <= acc && low - 11028 * p >= MIN_32
    ensures LMac0(acc, p, x) >= low - 11028 * p
  {
    ProductRange(p, x);
    var q: int, y: int := p, x;
    assert q * y >= q * -11028 by { MulNat(q, y + 11028, q, y + 11028); }
  }

  lemma TapSumBound(k: nat)
    requires k <= LGPORDER
    ensures TapSum(k) <= 128554
  {
    assert TapSum(2) == 49739;
    assert TapSum(4) == 89313;
    assert TapSum(6) == 116543;
    assert TapSum(8) == 128554;
    TapSumGrows(k, LGPORDER);
  }

  lemma {:induction false} TapSumGrows(k: nat, n: nat)
    requires k <= n <= LGPORDER
    ensures TapSum(k) <= TapSum(n)
  {
    if k < n { TapSumGrows(k, n - 1); }
  }

  /** No codebook entry brings the log-gain below the range. */
  lemma QuantisedAbove(m: Memory, c: Index)
    requires InRange(m)
    ensures Quantised(c, Estimated(m)) >= LOWEST
  {
    PredictedAbove(m.lgpm, LGPORDER);
    TapSumBound(LGPORDER);
    assert TwoTo(1) == 2 * TwoTo(0) == 2 && TwoTo(2) == 4;
    CodebookRange(c);
    assert Estimated(m) >= -324396196;
  }

  lemma AcceptKeepsRange(m: Memory, c: Index)
    requires InRange(m)
    ensures InRange(Accept(m, c))
  {
    QuantisedAbove(m, c);
    CodebookRange(c);
  }

  // ---- agreement ----

  lemma ChangeLimitAbove(m: Memory, level: Word32)
    ensures ChangeLimit(m, level) >= -2555
  {
    hide Lgclimit;
    var i := Clamp(Shr(Sub(Shr(ExtractH(LSub(m.prev, level)), 9), LGLB), 1), NGB);
    LimitRows(i);
  }

  /** A log-gain the encoder's limit admits passes the decoder's coarser test. */
  lemma NotAboveLimit(m: Memory, level: Word32, lgq: Word32)
    requires InRange(m) && lgq <= LimitLevel(m, level)
    ensures ExtractH(LSub(lgq, m.prev)) <= ChangeLimit(m, level)
  {
    hide ChangeLimit;
    ChangeLimitAbove(m, level);
  }

  /** Inside the range the encoder's choice never looks like a bit error to the decoder. */
  lemma HonestChoice(m: Memory, level: Word32, ee: Word32)
    requires InRange(m)
    ensures !BitError(m, level, Choose(m, level, ee))
  {
    hide Quantised, Estimated, ChangeLimit, LimitLevel, PredictionError, LogGain, Idxord, Nearest, Descend;
    var elg, limit := Estimated(m), LimitLevel(m, level);
    var i := Descend(Nearest(PredictionError(LogGain(ee), elg), LGPECBSZ).1, elg, limit);
    SearchOrder(0, 1);
    if i > 0 {
      NotAboveLimit(m, level, Quantised(Idxord()[i], elg));
    }
  }

  /** What the limiter selects: the largest admitted value among those not above the nearest one. */
  lemma LimiterIsMaximal(m: Memory, level: Word32, ee: Word32, c: Index)
    requires Quantised(c, Estimated(m)) <= LimitLevel(m, level)
    requires Lgpecb()[c] <= Lgpecb()[Idxord()[Nearest(PredictionError(LogGain(ee), Estimated(m)), LGPECBSZ).1]]
    ensures Lgpecb()[c] <= Lgpecb()[Choose(m, level, ee)]
  {
    hide Quantised, Estimated, ChangeLimit, LimitLevel, PredictionError, LogGain, Nearest;
    var elg, limit := Estimated(m), LimitLevel(m, level);
    var near := Nearest(PredictionError(LogGain(ee), elg), LGPECBSZ).1;
    var i := Descend(near, elg, limit);
    var p := PositionOf(c);
    if p > near {
      SearchOrder(near, p);
    } else if p < i {
      SearchOrder(p, i);
    }
  }

  /** Every codebook entry has a place in the search order. */
  lemma PositionOf(c: Index) returns (p: nat)
    ensures p < LGPECBSZ && Idxord()[p] == c
  {
    var inverse := [0, 1, 2, 3, 4, 6, 8, 10, 5, 7, 9, 11, 12, 13, 14, 15];
    p := inverse[c];
  }

  // ---- whole runs ----

  datatype EncoderState = EncoderState(memory: Memory, level: Level)
  datatype DecoderState = DecoderState(
    memory: Memory, level: Level, cfecount: Word16, ngfae: Word16, nggalgc: Word16, alphaMin: Word16)

  const START := Memory([0, 0, 0, 0, 0, 0, 0, 0], 0, 0)
  const START_LEVEL := Level(MIN_32, MAX_32, 419430400, 570425344, 570425344)
  const ENCODER_RESET := EncoderState(START, START_LEVEL)
  const DECODER_RESET := DecoderState(START, START_LEVEL, 0, LGPORDER + 1, NFDM + 1, ESTL_ALPHA)

  /** The gain part of BV16_Encode: quantise, then run the level estimator in its error-free setting. */
  function EncodeFrame(e: EncoderState, ee: Word32): (r: (EncoderState, Index, Word32))
  {
    hide Choose, Accept, Linear, Estimate;
    var c := Choose(e.memory, e.level.level, ee);
    var m := Accept(e.memory, c);
    var (level, _) := Estimate(m.prev, e.level, LGPORDER + 1, NFDM + 1, ESTL_ALPHA);
    (EncoderState(m, level), c, Linear(m.prev))
  }

  function FramesSinceErasure(cfecount: Word16, ngfae: Word16): Word16 {
    if cfecount != 0 then 1
    else if ngfae + 1 > LGPORDER then LGPORDER + 1
    else ngfae + 1
  }

  /** The gain part of BV16_Decode for a received frame. */
  function DecodeFrame(d: DecoderState, gidx: Index): (r: (DecoderState, Word32))
  {
    hide Accept, Linear, Estimate, BitError;
    var ngfae := FramesSinceErasure(d.cfecount, d.ngfae);
    var g := Decode(d.memory, d.level.level, d.nggalgc, gidx);
    var (level, alpha) := Estimate(g.lgEl, d.level, ngfae, g.nggalgc, d.alphaMin);
    (DecoderState(g.memory, level, 0, ngfae, g.nggalgc, alpha), g.gain)
  }

  /** Encoder and decoder agree, the decoder's error counters are at rest, the memory is in range. */
  ghost predicate InStep(e: EncoderState, d: DecoderState) {
    && e.memory == d.memory && e.level == d.level
    && d.cfecount == 0 && d.ngfae == LGPORDER + 1 && d.nggalgc == NFDM + 1 && d.alphaMin == ESTL_ALPHA
    && InRange(e.memory)
  }

  /** One error-free frame keeps both sides in step and gives both the same gain. */
  lemma FrameInStep(e: EncoderState, d: DecoderState, ee: Word32)
    requires InStep(e, d)
    ensures var (e', gidx, gain) := EncodeFrame(e, ee);
      var (d', gain') := DecodeFrame(d, gidx);
      InStep(e', d') && gain == gain' && !BitError(d.memory, d.level.level, gidx)
  {
    hide Choose, Accept, Linear, Estimate, BitError;
    HonestChoice(e.memory, e.level.level, ee);
    var c := Choose(e.memory, e.level.level, ee);
    AcceptKeepsRange(e.memory, c);
    EstimateAlpha(Accept(e.memory, c).prev, e.level);
  }

  lemma EstimateAlpha(lg: Word32, s: Level)
    ensures Estimate(lg, s, LGPORDER + 1, NFDM + 1, ESTL_ALPHA).1 == ESTL_ALPHA
  {
    hide Toward, Mix, Middle, Threshold;
  }

  datatype Frame = Frame(gidx: Index, gain: Word32)

  function EncodeRun(e: EncoderState, energies: seq<Word32>): (r: (EncoderState, seq<Frame>))
    ensures |r.1| == |energies|
    decreases |energies|
  {
    if energies == [] then (e, [])
    else
      hide EncodeFrame;
      var r := EncodeFrame(e, energies[0]);
      var rest := EncodeRun(r.0, energies[1..]);
      (rest.0, [Frame(r.1, r.2)] + rest.1)
  }

  /** Decoding records the state before each frame, so that claims can be made about every frame. */
  function DecodeRun(d: DecoderState, indices: seq<Index>): (r: (seq<DecoderState>, seq<Word32>))
    ensures |r.0| == |indices| + 1 && |r.1| == |indices|
    decreases |indices|
  {
    if indices == [] then ([d], [])
    else
      hide DecodeFrame;
      var r := DecodeFrame(d, indices[0]);
      var rest := DecodeRun(r.0, indices[1..]);
      ([d] + rest.0, [r.1] + rest.1)
  }

  function Indices(frames: seq<Frame>): (r: seq<Index>)
    ensures |r| == |frames| && forall i :: 0 <= i < |r| ==> r[i] == frames[i].gidx
  {
    seq(|frames|, i requires 0 <= i < |frames| => frames[i].gidx)
  }

  /**
   Main result: over any run from two states in step, the last states are in step, every frame gets
   the same linear gain on both sides, and no frame is ever taken for a bit error.
   */
  lemma {:induction false} RunInStep(e: EncoderState, d: DecoderState, energies: seq<Word32>)
    requires InStep(e, d)
    ensures var (last, frames) := EncodeRun(e, energies);
      var (states, gains) := DecodeRun(d, Indices(frames));
      && InStep(last, states[|energies|])
      && (forall i :: 0 <= i < |energies| ==> gains[i] == frames[i].gain)
      && (forall i :: 0 <= i < |energies| ==>
            !BitError(states[i].memory, states[i].level.level, frames[i].gidx))
    decreases |energies|
  {
    hide EncodeFrame, DecodeFrame, BitError;
    if energies != [] {
      var (e', gidx, gain) := EncodeFrame(e, energies[0]);
      var (d', _) := DecodeFrame(d, gidx);
      FrameInStep(e, d, energies[0]);
      RunInStep(e', d', energies[1..]);
      var frames, rest := EncodeRun(e, energies).1, EncodeRun(e', energies[1..]).1;
      assert frames == [Frame(gidx, gain)] + rest;
      assert Indices(frames)[1..] == Indices(rest);
    }
  }

  /** From reset, in particular. */
  lemma ResetInStep(energies: seq<Word32>)
    ensures InStep(ENCODER_RESET, DECODER_RESET)
    ensures var (last, frames) := EncodeRun(ENCODER_RESET, energies);
      var (states, gains) := DecodeRun(DECODER_RESET, Indices(frames));
      && InStep(last, states[|energies|])
      && (forall i :: 0 <= i < |energies| ==> gains[i] == frames[i].gain)
      && (forall i :: 0 <= i < |energies| ==>
            !BitError(states[i].memory, states[i].level.level, frames[i].gidx))
  {
    hide BitError, EncodeRun, DecodeRun;
    RunInStep(ENCODER_RESET, DECODER_RESET, energies);
  }

  // ---- the loops of the source ----

  /** The memory held in the two state arrays. */
  function MemoryOf(lgpm: array<Word16>, prevlg: array<Word32>): Memory
    requires lgpm.Length == LGPORDER && prevlg.Length == 2
    reads lgpm, prevlg
  {
    Memory(lgpm[..], prevlg[0], prevlg[1])
  }

  method EstimateLoop(lgpm: array<Word16>, prevlg: array<Word32>) returns (elg: Word32)
    requires lgpm.Length == LGPORDER && prevlg.Length == 2
    ensures elg == Estimated(MemoryOf(lgpm, prevlg))
  {
    hide Lgp, LMac0, LShr;
    elg := LShr(DepositH(LGMEAN), 1);
    for i := 0 to LGPORDER
      invariant elg == Predicted(lgpm[..], i)
    {
      elg := LMac0(elg, Lgp()[i], lgpm[i]);
    }
    elg := LShr(elg, 1);
  }

  method SearchLoop(lgpe: Word16) returns (gidx: Index)
    ensures gidx == Nearest(lgpe, LGPECBSZ).1
  {
    hide Distance;
    var dmin: Word16 := MAX_16;
    gidx := 0;
    for i := 0 to LGPECBSZ
      invariant (dmin, gidx) == Nearest(lgpe, i)
    {
      var d := Distance(lgpe, i);
      if d < dmin {
        dmin := d;
        gidx := i;
      }
    }
  }

  /** Shift a new tap and a new log-gain into the two arrays. */
  method ShiftIn(lgpm: array<Word16>, prevlg: array<Word32>, tap: Word16, lgq: Word32)
    requires lgpm.Length == LGPORDER && prevlg.Length == 2
    modifies lgpm, prevlg
    ensures MemoryOf(lgpm, prevlg) == Shift(old(MemoryOf(lgpm, prevlg)), tap, lgq)
  {
    prevlg[1] := prevlg[0];
    prevlg[0] := lgq;
    var i := LGPORDER - 1;
    while i > 0
      modifies lgpm
      invariant 0 <= i < LGPORDER
      invariant forall k :: 0 <= k <= i ==> lgpm[k] == old(lgpm[k])
      invariant forall k :: i < k < LGPORDER ==> lgpm[k] == old(lgpm[k - 1])
    {
      lgpm[i] := lgpm[i - 1];
      i := i - 1;
    }
    lgpm[0] := tap;
    assert lgpm[..] == [tap] + old(lgpm[..])[..LGPORDER - 1];
  }

  /** gainquan: quantise the energy ee, limit the change, update the memory. */
  method GainQuan(lgpm: array<Word16>, prevlg: array<Word32>, level: Word32, ee: Word32)
    returns (gidx: Index, gainq: Word32)
    requires lgpm.Length == LGPORDER && prevlg.Length == 2
    modifies lgpm, prevlg
    ensures gidx == Choose(old(MemoryOf(lgpm, prevlg)), level, ee)
    ensures MemoryOf(lgpm, prevlg) == Accept(old(MemoryOf(lgpm, prevlg)), gidx)
    ensures gainq == Linear(MemoryOf(lgpm, prevlg).prev)
  {
    hide LogGain, Estimated, PredictionError, Nearest, Quantised, ChangeLimit, LimitLevel, Linear, Idxord, Lgpecb;
    var elg := EstimateLoop(lgpm, prevlg);
    var near := SearchLoop(PredictionError(LogGain(ee), elg));
    var lgq := Quantised(Idxord()[near], elg);
    var limit := LimitLevel(MemoryOf(lgpm, prevlg), level);
    gidx := near;
    while lgq > limit && gidx > 0
      invariant gidx <= near && lgq == Quantised(Idxord()[gidx], elg)
      invariant Descend(near, elg, limit) == Descend(gidx, elg, limit)
      decreases gidx
    {
      gidx := gidx - 1;
      lgq := Quantised(Idxord()[gidx], elg);
    }
    gidx := Idxord()[gidx];
    ShiftIn(lgpm, prevlg, Lgpecb()[gidx], lgq);
    gainq := Linear(prevlg[0]);
  }

  /** gaindec: decode an index, replacing the gain when it looks like a bit error. */
  method GainDec(lgpm: array<Word16>, prevlg: array<Word32>, level: Word32, gidx: Index, nggalgc: Word16)
    returns (lgq: Word32, count: Word16, lgEl: Word32, gain: Word32)
    requires lgpm.Length == LGPORDER && prevlg.Length == 2
    modifies lgpm, prevlg
    ensures Decoded(MemoryOf(lgpm, prevlg), count, lgEl, gain)
         == Decode(old(MemoryOf(lgpm, prevlg)), level, nggalgc, gidx)
    ensures lgq == prevlg[0]
  {
    hide Estimated, Quantised, ChangeLimit, LimitLevel, Linear, Lgpecb;
    var elg := EstimateLoop(lgpm, prevlg);
    lgq := Quantised(gidx, elg);
    var limit := ChangeLimit(MemoryOf(lgpm, prevlg), level);
    lgEl := LimitLevel(MemoryOf(lgpm, prevlg), level);
    if ExtractH(LSub(lgq, prevlg[0])) > limit && gidx > 0 {
      lgq := prevlg[0];
      ShiftIn(lgpm, prevlg, ExtractH(LShl(LSub(lgq, elg), 2)), lgq);
      count := 0;
    } else {
      ShiftIn(lgpm, prevlg, Lgpecb()[gidx], lgq);
      count := Add(nggalgc, 1);
      if count > NFDM { count := NFDM + 1; }
      lgEl := lgq;
    }
    gain := Linear(lgq);
  }

  /** The encoder fields that take part in gain coding. */
  class Encoder {
    const lgpm: array<Word16>
    const prevlg: array<Word32>
    const estimator: Estimator

    constructor ()
      ensures Valid() && fresh(lgpm) && fresh(prevlg) && fresh(estimator)
      ensures State() == ENCODER_RESET
    {
      lgpm := new Word16[LGPORDER](_ => 0);
      prevlg := new Word32[2](_ => 0);
      estimator := new Estimator();
      new;
      assert lgpm[..] == [0, 0, 0, 0, 0, 0, 0, 0];
    }

    ghost predicate Valid()
      reads this
    {
      lgpm.Length == LGPORDER && prevlg.Length == 2
    }

    function State(): EncoderState
      requires Valid()
      reads this, lgpm, prevlg, estimator
    {
      EncoderState(MemoryOf(lgpm, prevlg), estimator.State())
    }

    /** The gain part of BV16_Encode. */
    method EncodeGain(ee: Word32) returns (gidx: Index, gainq: Word32)
      requires Valid()
      modifies lgpm, prevlg, estimator
      ensures Valid() && (State(), gidx, gainq) == EncodeFrame(old(State()), ee)
    {
      hide Choose, Accept, Linear, Estimate;
      gidx, gainq := GainQuan(lgpm, prevlg, estimator.level, ee);
      var dummy := estimator.EstLevel(prevlg[0], LGPORDER + 1, NFDM + 1, ESTL_ALPHA);
    }
  }

  /** The decoder fields that take part in gain decoding. */
  class Decoder {
    const lgpm: array<Word16>
    const prevlg: array<Word32>
    const estimator: Estimator
    var cfecount: Word16
    var ngfae: Word16
    var nggalgc: Word16
    var alphaMin: Word16

    constructor ()
      ensures Valid() && fresh(lgpm) && fresh(prevlg) && fresh(estimator)
      ensures State() == DECODER_RESET
    {
      lgpm := new Word16[LGPORDER](_ => 0);
      prevlg := new Word32[2](_ => 0);
      estimator := new Estimator();
      cfecount, ngfae, nggalgc, alphaMin := 0, LGPORDER + 1, NFDM + 1, ESTL_ALPHA;
      new;
      assert lgpm[..] == [0, 0, 0, 0, 0, 0, 0, 0];
    }

    ghost predicate Valid()
      reads this
    {
      lgpm.Length == LGPORDER && prevlg.Length == 2 && ngfae < MAX_16
    }

    function State(): DecoderState
      requires Valid()
      reads this, lgpm, prevlg, estimator
    {
      DecoderState(MemoryOf(lgpm, prevlg), estimator.State(), cfecount, ngfae, nggalgc, alphaMin)
    }

    /** The gain part of BV16_Decode. */
    method DecodeGain(gidx: Index) returns (gain: Word32)
      requires Valid()
      modifies this, lgpm, prevlg, estimator
      ensures Valid() && (State(), gain) == DecodeFrame(old(State()), gidx)
    {
      hide Accept, Linear, Estimate, BitError;
      if cfecount != 0 {
        ngfae := 1;
      } else {
        ngfae := ngfae + 1;
        if ngfae > LGPORDER { ngfae := LGPORDER + 1; }
      }
      cfecount := 0;
      var lgEl;
      var lgq;
      lgq, nggalgc, lgEl, gain := GainDec(lgpm, prevlg, estimator.level, gidx, nggalgc);
      alphaMin := estimator.EstLevel(lgEl, ngfae, nggalgc, alphaMin);
    }
  }
}
