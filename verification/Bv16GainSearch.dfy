/** What the predictive gain quantiser of BroadVoice16 searches for: bv16/gainquan.c, lines 59-116, and bv16/gaindec.c, lines 70-93. */
module GainSearch {
  import opened Arithmetic
  import opened BasicOps
  import opened GainTables
  import opened GainCodec

  function Size(x: int): nat { if x < 0 then -x else x }

  // ---- the search ----

  lemma TwoAndFourShift()
    ensures TwoTo(1) == 2 && TwoTo(2) == 4
  {}

  /** What an entry stands for, without saturation: the estimate plus the entry in Q11. */
  lemma QuantisedIs(c: Index, elg: Word32)
    requires MIN_32 + 0x2000_0000 <= elg <= MAX_32 - 0x2000_0000
    ensures Quantised(c, elg) as int == elg + 0x4000 * (Lgpecb()[c] as int)
  {
    TwoAndFourShift();
    CodebookRange(c);
    hide Lgpecb, TwoTo;
  }

  /** The prediction error is what the log-gain exceeds the estimate by, to the nearest unit of the codebook. */
  lemma ErrorIs(lg: Word32, elg: Word32)
    requires -0x1f00_0000 <= (lg as int) - elg <= 0x1f00_0000
    ensures -0x2000 <= 0x4000 * (PredictionError(lg, elg) as int) - (lg - elg) <= 0x2000
  {
    TwoAndFourShift();
    hide TwoTo;
  }

  lemma DistanceIs(lgpe: Word16, i: nat)
    requires i < LGPECBSZ && MIN_16 < lgpe - Lgpecb()[Idxord()[i]] <= MAX_16
    ensures Distance(lgpe, i) as int == Size(lgpe - Lgpecb()[Idxord()[i]])
  {
    hide Lgpecb, Idxord;
  }

  /** Among all entries the search finds the one whose log-gain comes nearest, up to one unit of the codebook. */
  lemma SearchRebuilds(lg: Word32, elg: Word32, c: Index)
    requires MIN_32 + 0x2000_0000 <= elg <= MAX_32 - 0x2000_0000
    requires -8000 * 0x4000 <= (lg as int) - elg <= 21000 * 0x4000
    ensures var r := Idxord()[Nearest(PredictionError(lg, elg), LGPECBSZ).1];
      Size(lg - Quantised(r, elg)) <= Size(lg - Quantised(c, elg)) + 0x4000
  {
    hide Lgpecb, Idxord, Quantised, Distance, Nearest, PredictionError;
    var lgpe := PredictionError(lg, elg);
    var p := Nearest(lgpe, LGPECBSZ).1;
    var q := PositionOf(c);
    var r := Idxord()[p];
    ErrorIs(lg, elg);
    QuantisedIs(r, elg);
    QuantisedIs(c, elg);
    CodebookRange(r);
    CodebookRange(c);
    DistanceIs(lgpe, p);
    DistanceIs(lgpe, q);
  }

  /** When the limiter lets the nearest entry pass, the choice of the encoder is this nearest one. */
  lemma ChoiceRebuilds(m: Memory, level: Word32, ee: Word32, c: Index)
    requires MIN_32 + 0x2000_0000 <= Estimated(m) <= MAX_32 - 0x2000_0000
    requires -8000 * 0x4000 <= (LogGain(ee) as int) - Estimated(m) <= 21000 * 0x4000
    requires Quantised(Idxord()[Nearest(PredictionError(LogGain(ee), Estimated(m)), LGPECBSZ).1], Estimated(m)) <= LimitLevel(m, level)
    ensures var lg := LogGain(ee);
      Size(lg - Quantised(Choose(m, level, ee), Estimated(m))) <= Size(lg - Quantised(c, Estimated(m))) + 0x4000
  {
    hide Lgpecb, Idxord, Quantised, Distance, Nearest, PredictionError, LogGain, Estimated, LimitLevel;
    SearchRebuilds(LogGain(ee), Estimated(m), c);
  }

  // ---- the prediction over a run ----

  function Times(p: int, x: int): int { p * x }

  /** The first k taps times the memory. */
  function TapsTimes(lgpm: Taps, k: nat): int
    requires k <= LGPORDER
  {
    if k == 0 then 0 else TapsTimes(lgpm, k - 1) + Times(Lgp()[k - 1], lgpm[k - 1])
  }

  /** No partial sum of the prediction leaves 32 bits. */
  ghost predicate Moderate(lgpm: Taps) {
    forall k :: 0 <= k <= LGPORDER ==> MIN_32 <= 768901120 + TapsTimes(lgpm, k) <= MAX_32
  }

  lemma {:induction false} PredictedIs(lgpm: Taps, k: nat)
    requires k <= LGPORDER && Moderate(lgpm)
    ensures Predicted(lgpm, k) as int == 768901120 + TapsTimes(lgpm, k)
  {
    hide Lgp, LMac0, Predicted, Times;
    if k == 0 {
      PredictedStart(lgpm);
    } else {
      PredictedIs(lgpm, k - 1);
      PredictedStep(lgpm, k);
      OneTap(Predicted(lgpm, k - 1), Lgp()[k - 1], lgpm[k - 1], TapsTimes(lgpm, k - 1), TapsTimes(lgpm, k));
    }
  }

  lemma OneTap(acc: Word32, p: Word16, x: Word16, sum: int, next: int)
    requires acc as int == 768901120 + sum && next == sum + Times(p, x) && MIN_32 <= 768901120 + next <= MAX_32
    ensures LMac0(acc, p, x) as int == 768901120 + next
  {
    ProductRange(p, x);
  }

  /** The memory after a run of accepted entries. */
  function AcceptAll(m: Memory, cs: seq<Index>): Memory {
    if |cs| == 0 then m
    else
      hide Accept;
      Accept(AcceptAll(m, cs[..|cs| - 1]), cs[|cs| - 1])
  }

  /** Tap k of the memory is the entry accepted k + 1 frames ago. */
  lemma {:induction false} MemoryIsPast(m: Memory, cs: seq<Index>, k: nat)
    requires k < LGPORDER
    ensures AcceptAll(m, cs).lgpm[k] == if k < |cs| then Lgpecb()[cs[|cs| - 1 - k]] else m.lgpm[k - |cs|]
    ensures |cs| > 0 ==> AcceptAll(m, cs).prev2 == AcceptAll(m, cs[..|cs| - 1]).prev
    decreases |cs|
  {
    hide Lgpecb, Quantised, Estimated;
    if |cs| > 0 && k > 0 { MemoryIsPast(m, cs[..|cs| - 1], k - 1); }
  }

  lemma {:induction false} AcceptFirst(m: Memory, c: Index, cs: seq<Index>)
    ensures AcceptAll(m, [c] + cs) == AcceptAll(Accept(m, c), cs)
    decreases |cs|
  {
    hide Accept;
    var all := [c] + cs;
    if |cs| == 0 {
      assert all[..0] == [];
      assert AcceptAll(m, []) == m;
    } else {
      var n := |cs| - 1;
      AcceptFirst(m, c, cs[..n]);
      assert all[..|all| - 1] == [c] + cs[..n];
    }
  }

  /** The encoder's memory after a run is that of the entries it has sent. */
  lemma {:induction false} RunAccepts(e: EncoderState, energies: seq<Word32>)
    ensures var (last, frames) := EncodeRun(e, energies); last.memory == AcceptAll(e.memory, Indices(frames))
    decreases |energies|
  {
    hide EncodeFrame, AcceptAll;
    if energies != [] {
      var (e', c, gain) := EncodeFrame(e, energies[0]);
      var rest := EncodeRun(e', energies[1..]).1;
      RunAccepts(e', energies[1..]);
      OneFrame(e, energies[0]);
      AcceptFirst(e.memory, c, Indices(rest));
      assert Indices([Frame(c, gain)] + rest) == [c] + Indices(rest);
    } else {
      Nothing(e.memory);
      assert Indices([]) == [];
    }
  }

  lemma Nothing(m: Memory)
    ensures AcceptAll(m, []) == m
  {}

  lemma OneFrame(e: EncoderState, ee: Word32)
    ensures EncodeFrame(e, ee).0.memory == Accept(e.memory, EncodeFrame(e, ee).1)
  {
    hide Choose, Accept, Linear;
  }

  /**
   Main result over runs: from reset the estimate of a frame is the mean log-gain plus the weighted sum of
   the entries sent for the eight frames before it, halved.
   */
  lemma RunIsMovingAverage(energies: seq<Word32>, k: nat)
    requires k < LGPORDER && Moderate(EncodeRun(ENCODER_RESET, energies).0.memory.lgpm)
    ensures var (last, frames) := EncodeRun(ENCODER_RESET, energies);
      && last.memory.lgpm[k] == (if k < |frames| then Lgpecb()[frames[|frames| - 1 - k].gidx] else 0)
      && Estimated(last.memory) as int == (768901120 + TapsTimes(last.memory.lgpm, LGPORDER)) / 2
  {
    hide Lgpecb, EncodeRun, AcceptAll, Predicted, TapsTimes;
    TwoAndFourShift();
    var (last, frames) := EncodeRun(ENCODER_RESET, energies);
    RunAccepts(ENCODER_RESET, energies);
    MemoryIsPast(START, Indices(frames), k);
    PredictedIs(last.memory.lgpm, LGPORDER);
    hide TwoTo;
  }

  // ---- the limit ----

  /** A position in a range of two-unit cells above a lower bound, cut at both ends. */
  ghost predicate InCell(d: int, bound: int, cells: nat, i: nat) {
    && i < cells
    && (i == 0 || (bound + 2 * i) * 0x200_0000 <= d)
    && (i == cells - 1 || d < (bound + 2 * i + 2) * 0x200_0000)
  }

  lemma CellOf(a: Word32, b: Word32, bound: Word16, cells: nat, i: nat)
    requires MIN_32 <= (a as int) - b <= MAX_32 && -100 <= bound <= 100 && 0 < cells <= 100 && InCell((a as int) - b, bound, cells, i)
    ensures Clamp(Shr(Sub(Shr(ExtractH(LSub(a, b)), 9), bound), 1), cells) == i
  {
    TwoAndFourShift();
    assert TwoTo(9) == 512 by { assert TwoTo(4) == 16; assert TwoTo(8) == 16 * TwoTo(4); }
    var d: int := (a as int) - b;
    hide TwoTo;
    assert Shr(ExtractH(LSub(a, b)), 9) as int == d / 0x1_0000 / 512;
    UnitsOf(d);
  }

  lemma UnitsOf(d: int)
    ensures d / 0x1_0000 / 512 == d / 0x200_0000
  {}

  /** The limit is the table entry of the cell of the level above the input level, and of the last change. */
  lemma LimitOfCell(m: Memory, level: Word32, i: nat, n: nat)
    requires MIN_32 <= (m.prev as int) - level <= MAX_32 && MIN_32 <= (m.prev as int) - m.prev2 <= MAX_32
    requires InCell((m.prev as int) - level, LGLB, NGB, i) && InCell((m.prev as int) - m.prev2, LGCLB, NGCB, n)
    ensures |Lgclimit()[i]| == NGCB && ChangeLimit(m, level) == Lgclimit()[i][n]
  {
    LimitRows(i);
    hide Lgclimit, Clamp, Shr, Sub, LSub, ExtractH, InCell;
    CellOf(m.prev, level, LGLB, NGB, i);
    CellOf(m.prev, m.prev2, LGCLB, NGCB, n);
  }

  /** The largest log-gain the encoder admits: the last one and the limit, which is in Q9. */
  lemma LimitLevelIs(m: Memory, level: Word32)
    requires MIN_32 <= (m.prev as int) + 0x1_0000 * (ChangeLimit(m, level) as int) <= MAX_32
    ensures LimitLevel(m, level) as int == (m.prev as int) + 0x1_0000 * (ChangeLimit(m, level) as int)
  {
    hide ChangeLimit;
  }

  // ---- the replacement of a bit error ----

  /** The tap that replaces a bit error is the one that explains the repeated log-gain, floored. */
  lemma ReplacementExplains(m: Memory)
    requires -0x1f00_0000 <= (m.prev as int) - Estimated(m) <= 0x1f00_0000
    ensures 0 <= (m.prev as int) - (Estimated(m) as int + 0x4000 * (ReplacementTap(m) as int)) < 0x4000
  {
    TwoAndFourShift();
    hide TwoTo, Estimated;
  }

  lemma ReplacementIsUsed(m: Memory, level: Word32, nggalgc: Word16, gidx: Index)
    requires BitError(m, level, gidx)
    ensures var r := Decode(m, level, nggalgc, gidx); r.memory == Shift(m, ReplacementTap(m), m.prev) && r.nggalgc == 0
  {
    hide Estimated, BitError, Linear, ReplacementTap;
  }
}
