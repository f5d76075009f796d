/** What the LSF of a run are in terms of its codewords: LSPQuantization.c, lines 424-438. */
module LspPrediction {
  import opened Arithmetic
  import opened LspLockstep

  // ---- the memory of a run ----

  /** The codeword of the frame j + 1 before the next one; before the run, the initial vector. */
  function Past(books: Books, frames: seq<Frame>, j: nat): Vector
    requires forall k :: 0 <= k < |frames| ==> Sound(books, frames[k])
  {
    if j < |frames| then Codeword(books, frames[|frames| - 1 - j]) else INIT
  }

  /** The memory holds the last four codewords, the newest first. */
  lemma {:induction false} MemoryIsPast(books: Books, frames: seq<Frame>, j: nat)
    requires forall k :: 0 <= k < |frames| ==> Sound(books, frames[k])
    requires j < MA_MAX_K
    ensures MemoryAfter(books, frames)[j] == Past(books, frames, j)
    decreases |frames|
  {
    hide Codeword, Sound;
    if |frames| > 0 && j > 0 {
      MemoryIsPast(books, frames[..|frames| - 1], j - 1);
    }
  }

  /** The value is the weighted sum, in Q15, to the nearest word. */
  lemma Nearest(acc: int)
    requires -0x4000_0000 <= acc < 0x3fff_c000
    ensures -0x4000 <= acc - 0x8000 * RoundQ15(acc) < 0x4000
  {}

  /**
   Main result over runs: each LSF, before sorting and limits, is the weighted sum of the codewords of its
   own frame and of the four frames before it, to the nearest word.
   */
  lemma RunIsMovingAverage(books: Books, frames: seq<Frame>, p: Frame, i: Coordinate)
    requires forall k :: 0 <= k < |frames| ==> Sound(books, frames[k])
    requires Sound(books, p)
    ensures var sum := PredictorSum(p.L0, i) * Codeword(books, p)[i]
        + Predictor(p.L0, 0, i) * Past(books, frames, 0)[i] + Predictor(p.L0, 1, i) * Past(books, frames, 1)[i]
        + Predictor(p.L0, 2, i) * Past(books, frames, 2)[i] + Predictor(p.L0, 3, i) * Past(books, frames, 3)[i];
      Lsf(p.L0, MemoryAfter(books, frames), Codeword(books, p), i) == RoundQ15(sum)
  {
    hide Codeword, Past, MemoryAfter, Predictor, PredictorSum, RoundQ15;
    MemoryIsPast(books, frames, 0);
    MemoryIsPast(books, frames, 1);
    MemoryIsPast(books, frames, 2);
    MemoryIsPast(books, frames, 3);
    Unrolled(p.L0, MemoryAfter(books, frames), Codeword(books, p), i);
    hide Rising, Falling;
  }

  // ---- the steady state ----

  lemma WeightsSumToOne(L0: nat, i: Coordinate)
    requires L0 < 2
    ensures 32765 <= PredictorSum(L0, i) + Predictor(L0, 0, i) + Predictor(L0, 1, i) + Predictor(L0, 2, i) + Predictor(L0, 3, i) <= 32767
  {}

  lemma Factor(s: int, a: int, b: int, c: int, d: int, x: int)
    ensures Times(s, x) + Times(a, x) + Times(b, x) + Times(c, x) + Times(d, x) == (s + a + b + c + d) * x
  {}

  lemma OneTimes(w: int, x: int)
    requires 32765 <= w <= 32767 && -0x8000 <= x <= 0x7fff
    ensures x - 3 <= (w * x + 0x4000) / 0x8000 <= x + 3
  {
    assert w == 32765 ==> w * x == 0x8000 * x - 3 * x;
    assert w == 32766 ==> w * x == 0x8000 * x - 2 * x;
    assert w == 32767 ==> w * x == 0x8000 * x - x;
  }

  /** A codeword that is repeated is predicted to within three: the weights of both predictors sum to almost one. */
  lemma SteadyState(L0: nat, c: Vector, i: Coordinate)
    requires L0 < 2 && -0x7ffd <= c[i] <= 0x7ffc
    ensures (c[i] as int) - 3 <= Lsf(L0, [c, c, c, c], c, i) <= (c[i] as int) + 3
  {
    hide Predictor, PredictorSum, Rising, Falling, RoundQ15, Times;
    var mem: Memory := [c, c, c, c];
    WeightsSumToOne(L0, i);
    Unrolled(L0, mem, c, i);
    WeightedBySum(PredictorSum(L0, i), Predictor(L0, 0, i), Predictor(L0, 1, i), Predictor(L0, 2, i), Predictor(L0, 3, i), c[i]);
  }

  lemma WeightedBySum(s: int, a: int, b: int, d: int, e: int, x: int)
    requires 32765 <= s + a + b + d + e <= 32767 && -0x7ffd <= x <= 0x7ffc
    ensures x - 3 <= RoundQ15(Times(s, x) + Times(a, x) + Times(b, x) + Times(d, x) + Times(e, x)) <= x + 3
  {
    Factor(s, a, b, d, e, x);
    OneTimes(s + a + b + d + e, x);
    hide Times;
  }
}
