/** The memory and the prediction of the BroadVoice16 LSP quantiser over a run: bv16/lspquan.c, lines 86-97 and 124-134. */
module Bv16LspPast {
  import opened Arithmetic
  import opened BasicOps
  import opened Bv16Lsp

  /** The error of the frame k + 1 before the next one; nothing before the run. */
  function Past(t: Tables, sent: seq<Indices>, i: Coordinate, k: nat): Word16
    requires Sound(t)
  {
    if k < |sent| then SentError(t, sent[|sent| - 1 - k])[i] else 0
  }

  function Place(i: Coordinate, k: nat): (p: nat)
    requires k < LSPPORDER
    ensures p < MEMORY && p / LSPPORDER == i && p % LSPPORDER == k
  {
    LSPPORDER * i + k
  }

  /** Each group of eight holds the last eight errors of its coordinate, the newest first. */
  lemma {:induction false} MemoryIsPast(t: Tables, sent: seq<Indices>, i: Coordinate, k: nat)
    requires Sound(t) && k < LSPPORDER
    ensures EncoderMemory(t, sent)[Place(i, k)] == Past(t, sent, i, k)
    decreases |sent|
  {
    hide SentError, Sound;
    if |sent| > 0 && k > 0 {
      MemoryIsPast(t, sent[..|sent| - 1], i, k - 1);
    }
  }

  function Times(p: int, e: int): int { p * e }

  /** The weighted sum of the last eight errors. */
  function Sum(t: Tables, sent: seq<Indices>, i: Coordinate, k: nat): int
    requires Sound(t) && k <= LSPPORDER
  {
    if k == 0 then 0
    else Sum(t, sent, i, k - 1) + Times(t.predictor[Place(i, k - 1)], Past(t, sent, i, k - 1))
  }

  /** No product and no partial sum leaves the range of the accumulator. */
  ghost predicate Moderate(t: Tables, sent: seq<Indices>, i: Coordinate)
    requires Sound(t)
  {
    && (forall k :: 0 <= k < LSPPORDER ==> t.predictor[Place(i, k)] > MIN_16)
    && forall k :: 0 <= k <= LSPPORDER ==> -0x1fff_e000 <= Sum(t, sent, i, k) < 0x1fff_e000
  }

  lemma OneProduct(a: Word32, p: Word16, e: Word16, sum: int, next: int)
    requires a as int == 2 * sum && p > MIN_16 && next == sum + Times(p, e) && -0x1fff_e000 <= next < 0x1fff_e000
    ensures LMac(a, p, e) as int == 2 * next
  {
    ProductRange(p, e);
  }

  lemma ModerateAt(t: Tables, sent: seq<Indices>, i: Coordinate, k: nat)
    requires Sound(t) && Moderate(t, sent, i) && k < LSPPORDER
    ensures t.predictor[Place(i, k)] > MIN_16 && -0x1fff_e000 <= Sum(t, sent, i, k + 1) < 0x1fff_e000
    ensures Sum(t, sent, i, k + 1) == Sum(t, sent, i, k) + Times(t.predictor[Place(i, k)], Past(t, sent, i, k))
  {
    hide Times, Past, Sound;
  }

  lemma AccumulatedStep(t: Tables, mem: Memory, i: Coordinate, k: nat)
    requires k < LSPPORDER
    ensures Accumulated(t, mem, i, 0) == 0
    ensures Accumulated(t, mem, i, k + 1) == LMac(Accumulated(t, mem, i, k), t.predictor[Place(i, k)], mem[Place(i, k)])
  {
    hide LMac;
  }

  lemma {:induction false} AccumulatedIs(t: Tables, sent: seq<Indices>, i: Coordinate, k: nat)
    requires Sound(t) && Moderate(t, sent, i) && k <= LSPPORDER
    ensures Accumulated(t, EncoderMemory(t, sent), i, k) as int == 2 * Sum(t, sent, i, k)
  {
    hide LMac, Past, EncoderMemory, Sound, Times, Moderate, Accumulated;
    var mem := EncoderMemory(t, sent);
    if k > 0 {
      AccumulatedIs(t, sent, i, k - 1);
      MemoryIsPast(t, sent, i, k - 1);
      ModerateAt(t, sent, i, k - 1);
      AccumulatedStep(t, mem, i, k - 1);
      OneProduct(Accumulated(t, mem, i, k - 1), t.predictor[Place(i, k - 1)], Past(t, sent, i, k - 1), Sum(t, sent, i, k - 1), Sum(t, sent, i, k));
    } else {
      AccumulatedStep(t, mem, i, 0);
    }
  }

  lemma Rounded(a: Word32)
    requires -0x3fff_c000 <= a < 0x3fff_c000
    ensures -0x4000 <= 0x8000 * (IntRound(LShl(a, 1)) as int) - a <= 0x4000
  {
    assert TwoTo(1) == 2;
  }

  /**
   Main result over runs: the prediction of a frame is the weighted sum, in Q14, of the errors of the eight
   frames before it, to the nearest word.
   */
  lemma RunIsMovingAverage(t: Tables, sent: seq<Indices>, i: Coordinate)
    requires Sound(t) && Moderate(t, sent, i)
    ensures -0x2000 <= 0x4000 * (Predicted(t, EncoderMemory(t, sent))[i] as int) - Sum(t, sent, i, LSPPORDER) <= 0x2000
  {
    AccumulatedIs(t, sent, i, LSPPORDER);
    hide Accumulated, Sum, LShl, IntRound, EncoderMemory, Sound;
    Rounded(Accumulated(t, EncoderMemory(t, sent), i, LSPPORDER));
  }
}
