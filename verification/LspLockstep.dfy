/**
 The predictive LSP quantiser of G.729 on both sides: LSPQuantization.c, lines 399-458, and
 decodeLSP.c, lines 62-151.
 */
module LspLockstep {
  import opened Arithmetic
  import opened Sorting

  const NB := 10
  const MA_MAX_K := 4
  const GAP1 := 10
  const GAP2 := 5
  const QLSF_MIN := 40
  const QLSF_MAX := 25681
  const MIN_DISTANCE := 321

  type Word = x: int | -0x8000 <= x < 0x8000 witness 0
  type Vector = v: seq<Word> | |v| == NB witness seq(NB, _ => 0)
  type Memory = m: seq<Vector> | |m| == MA_MAX_K witness [INIT, INIT, INIT, INIT]
  type Coordinate = i: nat | i < NB

  const INIT: Vector := [2339, 4679, 7018, 9358, 11698, 14037, 16377, 18717, 21056, 23396]

  /** The moving-average predictors in Q15, and one minus their sums. */
  const PREDICTOR: seq<seq<seq<int>>> := [
    [[8421, 9109, 9175, 8965, 9034, 9057, 8765, 8775, 9106, 8673],
     [7018, 7189, 7638, 7307, 7444, 7379, 7038, 6956, 6930, 6868],
     [5472, 4990, 5134, 5177, 5246, 5141, 5206, 5095, 4830, 5147],
     [4056, 3031, 2614, 3024, 2916, 2713, 3309, 3237, 2857, 3473]],
    [[7733, 7880, 8188, 8175, 8247, 8490, 8637, 8601, 8359, 7569],
     [4210, 3031, 2552, 3473, 3876, 3853, 4184, 4154, 3909, 3968],
     [3214, 1930, 1313, 2143, 2493, 2385, 2755, 2706, 2542, 2919],
     [3024, 1592, 940, 1631, 1723, 1579, 2034, 2084, 1913, 2601]]]

  const PREDICTOR_SUM: seq<seq<int>> := [
    [7798, 8447, 8205, 8293, 8126, 8477, 8447, 8703, 9043, 8604],
    [14585, 18333, 19772, 17344, 16426, 16459, 15155, 15220, 16043, 15708]]

  /** The codebooks, and the indices of one frame. */
  datatype Books = Books(l1: seq<Vector>, l2l3: seq<Vector>)
  datatype Frame = Frame(L0: nat, L1: nat, L2: nat, L3: nat)

  ghost predicate Sound(books: Books, p: Frame) {
    p.L0 < 2 && p.L1 < |books.l1| && p.L2 < |books.l2l3| && p.L3 < |books.l2l3|
  }

  // ---- the codeword ----

  function Sum16(a: int, b: int): Word { Wrap16(a + b) }

  function Reconstruct(books: Books, p: Frame): Vector
    requires Sound(books, p)
  {
    seq(NB, i requires 0 <= i < NB => Sum16(books.l1[p.L1][i], books.l2l3[if i < 5 then p.L2 else p.L3][i]))
  }

  function HalfTowardsZero(x: int): int {
    if x >= 0 then x / 2 else -(-x / 2)
  }

  /** Half of what two neighbours miss to a distance of J. */
  function Missing(a: int, b: int, J: int): int {
    HalfTowardsZero(Wrap16(Wrap16(a - b) + J))
  }

  /** One step of the rearrangement pushes two neighbours apart. */
  function Apart(v: Vector, J: int, i: nat): Vector
    requires 1 <= i < NB
  {
    var delta := Missing(v[i - 1], v[i], J);
    if delta > 0 then v[i - 1 := Wrap16(v[i - 1] - delta)][i := Wrap16(v[i] + delta)] else v
  }

  function Rearranged(v: Vector, J: int, i: nat): Vector
    requires 1 <= i <= NB
  {
    if i == 1 then v else Apart(Rearranged(v, J, i - 1), J, i - 1)
  }

  function Codeword(books: Books, p: Frame): Vector
    requires Sound(books, p)
  {
    Rearranged(Rearranged(Reconstruct(books, p), GAP1, NB), GAP2, NB)
  }

  // ---- the prediction ----

  /** Coefficient i of predictor row j, and of what the rows leave of one. */
  function Predictor(L0: nat, j: nat, i: Coordinate): int
    requires L0 < 2 && j < MA_MAX_K
  {
    PREDICTOR[L0][j][i]
  }

  function PredictorSum(L0: nat, i: Coordinate): int
    requires L0 < 2
  {
    PREDICTOR_SUM[L0][i]
  }

  lemma TableWeights(L0: nat, i: Coordinate)
    requires L0 < 2
    ensures PredictorSum(L0, i) >= 0 && forall j :: 0 <= j < MA_MAX_K ==> Predictor(L0, j, i) >= 0
    ensures PredictorSum(L0, i) + Predictor(L0, 0, i) + Predictor(L0, 1, i) + Predictor(L0, 2, i) + Predictor(L0, 3, i) <= 32769
  {}

  /** The accumulator behind the first j taps, in the order of the encoder. */
  function Rising(L0: nat, mem: Memory, code: Vector, i: Coordinate, j: nat): int
    requires L0 < 2 && j <= MA_MAX_K
  {
    if j == 0 then Times(PredictorSum(L0, i), code[i])
    else Rising(L0, mem, code, i, j - 1) + Times(Predictor(L0, j - 1, i), mem[j - 1][i])
  }

  /** The accumulator behind the taps from j on, in the order of the decoder. */
  function Falling(L0: nat, mem: Memory, code: Vector, i: Coordinate, j: nat): int
    requires L0 < 2 && j <= MA_MAX_K
    decreases MA_MAX_K - j
  {
    if j == MA_MAX_K then Times(PredictorSum(L0, i), code[i])
    else Falling(L0, mem, code, i, j + 1) + Times(Predictor(L0, j, i), mem[j][i])
  }

  function Times(a: int, b: int): int { a * b }

  lemma OrdersAgree(L0: nat, mem: Memory, code: Vector, i: Coordinate)
    requires L0 < 2
    ensures Rising(L0, mem, code, i, MA_MAX_K) == Falling(L0, mem, code, i, 0)
  {
    hide Times, Predictor, PredictorSum;
    Unrolled(L0, mem, code, i);
  }

  lemma Unrolled(L0: nat, mem: Memory, code: Vector, i: Coordinate)
    requires L0 < 2
    ensures var b, t0, t1, t2, t3 := Times(PredictorSum(L0, i), code[i]), Times(Predictor(L0, 0, i), mem[0][i]),
        Times(Predictor(L0, 1, i), mem[1][i]), Times(Predictor(L0, 2, i), mem[2][i]), Times(Predictor(L0, 3, i), mem[3][i]);
      && Rising(L0, mem, code, i, 0) == b && Rising(L0, mem, code, i, 1) == b + t0
      && Rising(L0, mem, code, i, 2) == b + t0 + t1 && Rising(L0, mem, code, i, 3) == b + t0 + t1 + t2
      && Rising(L0, mem, code, i, 4) == b + t0 + t1 + t2 + t3
      && Falling(L0, mem, code, i, 4) == b && Falling(L0, mem, code, i, 3) == b + t3
      && Falling(L0, mem, code, i, 2) == b + t3 + t2 && Falling(L0, mem, code, i, 1) == b + t3 + t2 + t1
      && Falling(L0, mem, code, i, 0) == b + t3 + t2 + t1 + t0
  {
    hide Times, Predictor, PredictorSum;
  }

  /** Neither side's accumulator leaves 32 bits, whatever the memory holds. */
  lemma AccumulatorFits(L0: nat, mem: Memory, code: Vector, i: Coordinate, j: nat)
    requires L0 < 2 && j <= MA_MAX_K
    ensures -0x4001_0000 <= Rising(L0, mem, code, i, j) <= 0x4001_0000
    ensures -0x4001_0000 <= Falling(L0, mem, code, i, j) <= 0x4001_0000
  {
    TableWeights(L0, i);
    Unrolled(L0, mem, code, i);
    hide Predictor, PredictorSum, Rising, Falling;
    TimesBound(PredictorSum(L0, i), code[i]);
    forall k | 0 <= k < MA_MAX_K
      ensures -32768 * Predictor(L0, k, i) <= Times(Predictor(L0, k, i), mem[k][i]) <= 32768 * Predictor(L0, k, i)
    {
      TimesBound(Predictor(L0, k, i), mem[k][i]);
    }
    hide Times;
    assert j == 0 || j == 1 || j == 2 || j == 3 || j == 4;
  }

  lemma TimesBound(w: int, x: int)
    requires w >= 0 && -32768 <= x < 32768
    ensures -32768 * w <= Times(w, x) <= 32768 * w
  {}

  /** The LSF of one coordinate, rounded to Q13. */
  function Lsf(L0: nat, mem: Memory, code: Vector, i: Coordinate): Word
    requires L0 < 2
  {
    RoundQ15(Rising(L0, mem, code, i, MA_MAX_K))
  }

  function RoundQ15(acc: int): Word { Wrap16((acc + 0x4000) / 0x8000) }

  function Lsfs(L0: nat, mem: Memory, code: Vector): Vector
    requires L0 < 2
  {
    seq(NB, i requires 0 <= i < NB => Lsf(L0, mem, code, i))
  }

  /** The codeword enters, the oldest one leaves. */
  function Push(mem: Memory, code: Vector): Memory {
    [code] + mem[..MA_MAX_K - 1]
  }

  // ---- the stability check ----

  function Lifted(v: Vector, low: Coordinate): Vector {
    if v[low] < QLSF_MIN then v[low := QLSF_MIN] else v
  }

  /** The first k steps that keep the minimum distance. */
  function Spaced(v: Vector, k: nat): Vector
    requires k < NB
  {
    if k == 0 then v
    else
      var w := Spaced(v, k - 1);
      if w[k] - w[k - 1] < MIN_DISTANCE then w[k := Sum16(w[k - 1], MIN_DISTANCE)] else w
  }

  function Capped(v: Vector): Vector {
    if v[NB - 1] > QLSF_MAX then v[NB - 1 := QLSF_MAX] else v
  }

  /** What the stability check makes of a sorted vector; `low` is the index whose lower limit is tested. */
  function Stable(v: Vector, low: Coordinate): Vector {
    Capped(Spaced(Lifted(v, low), NB - 1))
  }

  lemma {:induction false} FirstStays(v: Vector, k: nat)
    requires k < NB
    ensures Spaced(v, k)[0] == v[0]
  {
    if k > 0 { FirstStays(v, k - 1); }
  }

  /**
   The encoder tests index 1, the decoder index 0. On a sorted vector the results are the same
   exactly when the first value needs no lifting.
   */
  lemma LimitsAgree(v: Vector)
    requires Ascending(v)
    ensures Stable(v, 1) == Stable(v, 0) <==> v[0] >= QLSF_MIN
  {
    FirstStays(Lifted(v, 0), NB - 1);
    FirstStays(Lifted(v, 1), NB - 1);
    hide Spaced;
    assert v[0] <= v[1];
    assert v[0] >= QLSF_MIN ==> Lifted(v, 1) == v == Lifted(v, 0);
    assert Stable(v, 1)[0] == Lifted(v, 1)[0] == v[0];
    assert Stable(v, 0)[0] == Lifted(v, 0)[0] >= QLSF_MIN;
  }

  /** A sorted vector on which they differ. */
  lemma LimitsDiffer()
    ensures exists v: Vector :: Ascending(v) && Stable(v, 1) != Stable(v, 0)
  {
    var v: Vector := INIT[0 := 39];
    LimitsAgree(v);
  }

  /** The spacing steps as they would be without a word size. */
  function Ideal(v: Vector, k: nat): int
    requires k < NB
  {
    if k == 0 then v[0] else if v[k] > Ideal(v, k - 1) + MIN_DISTANCE then v[k] else Ideal(v, k - 1) + MIN_DISTANCE
  }

  /** It fits a word exactly when every value leaves room for the distances behind it. */
  lemma {:induction false} IdealFits(v: Vector, k: nat)
    requires k < NB
    ensures Ideal(v, k) <= 0x7fff <==> forall i :: 0 <= i <= k ==> v[i] + (k - i) * MIN_DISTANCE <= 0x7fff
    ensures forall i :: 0 <= i <= k ==> v[i] + (k - i) * MIN_DISTANCE <= Ideal(v, k)
    ensures exists i :: 0 <= i <= k && v[i] + (k - i) * MIN_DISTANCE == Ideal(v, k)
  {
    if k > 0 {
      IdealFits(v, k - 1);
      var i :| 0 <= i <= k - 1 && v[i] + (k - 1 - i) * MIN_DISTANCE == Ideal(v, k - 1);
      assert v[i] + (k - i) * MIN_DISTANCE == Ideal(v, k - 1) + MIN_DISTANCE;
      assert v[k] + (k - k) * MIN_DISTANCE == v[k];
      forall n | 0 <= n <= k
        ensures v[n] + (k - n) * MIN_DISTANCE <= Ideal(v, k)
      {
        if n < k { assert v[n] + (k - 1 - n) * MIN_DISTANCE <= Ideal(v, k - 1); }
      }
    } else {
      assert v[0] + (0 - 0) * MIN_DISTANCE == Ideal(v, 0);
    }
  }

  /** Later steps leave what earlier ones have settled. */
  lemma {:induction false} SettledStays(v: Vector, j: nat, k: nat, i: nat)
    requires j <= k < NB && i <= j
    ensures Spaced(v, k)[i] == Spaced(v, j)[i]
  {
    if j < k { SettledStays(v, j, k - 1, i); }
  }

  /** As long as the ideal value fits, it is what the loop computes. */
  lemma {:induction false} SpacedIsIdeal(v: Vector, k: nat)
    requires k < NB && Ideal(v, k) <= 0x7fff
    ensures Spaced(v, k)[k] as int == Ideal(v, k)
    ensures forall i :: k < i < NB ==> Spaced(v, k)[i] == v[i]
  {
    if k > 0 { SpacedIsIdeal(v, k - 1); }
  }

  ghost predicate DistancesKept(v: Vector) {
    forall i :: 0 <= i < NB - 1 ==> (v[i + 1] as int) - v[i] >= MIN_DISTANCE
  }

  lemma IdealGrows(v: Vector, j: nat, k: nat)
    requires j <= k < NB
    ensures Ideal(v, j) <= Ideal(v, k)
  {
    if j < k { IdealGrows(v, j, k - 1); }
  }

  /** Where the ideal value first leaves the word, the distance is lost. */
  lemma WrapLosesDistance(v: Vector, k: nat)
    requires 0 < k < NB && Ideal(v, k - 1) <= 0x7fff < Ideal(v, k)
    ensures !DistancesKept(Spaced(v, NB - 1))
  {
    SpacedIsIdeal(v, k - 1);
    SettledStays(v, k, NB - 1, k);
    SettledStays(v, k, NB - 1, k - 1);
    assert Ideal(v, k) == Ideal(v, k - 1) + MIN_DISTANCE;
    WrapsOver(Ideal(v, k));
    var w := Spaced(v, NB - 1);
    assert w[k - 1 + 1] < w[k - 1];
  }

  lemma WrapsOver(x: int)
    requires 0x7fff < x <= 0x7fff + MIN_DISTANCE
    ensures Wrap16(x) == x - 0x1_0000
  {}

  /**
   The spacing loop leaves the minimum distance between all neighbours exactly when every value leaves
   room in a word for the distances behind it; otherwise an addition wraps.
   */
  lemma SpacingHolds(v: Vector)
    ensures DistancesKept(Spaced(v, NB - 1)) <==> forall i :: 0 <= i < NB ==> v[i] + (NB - 1 - i) * MIN_DISTANCE <= 0x7fff
  {
    IdealFits(v, NB - 1);
    if Ideal(v, NB - 1) <= 0x7fff {
      AllIdeal(v);
    } else {
      var k := FirstTooLarge(v, NB - 1);
      WrapLosesDistance(v, k);
    }
  }

  lemma AllIdeal(v: Vector)
    requires Ideal(v, NB - 1) <= 0x7fff
    ensures DistancesKept(Spaced(v, NB - 1))
  {
    var w := Spaced(v, NB - 1);
    forall i | 0 <= i < NB - 1
      ensures (w[i + 1] as int) - w[i] >= MIN_DISTANCE
    {
      IdealGrows(v, i, NB - 1);
      IdealGrows(v, i + 1, NB - 1);
      SpacedIsIdeal(v, i);
      SpacedIsIdeal(v, i + 1);
      SettledStays(v, i, NB - 1, i);
      SettledStays(v, i + 1, NB - 1, i + 1);
      hide Spaced;
    }
  }

  lemma {:induction false} FirstTooLarge(v: Vector, n: nat) returns (k: nat)
    requires n < NB && Ideal(v, n) > 0x7fff
    ensures 0 < k <= n && Ideal(v, k - 1) <= 0x7fff < Ideal(v, k)
  {
    if Ideal(v, n - 1) <= 0x7fff { k := n; } else { k := FirstTooLarge(v, n - 1); }
  }

  // ---- the loops of the source ----

  method Rearrange(q: array<int>, J: int, ghost v: Vector)
    requires q[..] == v
    modifies q
    ensures q[..] == Rearranged(v, J, NB)
  {
    hide Missing, HalfTowardsZero, Wrap16, Rearranged;
    assert Rearranged(v, J, 1) == v by { RearrangedFirst(v, J); }
    for i := 1 to NB
      invariant q.Length == NB && q[..] == Rearranged(v, J, i)
    {
      RearrangedNext(v, J, i);
      var delta := HalfTowardsZero(Wrap16(Wrap16(q[i - 1] - q[i]) + J));
      MissingIs(q[i - 1], q[i], J);
      if delta > 0 {
        q[i - 1] := Wrap16(q[i - 1] - delta);
        q[i] := Wrap16(q[i] + delta);
      }
    }
  }

  lemma RearrangedFirst(v: Vector, J: int)
    ensures Rearranged(v, J, 1) == v
  {}

  lemma RearrangedNext(v: Vector, J: int, i: nat)
    requires 1 <= i < NB
    ensures Rearranged(v, J, i + 1) == Apart(Rearranged(v, J, i), J, i)
  {}

  lemma MissingIs(a: int, b: int, J: int)
    ensures Missing(a, b, J) == HalfTowardsZero(Wrap16(Wrap16(a - b) + J))
  {}

  /** The codeword of a frame from the codebooks, rearranged twice. */
  method BuildCodeword(books: Books, p: Frame) returns (q: array<int>)
    requires Sound(books, p)
    ensures fresh(q) && q[..] == Codeword(books, p)
  {
    q := new int[NB];
    ghost var r := Reconstruct(books, p);
    for i := 0 to 5
      invariant forall k :: 0 <= k < i ==> q[k] == r[k]
    {
      q[i] := Sum16(books.l1[p.L1][i], books.l2l3[p.L2][i]);
    }
    for i := 5 to NB
      invariant forall k :: 0 <= k < i ==> q[k] == r[k]
    {
      q[i] := Sum16(books.l1[p.L1][i], books.l2l3[p.L3][i]);
    }
    assert q[..] == r;
    hide Rearranged;
    Rearrange(q, GAP1, r);
    Rearrange(q, GAP2, Rearranged(r, GAP1, NB));
  }

  /** The tail that both sides share but for the index whose lower limit they test. */
  method Stabilise(q: array<int>, low: Coordinate, ghost v: Vector)
    requires q[..] == v
    modifies q
    ensures q[..] == Stable(v, low)
  {
    if q[low] < QLSF_MIN { q[low] := QLSF_MIN; }
    ghost var lifted := Lifted(v, low);
    assert q[..] == lifted;
    for i := 0 to NB - 1
      invariant q.Length == NB && q[..] == Spaced(lifted, i)
    {
      if q[i + 1] - q[i] < MIN_DISTANCE { q[i + 1] := Wrap16(q[i] + MIN_DISTANCE); }
    }
    if q[NB - 1] > QLSF_MAX { q[NB - 1] := QLSF_MAX; }
  }

  function SortedVector(v: Vector): (r: Vector)
    ensures Ascending(r) && r == Sort(v)
  {
    SortIsSorted(v);
    assert forall i :: 0 <= i < NB ==> Sort(v)[i] in multiset(Sort(v));
    Sort(v)
  }

  /** The quantised LSF of a frame on the side that tests index `low`. */
  function Output(mem: Memory, code: Vector, L0: nat, low: Coordinate): Vector
    requires L0 < 2
  {
    Stable(SortedVector(Lsfs(L0, mem, code)), low)
  }

  /** A buffer of the last codewords, and what it holds. */
  ghost predicate Sized(a: array2<int>) {
    a.Length0 == MA_MAX_K && a.Length1 == NB
  }

  ghost predicate Holds(a: array2<int>, mem: Memory)
    reads a
  {
    Sized(a) && forall j, i :: 0 <= j < MA_MAX_K && 0 <= i < NB ==> a[j, i] == mem[j][i]
  }

  /** The encoder's prediction: the taps from the newest row to the oldest. */
  method PredictRising(L0: nat, previous: array2<int>, q: array<int>, ghost mem: Memory, ghost code: Vector) returns (qLSF: array<int>)
    requires L0 < 2 && Holds(previous, mem) && q[..] == code
    ensures fresh(qLSF) && qLSF[..] == Lsfs(L0, mem, code)
  {
    hide Predictor, PredictorSum, RoundQ15;
    qLSF := new int[NB];
    for i := 0 to NB
      invariant forall k :: 0 <= k < i ==> qLSF[k] == Lsf(L0, mem, code, k)
      modifies qLSF
    {
      var acc := Times(PredictorSum(L0, i), q[i]);
      for j := 0 to MA_MAX_K
        invariant acc == Rising(L0, mem, code, i, j)
      {
        acc := acc + Times(Predictor(L0, j, i), previous[j, i]);
      }
      qLSF[i] := RoundQ15(acc);
    }
  }

  /** The encoder's update: row by row, from the oldest. */
  method ShiftRows(previous: array2<int>, q: array<int>, ghost mem: Memory, ghost code: Vector)
    requires Holds(previous, mem) && q[..] == code
    modifies previous
    ensures Holds(previous, Push(mem, code))
  {
    var i := MA_MAX_K - 1;
    while i > 0
      invariant 0 <= i < MA_MAX_K
      invariant forall j, k :: 0 <= j <= i && 0 <= k < NB ==> previous[j, k] == mem[j][k]
      invariant forall j, k :: i < j < MA_MAX_K && 0 <= k < NB ==> previous[j, k] == mem[j - 1][k]
    {
      CopyRow(previous, i);
      i := i - 1;
    }
    forall k | 0 <= k < NB { previous[0, k] := q[k]; }
  }

  method CopyRow(a: array2<int>, row: nat)
    requires 1 <= row < a.Length0
    modifies a
    ensures forall j, k :: 0 <= j < a.Length0 && 0 <= k < a.Length1 ==>
      a[j, k] == old(a[if j == row then row - 1 else j, k])
  {
    forall k | 0 <= k < a.Length1 { a[row, k] := a[row - 1, k]; }
  }

  /** The encoder's half of a frame once its search has chosen the indices. */
  class Encoder {
    const previousqLSF: array2<int>

    constructor ()
      ensures fresh(previousqLSF) && Holds(previousqLSF, [INIT, INIT, INIT, INIT])
    {
      previousqLSF := new int[MA_MAX_K, NB]((j, i) requires 0 <= i < NB => INIT[i]);
    }

    method Quantise(books: Books, p: Frame, ghost mem: Memory) returns (qLSF: array<int>)
      requires Sound(books, p) && Holds(previousqLSF, mem)
      modifies previousqLSF
      ensures Holds(previousqLSF, Push(mem, Codeword(books, p)))
      ensures fresh(qLSF) && qLSF[..] == Output(mem, Codeword(books, p), p.L0, 1)
    {
      hide Codeword, Lsfs, Stable;
      ghost var code := Codeword(books, p);
      var quantizerOutput := BuildCodeword(books, p);
      qLSF := PredictRising(p.L0, previousqLSF, quantizerOutput, mem, code);
      ShiftRows(previousqLSF, quantizerOutput, mem, code);
      InsertionSort(qLSF);
      Stabilise(qLSF, 1, SortedVector(Lsfs(p.L0, mem, code)));
    }
  }

  /** What the buffer holds when the decoder has shifted its first i columns. */
  ghost predicate PartlyShifted(a: array2<int>, mem: Memory, code: Vector, i: nat)
    reads a
  {
    && Sized(a)
    && (forall j, k :: 0 <= j < MA_MAX_K && 0 <= k < NB && k < i ==> a[j, k] == Push(mem, code)[j][k])
    && forall j, k :: 0 <= j < MA_MAX_K && i <= k < NB ==> a[j, k] == mem[j][k]
  }

  /** One column: the taps from the oldest row to the newest, shifting on the way. */
  method PredictColumn(L0: nat, previous: array2<int>, i: Coordinate, current: int, ghost mem: Memory, ghost code: Vector) returns (acc: int)
    requires L0 < 2 && PartlyShifted(previous, mem, code, i) && current == code[i]
    modifies previous
    ensures PartlyShifted(previous, mem, code, i + 1)
    ensures acc == Falling(L0, mem, code, i, 0)
  {
    hide Predictor, PredictorSum;
    acc := Times(PredictorSum(L0, i), current);
    var j := MA_MAX_K;
    while j > 0
      invariant 0 <= j <= MA_MAX_K && acc == Falling(L0, mem, code, i, j)
      invariant forall r :: 0 <= r < j ==> previous[r, i] == mem[r][i]
      invariant forall r :: j <= r < MA_MAX_K ==> previous[r, i] == Push(mem, code)[r][i]
      invariant forall r, k :: 0 <= r < MA_MAX_K && 0 <= k < NB && k != i ==> previous[r, k] == old(previous[r, k])
    {
      j := j - 1;
      acc := acc + Times(Predictor(L0, j, i), previous[j, i]);
      previous[j, i] := if j > 0 then previous[j - 1, i] else current;
    }
  }

  /** The decoder's prediction in place, with its memory shifted column by column. */
  method PredictFalling(L0: nat, q: array<int>, previous: array2<int>, ghost mem: Memory, ghost code: Vector)
    requires L0 < 2 && Holds(previous, mem) && q[..] == code
    modifies q, previous
    ensures q[..] == Lsfs(L0, mem, code) && Holds(previous, Push(mem, code))
  {
    hide Predictor, PredictorSum, RoundQ15, Rising, Falling;
    for i := 0 to NB
      invariant PartlyShifted(previous, mem, code, i)
      invariant forall k :: 0 <= k < i ==> q[k] == Lsf(L0, mem, code, k)
      invariant forall k :: i <= k < NB ==> q[k] == code[k]
    {
      var acc := PredictColumn(L0, previous, i, q[i], mem, code);
      OrdersAgree(L0, mem, code, i);
      q[i] := RoundQ15(acc);
    }
  }

  class Decoder {
    const previousLCodeWord: array2<int>
    const lastqLSF: array<int>
    var lastValidL0: nat

    constructor ()
      ensures fresh(previousLCodeWord) && fresh(lastqLSF) && Holds(previousLCodeWord, [INIT, INIT, INIT, INIT])
      ensures lastqLSF[..] == INIT && lastValidL0 == 0
    {
      previousLCodeWord := new int[MA_MAX_K, NB]((j, i) requires 0 <= i < NB => INIT[i]);
      lastqLSF := new int[NB](i requires 0 <= i < NB => INIT[i]);
      lastValidL0 := 0;
    }

    /** decodeLSP on a frame that arrived. */
    method Decode(books: Books, p: Frame, ghost mem: Memory) returns (qLSF: array<int>)
      requires Sound(books, p) && Holds(previousLCodeWord, mem) && lastqLSF.Length == NB
      modifies previousLCodeWord, lastqLSF, this`lastValidL0
      ensures Holds(previousLCodeWord, Push(mem, Codeword(books, p)))
      ensures fresh(qLSF) && qLSF[..] == lastqLSF[..] == Output(mem, Codeword(books, p), p.L0, 0)
      ensures lastValidL0 == p.L0
    {
      hide Codeword, Lsfs, Stable;
      ghost var code := Codeword(books, p);
      qLSF := BuildCodeword(books, p);
      PredictFalling(p.L0, qLSF, previousLCodeWord, mem, code);
      InsertionSort(qLSF);
      Stabilise(qLSF, 0, SortedVector(Lsfs(p.L0, mem, code)));
      forall i | 0 <= i < NB { lastqLSF[i] := qLSF[i]; }
      lastValidL0 := p.L0;
    }
  }

  // ---- runs ----

  function MemoryAfter(books: Books, frames: seq<Frame>): Memory
    requires forall k :: 0 <= k < |frames| ==> Sound(books, frames[k])
  {
    if |frames| == 0 then [INIT, INIT, INIT, INIT]
    else Push(MemoryAfter(books, frames[..|frames| - 1]), Codeword(books, frames[|frames| - 1]))
  }

  /** The least LSF of a frame before any limit is applied. */
  function Lowest(mem: Memory, code: Vector, L0: nat): int
    requires L0 < 2
  {
    SortedVector(Lsfs(L0, mem, code))[0]
  }

  lemma OutputsAgree(mem: Memory, code: Vector, L0: nat)
    requires L0 < 2
    ensures Output(mem, code, L0, 1) == Output(mem, code, L0, 0) <==> Lowest(mem, code, L0) >= QLSF_MIN
  {
    LimitsAgree(SortedVector(Lsfs(L0, mem, code)));
  }

  /** One frame through both sides. */
  method BothSides(encoder: Encoder, decoder: Decoder, books: Books, p: Frame, ghost mem: Memory) returns (agree: bool)
    requires Sound(books, p) && Holds(encoder.previousqLSF, mem) && Holds(decoder.previousLCodeWord, mem)
    requires decoder.lastqLSF.Length == NB && encoder.previousqLSF != decoder.previousLCodeWord
    modifies encoder.previousqLSF, decoder.previousLCodeWord, decoder.lastqLSF, decoder`lastValidL0
    ensures Holds(encoder.previousqLSF, Push(mem, Codeword(books, p)))
    ensures Holds(decoder.previousLCodeWord, Push(mem, Codeword(books, p)))
    ensures agree <==> Lowest(mem, Codeword(books, p), p.L0) >= QLSF_MIN
  {
    hide Codeword, Lsfs, Stable, Output;
    var e := encoder.Quantise(books, p, mem);
    var d := decoder.Decode(books, p, mem);
    OutputsAgree(mem, Codeword(books, p), p.L0);
    agree := e[..] == d[..];
  }

  ghost predicate NeedsNoLifting(books: Books, frames: seq<Frame>, k: nat)
    requires forall k :: 0 <= k < |frames| ==> Sound(books, frames[k])
    requires k < |frames|
  {
    Lowest(MemoryAfter(books, frames[..k]), Codeword(books, frames[k]), frames[k].L0) >= QLSF_MIN
  }

  lemma MemoryStep(books: Books, frames: seq<Frame>, k: nat)
    requires forall k :: 0 <= k < |frames| ==> Sound(books, frames[k])
    requires k < |frames|
    ensures MemoryAfter(books, frames[..k + 1]) == Push(MemoryAfter(books, frames[..k]), Codeword(books, frames[k]))
  {
    hide Codeword;
    assert frames[..k + 1][..k] == frames[..k];
  }

  /**
   Main result: over every run of active frames without loss, whatever indices the encoder chose,
   the two memories are equal; and the LSF vectors of a frame are equal exactly when its least LSF
   was not below the limit.
   */
  method LossFreeRun(books: Books, frames: seq<Frame>) returns (encoder: Encoder, decoder: Decoder, agree: seq<bool>)
    requires forall k :: 0 <= k < |frames| ==> Sound(books, frames[k])
    ensures Holds(encoder.previousqLSF, MemoryAfter(books, frames))
    ensures Holds(decoder.previousLCodeWord, MemoryAfter(books, frames))
    ensures |agree| == |frames| && forall k :: 0 <= k < |frames| ==> (agree[k] <==> NeedsNoLifting(books, frames, k))
  {
    hide Codeword, Lowest, MemoryAfter, Holds, Sound, Push;
    encoder := new Encoder();
    decoder := new Decoder();
    assert MemoryAfter(books, frames[..0]) == [INIT, INIT, INIT, INIT] by { Start(books); }
    agree := [];
    for k := 0 to |frames|
      invariant fresh(encoder.previousqLSF) && fresh(decoder.previousLCodeWord) && fresh(decoder) && fresh(decoder.lastqLSF)
      invariant decoder.lastqLSF.Length == NB && encoder.previousqLSF != decoder.previousLCodeWord
      invariant Holds(encoder.previousqLSF, MemoryAfter(books, frames[..k]))
      invariant Holds(decoder.previousLCodeWord, MemoryAfter(books, frames[..k]))
      invariant |agree| == k && forall n :: 0 <= n < k ==> (agree[n] <==> NeedsNoLifting(books, frames, n))
    {
      MemoryStep(books, frames, k);
      var same := BothSides(encoder, decoder, books, frames[k], MemoryAfter(books, frames[..k]));
      agree := agree + [same];
    }
    assert frames[..|frames|] == frames;
  }

  lemma Start(books: Books)
    ensures MemoryAfter(books, []) == [INIT, INIT, INIT, INIT]
  {}

  lemma TimesNegative(w: int, x: int)
    requires w >= 0 && -0x4000 <= x <= 0
    ensures -0x4000 * w <= Times(w, x) <= 0
  {}

  /** A first value below zero in all codewords stays below the limit. */
  lemma LowCodeword(L0: nat, code: Vector)
    requires L0 < 2 && -0x4000 <= code[0] < 0
    ensures Lowest([code, code, code, code], code, L0) < QLSF_MIN
  {
    var mem: Memory := [code, code, code, code];
    Unrolled(L0, mem, code, 0);
    TableWeights(L0, 0);
    hide Predictor, PredictorSum, Rising, Falling;
    TimesNegative(PredictorSum(L0, 0), code[0]);
    forall j | 0 <= j < MA_MAX_K
      ensures -0x4000 * Predictor(L0, j, 0) <= Times(Predictor(L0, j, 0), code[0]) <= 0
    {
      TimesNegative(Predictor(L0, j, 0), code[0]);
    }
    hide Times;
    assert Lsf(L0, mem, code, 0) <= 0;
    SortStartsLeast(Lsfs(L0, mem, code), 0);
  }

  lemma FourPushes(mem: Memory, c: Vector)
    ensures Push(Push(Push(Push(mem, c), c), c), c) == [c, c, c, c]
  {
    var m1 := Push(mem, c);
    assert m1 == [c, mem[0], mem[1], mem[2]];
    var m2 := Push(m1, c);
    assert m2 == [c, c, mem[0], mem[1]];
    var m3 := Push(m2, c);
    assert m3 == [c, c, c, mem[0]];
  }

  /** The disagreement can be reached: five frames with one codeword whose first value is negative. */
  lemma DisagreementIsReachable(books: Books, p: Frame)
    requires Sound(books, p) && -0x4000 <= Codeword(books, p)[0] < 0
    ensures !NeedsNoLifting(books, [p, p, p, p, p], 4)
  {
    hide Codeword, Lowest;
    var f, c := [p, p, p, p, p], Codeword(books, p);
    Start(books);
    MemoryStep(books, f, 0);
    MemoryStep(books, f, 1);
    MemoryStep(books, f, 2);
    MemoryStep(books, f, 3);
    assert f[..0] == [];
    FourPushes([INIT, INIT, INIT, INIT], c);
    LowCodeword(p.L0, c);
  }

  // ---- the shipped codebooks ----

  /** The rows of codebooks.c that the instance uses: row 32 of L1 and row 25 of L2L3. */
  ghost predicate ShippedRows(books: Books) {
    && |books.l1| == 128 && |books.l2l3| == 32
    && books.l1[32] == [679, 1411, 4654, 8006, 11446, 13249, 15763, 18127, 20361, 21567]
    && books.l2l3[25] == [-1596, 550, 801, -456, -56, -697, 865, 1060, 413, 446]
  }

  /** Values that are apart already are not rearranged. */
  lemma {:induction false} AlreadyApart(v: Vector, J: int, i: nat)
    requires 1 <= i <= NB && 0 <= J <= 100
    requires forall k :: 0 < k < NB ==> J <= (v[k] as int) - v[k - 1] <= 0x4000
    ensures Rearranged(v, J, i) == v
  {
    if i > 1 {
      AlreadyApart(v, J, i - 1);
      assert J <= (v[i - 1] as int) - v[i - 1 - 1];
      NothingMissing(v[i - 2], v[i - 1], J);
    }
  }

  lemma NothingMissing(a: int, b: int, J: int)
    requires 0 <= J <= 100 && J <= b - a <= 0x4000
    ensures Missing(a, b, J) <= 0
  {}

  lemma ShippedSum(books: Books, L0: nat)
    requires ShippedRows(books) && L0 < 2
    ensures Reconstruct(books, Frame(L0, 32, 25, 25)) == [-917, 1961, 5455, 7550, 11390, 12552, 16628, 19187, 20774, 22013]
  {}

  lemma ShippedCodeword(books: Books, L0: nat)
    requires ShippedRows(books) && L0 < 2
    ensures Codeword(books, Frame(L0, 32, 25, 25)) == [-917, 1961, 5455, 7550, 11390, 12552, 16628, 19187, 20774, 22013]
  {
    var v: Vector := [-917, 1961, 5455, 7550, 11390, 12552, 16628, 19187, 20774, 22013];
    ShippedSum(books, L0);
    hide Rearranged, Reconstruct;
    AlreadyApart(v, GAP1, NB);
    AlreadyApart(v, GAP2, NB);
  }

  /**
   With the shipped codebooks, five frames of the codeword of rows 32 and 25, for either predictor, end
   in different LSF vectors on the two sides.
   */
  lemma ShippedBooksDisagree(books: Books, L0: nat)
    requires ShippedRows(books) && L0 < 2
    ensures var p := Frame(L0, 32, 25, 25); !NeedsNoLifting(books, [p, p, p, p, p], 4)
  {
    ShippedCodeword(books, L0);
    hide Codeword;
    DisagreementIsReachable(books, Frame(L0, 32, 25, 25));
  }
}
