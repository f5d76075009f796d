/** What the BroadVoice16 LSP quantiser searches for: bv16/lspquan.c, lines 99-119 and 147-230. */
module Bv16LspTarget {
  import opened Arithmetic
  import opened BasicOps
  import opened Bv16Lsp

  // ---- the target ----

  /** What is left of an LSP vector behind mean and prediction. */
  function Rest(t: Tables, mem: Memory, lsp: Vector, i: Coordinate): int {
    (lsp[i] as int) - t.mean[i] - Predicted(t, mem)[i]
  }

  /** No difference on the way to the target saturates, and no sum on the way back. */
  ghost predicate Exact(t: Tables, mem: Memory, lsp: Vector) {
    forall i: Coordinate ::
      && MIN_16 <= (lsp[i] as int) - t.mean[i] <= MAX_16 && -0x2000 <= Rest(t, mem, lsp, i) < 0x2000
      && MIN_16 <= (t.mean[i] as int) + Predicted(t, mem)[i] <= MAX_16
  }

  lemma TargetIs(t: Tables, mem: Memory, lsp: Vector, i: Coordinate)
    requires Exact(t, mem, lsp)
    ensures TargetOf(t, mem, lsp)[i] as int == 4 * Rest(t, mem, lsp, i)
  {
    hide Predicted;
    assert TwoTo(2) == 4;
    assert MIN_16 <= (lsp[i] as int) - t.mean[i] <= MAX_16 && -0x2000 <= Rest(t, mem, lsp, i) < 0x2000;
  }

  function Quarter(x: Vector): Vector {
    seq(LPCO, i requires 0 <= i < LPCO => Shr(x[i], 2))
  }

  /** The target is four times the error that rebuilds the LSP vector. */
  lemma TargetRebuilds(t: Tables, mem: Memory, lsp: Vector)
    requires Exact(t, mem, lsp)
    ensures EncoderSum(t, mem, Quarter(TargetOf(t, mem, lsp))) == lsp
  {
    var e := Quarter(TargetOf(t, mem, lsp));
    forall i | 0 <= i < LPCO
      ensures EncoderSum(t, mem, e)[i] == lsp[i]
    {
      TargetIs(t, mem, lsp, i);
      QuarterOf(TargetOf(t, mem, lsp)[i]);
      hide Predicted, TargetOf, Shr;
      assert MIN_16 <= (t.mean[i] as int) + Predicted(t, mem)[i] <= MAX_16;
    }
  }

  // ---- the first search ----

  /** The value a codevector rebuilds, before any rounding. */
  function Rebuilt(t: Tables, mem: Memory, c: Vector, i: Coordinate): real {
    (t.mean[i] as int) as real + (Predicted(t, mem)[i] as int) as real + (c[i] as int) as real / 4.0
  }

  function Square(d: real): real { d * d }

  /** The squared distance, over k coordinates, of an LSP vector from what a codevector rebuilds. */
  function SquaredDistance(t: Tables, mem: Memory, lsp: Vector, c: Vector, k: nat): real
    requires k <= LPCO
  {
    if k == 0 then 0.0
    else
      SquaredDistance(t, mem, lsp, c, k - 1) + Square((lsp[k - 1] as int) as real - Rebuilt(t, mem, c, k - 1))
  }

  /** Neither a difference nor the sum of the squares saturates. */
  ghost predicate Measured(x: Vector, c: Vector) {
    && (forall i: Coordinate :: MIN_16 < (x[i] as int) - c[i] <= MAX_16)
    && SquaredError(x, c, LPCO) < MAX_32
  }

  lemma AddSquare(a: Word32, e: Word16)
    requires a >= 0
    ensures a <= LMac0(a, e, e)
    ensures e > MIN_16 && LMac0(a, e, e) < MAX_32 ==> LMac0(a, e, e) as int == a + (e as int) * e
  {
    var x: int := e;
    if x >= 0 { MulNat(x, x, 0x8000, 0x8000); } else { MulNat(-x, -x, 0x8000, 0x8000); MulSigns(x, x); }
  }

  lemma {:induction false} ErrorGrows(x: Vector, c: Vector, j: nat, k: nat)
    requires j <= k <= LPCO
    ensures 0 <= SquaredError(x, c, j) <= SquaredError(x, c, k)
    decreases k
  {
    hide Sub, LMac0;
    if k > 0 {
      ErrorGrows(x, c, if j < k then j else k - 1, k - 1);
      AddSquare(SquaredError(x, c, k - 1), Sub(x[k - 1], c[k - 1]));
    }
  }

  lemma OneSquare(l: int, m: int, p: int, c: int, e: int)
    requires e == 4 * (l - m - p) - c
    ensures (e * e) as real == 16.0 * Square(l as real - (m as real + p as real + c as real / 4.0))
  {
    var d := l as real - (m as real + p as real + c as real / 4.0);
    assert e as real == 4.0 * d;
    assert (e * e) as real == e as real * e as real;
  }

  /** One term of the search, on 32 bits. */
  lemma ErrorStep(x: Vector, c: Vector, k: nat)
    requires k < LPCO && Measured(x, c)
    ensures SquaredError(x, c, k + 1) as int == SquaredError(x, c, k) as int + ((x[k] as int) - c[k]) * ((x[k] as int) - c[k])
  {
    ErrorGrows(x, c, k + 1, LPCO);
    ErrorGrows(x, c, k, k);
    hide LMac0;
    var i: Coordinate := k;
    assert MIN_16 < (x[i] as int) - c[i] <= MAX_16;
    AddSquare(SquaredError(x, c, k), Sub(x[k], c[k]));
  }

  /** The same term as a distance. */
  lemma DistanceStep(t: Tables, mem: Memory, lsp: Vector, c: Vector, i: Coordinate)
    requires Exact(t, mem, lsp)
    ensures var e: int := (TargetOf(t, mem, lsp)[i] as int) - c[i];
      (e * e) as real == 16.0 * Square((lsp[i] as int) as real - Rebuilt(t, mem, c, i))
  {
    TargetIs(t, mem, lsp, i);
    hide Predicted, TargetOf, Exact, Square;
    OneSquare(lsp[i], t.mean[i], Predicted(t, mem)[i], c[i], (TargetOf(t, mem, lsp)[i] as int) - c[i]);
  }

  /** The error of the search is sixteen times the squared distance from what the codevector rebuilds. */
  lemma {:induction false} ErrorIsDistance(t: Tables, mem: Memory, lsp: Vector, c: Vector, k: nat)
    requires k <= LPCO && Exact(t, mem, lsp) && Measured(TargetOf(t, mem, lsp), c)
    ensures (SquaredError(TargetOf(t, mem, lsp), c, k) as int) as real == 16.0 * SquaredDistance(t, mem, lsp, c, k)
  {
    hide Predicted, TargetOf, Measured, Exact, Square, Rebuilt, Sub, LMac0;
    if k > 0 {
      var x := TargetOf(t, mem, lsp);
      ErrorIsDistance(t, mem, lsp, c, k - 1);
      ErrorStep(x, c, k - 1);
      DistanceStep(t, mem, lsp, c, k - 1);
      hide SquaredError;
      RealSum(SquaredError(x, c, k - 1), ((x[k - 1] as int) - c[k - 1]) * ((x[k - 1] as int) - c[k - 1]));
    }
  }

  lemma RealSum(a: int, b: int)
    ensures (a + b) as real == a as real + b as real
  {}

  /** So the first index stands for the codevector that rebuilds the LSP vector best. */
  lemma FirstRebuildsBest(t: Tables, mem: Memory, lsp: Vector, i1: FirstIndex, j: FirstIndex)
    requires Sound(t) && Exact(t, mem, lsp) && FirstIsNearest(t, TargetOf(t, mem, lsp), i1)
    requires Measured(TargetOf(t, mem, lsp), Entry(t.cb1, i1)) && Measured(TargetOf(t, mem, lsp), Entry(t.cb1, j))
    ensures SquaredDistance(t, mem, lsp, Entry(t.cb1, i1), LPCO) <= SquaredDistance(t, mem, lsp, Entry(t.cb1, j), LPCO)
  {
    hide Exact, SquaredError, SquaredDistance;
    ErrorIsDistance(t, mem, lsp, Entry(t.cb1, i1), LPCO);
    ErrorIsDistance(t, mem, lsp, Entry(t.cb1, j), LPCO);
  }

  // ---- the second search ----

  /** Four times what a pair of codevectors misses of an LSP value. */
  function Miss(t: Tables, mem: Memory, lsp: Vector, i1: FirstIndex, s: SignedIndex, i: Coordinate): int
    requires Sound(t)
  {
    var c1: int, c2: int := Entry(t.cb1, i1)[i], Entry(t.cb2, Unfolded(s))[i];
    4 * Rest(t, mem, lsp, i) - (if Negative(s) then c1 - c2 else c1 + c2)
  }

  /** The weighted sum of the squares of what a pair misses, over k coordinates. */
  function WeightedMiss(t: Tables, mem: Memory, lsp: Spectrum, i1: FirstIndex, s: SignedIndex, k: nat): int
    requires Sound(t) && k <= LPCO
  {
    if k == 0 then 0
    else WeightedMiss(t, mem, lsp, i1, s, k - 1) + Weighted(WeightsOf(lsp)[k - 1], Miss(t, mem, lsp, i1, s, k - 1))
  }

  function Weighted(w: int, e: int): int { w * e * e }

  function Size(e: int): nat { if e < 0 then -e else e }

  function MissSize(t: Tables, mem: Memory, lsp: Vector, i1: FirstIndex, s: SignedIndex, k: nat): nat
    requires Sound(t) && k <= LPCO
  {
    if k == 0 then 0 else MissSize(t, mem, lsp, i1, s, k - 1) + Size(Miss(t, mem, lsp, i1, s, k - 1))
  }

  /** The vector the second search compares its codevectors with. */
  function SecondTarget(t: Tables, mem: Memory, lsp: Vector, i1: FirstIndex): Vector
    requires Sound(t)
  {
    Residual(TargetOf(t, mem, lsp), Entry(t.cb1, i1))
  }

  /** No difference of the second search saturates, and its error does not. */
  ghost predicate SecondMeasured(t: Tables, mem: Memory, lsp: Spectrum, i1: FirstIndex, s: SignedIndex)
    requires Sound(t)
  {
    && (forall i: Coordinate :: MIN_16 <= 4 * Rest(t, mem, lsp, i) - Entry(t.cb1, i1)[i] <= MAX_16
                                && MIN_16 < Miss(t, mem, lsp, i1, s, i) <= MAX_16)
    && ErrorOf(SecondTarget(t, mem, lsp, i1), WeightsOf(lsp), t, s) < MAX_32
  }

  lemma SecondDifference(t: Tables, mem: Memory, lsp: Spectrum, i1: FirstIndex, s: SignedIndex, i: Coordinate)
    requires Sound(t) && Exact(t, mem, lsp) && SecondMeasured(t, mem, lsp, i1, s)
    ensures Difference(SecondTarget(t, mem, lsp, i1)[i], Entry(t.cb2, Unfolded(s))[i], Negative(s)) as int == Miss(t, mem, lsp, i1, s, i)
    ensures Miss(t, mem, lsp, i1, s, i) > MIN_16
  {
    TargetIs(t, mem, lsp, i);
    hide Predicted, TargetOf, Exact, Entry;
    assert MIN_16 <= 4 * Rest(t, mem, lsp, i) - Entry(t.cb1, i1)[i] <= MAX_16
           && MIN_16 < Miss(t, mem, lsp, i1, s, i) <= MAX_16;
  }

  /** One weighted term: floored once, and never negative. */
  lemma AddWeighted(a: Word32, w: Word16, e: Word16)
    requires a >= 0 && 0 <= w && e > MIN_16
    ensures a <= LMac0(a, Mult(w, e), e)
    ensures LMac0(a, Mult(w, e), e) < MAX_32 ==>
      var d := 0x8000 * (LMac0(a, Mult(w, e), e) as int - a) - Weighted(w, e); -0x8000 * Size(e) <= d <= 0x8000 * Size(e)
  {
    var x: int, v: int, q := e, w, w * e / 0x8000;
    var r := v * x - 0x8000 * q;
    FloorProduct(v, x);
    assert Mult(w, e) as int == q;
    TermOf(v, x, q, r);
    hide Weighted;
    if x >= 0 { MulNat(q, x, 0x8000, 0x8000); } else { MulNat(-q, -x, 0x8000, 0x8000); MulSigns(q, x); }
  }

  lemma FloorProduct(w: int, e: int)
    requires 0 <= w <= MAX_16 && MIN_16 < e <= MAX_16
    ensures e >= 0 ==> 0 <= w * e / 0x8000 <= MAX_16
    ensures e < 0 ==> -MAX_16 <= w * e / 0x8000 <= 0
  {
    if e >= 0 { MulNat(w, e, MAX_16, MAX_16); } else { MulNat(w, -e, MAX_16, MAX_16); MulSigns(w, e); }
  }

  lemma TermOf(w: int, e: int, q: int, r: int)
    requires w * e == 0x8000 * q + r && 0 <= r < 0x8000
    ensures -0x8000 * Size(e) <= 0x8000 * (q * e) - Weighted(w, e) <= 0x8000 * Size(e)
  {
    assert Weighted(w, e) == (w * e) * e == 0x8000 * (q * e) + r * e;
    if e >= 0 { MulNat(r, e, 0x8000, e); } else { MulNat(r, -e, 0x8000, -e); MulSigns(r, e); }
  }

  lemma {:induction false} WeightedGrows(x: Vector, w: Vector, c: Vector, negative: bool, j: nat, k: nat)
    requires j <= k <= LPCO && forall i: Coordinate :: 0 <= w[i] && Difference(x[i], c[i], negative) > MIN_16
    ensures 0 <= WeightedError(x, w, c, negative, j) <= WeightedError(x, w, c, negative, k)
    decreases k
  {
    hide Difference, LMac0, Mult;
    if k > 0 {
      WeightedGrows(x, w, c, negative, if j < k then j else k - 1, k - 1);
      var i: Coordinate := k - 1;
      AddWeighted(WeightedError(x, w, c, negative, k - 1), w[i], Difference(x[i], c[i], negative));
    }
  }

  lemma {:induction false} ErrorIsMiss(t: Tables, mem: Memory, lsp: Spectrum, i1: FirstIndex, s: SignedIndex, k: nat)
    requires Sound(t) && Exact(t, mem, lsp) && SecondMeasured(t, mem, lsp, i1, s) && k <= LPCO
    ensures var d := 0x8000 * (WeightedError(SecondTarget(t, mem, lsp, i1), WeightsOf(lsp), Entry(t.cb2, Unfolded(s)), Negative(s), k) as int)
        - WeightedMiss(t, mem, lsp, i1, s, k);
      -0x8000 * MissSize(t, mem, lsp, i1, s, k) <= d <= 0x8000 * MissSize(t, mem, lsp, i1, s, k)
  {
    hide Difference, LMac0, Mult, Exact, Miss, SecondTarget, Weighted, Size, WeightsOf;
    if k > 0 {
      ErrorIsMiss(t, mem, lsp, i1, s, k - 1);
      var x, w, c := SecondTarget(t, mem, lsp, i1), WeightsOf(lsp), Entry(t.cb2, Unfolded(s));
      forall i: Coordinate
        ensures 0 <= w[i] && Difference(x[i], c[i], Negative(s)) > MIN_16
      {
        WeightsRank(lsp, i, i);
        SecondDifference(t, mem, lsp, i1, s, i);
      }
      WeightedGrows(x, w, c, Negative(s), k, LPCO);
      WeightedGrows(x, w, c, Negative(s), k - 1, k - 1);
      SecondDifference(t, mem, lsp, i1, s, k - 1);
      hide SecondMeasured, Sound, Entry;
      AddWeighted(WeightedError(x, w, c, Negative(s), k - 1), w[k - 1], Difference(x[k - 1], c[k - 1], Negative(s)));
    }
  }

  /**
   And the second index stands for the signed codevector that, on top of the first, misses the LSP vector
   least under the weights, up to the rounding of the weighted terms.
   */
  lemma SecondRebuildsBest(t: Tables, mem: Memory, lsp: Spectrum, i1: FirstIndex, i2: SignedIndex, s: SignedIndex)
    requires Sound(t) && Exact(t, mem, lsp) && SecondIsBest(t, mem, lsp, i1, i2)
    requires Eligible(SecondTarget(t, mem, lsp, i1), FirstStage(t, mem, i1), WeightsOf(lsp), t, s)
    requires SecondMeasured(t, mem, lsp, i1, i2) && SecondMeasured(t, mem, lsp, i1, s)
    ensures WeightedMiss(t, mem, lsp, i1, i2, LPCO) <= WeightedMiss(t, mem, lsp, i1, s, LPCO)
        + 0x8000 * (MissSize(t, mem, lsp, i1, i2, LPCO) + MissSize(t, mem, lsp, i1, s, LPCO))
  {
    ErrorIsMiss(t, mem, lsp, i1, i2, LPCO);
    ErrorIsMiss(t, mem, lsp, i1, s, LPCO);
    hide Exact, SecondMeasured, WeightedMiss, MissSize, WeightedError, Eligible, WeightsOf, FirstStage, TargetOf;
  }

  // ---- the replacement ----

  /** The error that replaces a rejected one is the one whose sum, in the decoder's order, is the last vector. */
  lemma ReplacementRebuilds(t: Tables, mem: Memory, last: Vector)
    requires forall i: Coordinate ::
      && MIN_16 <= (last[i] as int) - Predicted(t, mem)[i] <= MAX_16
      && MIN_16 <= (last[i] as int) - Predicted(t, mem)[i] - t.mean[i] <= MAX_16
      && MIN_16 <= (last[i] as int) - t.mean[i] <= MAX_16
    ensures DecoderSum(t, mem, Replacement(t, mem, last)) == last
  {
    hide Predicted;
    var e := Replacement(t, mem, last);
    forall i: Coordinate
      ensures DecoderSum(t, mem, e)[i] == last[i]
    {
      assert MIN_16 <= (last[i] as int) - Predicted(t, mem)[i] <= MAX_16;
    }
  }
}
