/**
 Runs of the shipped BroadVoice16 tables on which the two sides of the LSP quantiser disagree:
 bv16/tables.c, lines 62-272.
 */
module Bv16LspInstances {
  import opened Arithmetic
  import opened BasicOps
  import opened Sorting
  import opened StabilizeLsp
  import opened Bv16Lsp

  const MEAN: seq<int> := [3114, 4881, 8235, 11893, 15666, 19258, 23128, 26238]

  function PredictorRow(i: Coordinate): (r: seq<int>)
    ensures |r| == LSPPORDER
  {
    if i == 0 then [17051, 13844, 11189, 9437, 7612, 5669, 3704, 1697]
    else if i == 1 then [16955, 14485, 11859, 9992, 8021, 6005, 3936, 1790]
    else if i == 2 then [17289, 15109, 12496, 10560, 8400, 6119, 3900, 1775]
    else if i == 3 then [17643, 15329, 12956, 11035, 8857, 6551, 4329, 1946]
    else if i == 4 then [17458, 14778, 12225, 10421, 8426, 6327, 4197, 1925]
    else if i == 5 then [16998, 13907, 11212, 9460, 7597, 5697, 3812, 1757]
    else if i == 6 then [16749, 13255, 10569, 8778, 7053, 5334, 3589, 1627]
    else [15808, 12181, 9472, 7936, 6443, 4881, 3300, 1503]
  }

  /** The sums of the rows of the predictor. */
  const TOTALS: seq<int> := [70203, 73043, 75648, 78646, 75757, 70440, 66954, 61524]

  /** Mean, predictor, and the few rows of the two codebooks the instances use. */
  ghost predicate Shipped(t: Tables) {
    && Sound(t) && t.mean == MEAN
    && (forall i: Coordinate, k :: 0 <= k < LSPPORDER ==> Tap(t, i, k) == PredictorRow(i)[k])
    && Entry(t.cb1, 0) == [-784, -988, -1487, -35, -1358, -731, 1198, -429]
    && Entry(t.cb1, 41) == [-170, -309, 548, 722, 869, 539, 1856, 4074]
    && Entry(t.cb1, 112) == [-4117, -7512, -4739, -2431, -2830, -1229, -1280, -249]
    && Entry(t.cb2, 0) == [-60, 3, 130, 354, 978, 694, -139, -234]
    && Entry(t.cb2, 15) == [592, -1739, -214, -53, 77, -466, -153, -123]
    && Entry(t.cb2, 53) == [-489, -372, 635, -420, 751, 885, -695, -4086]
    && Entry(t.cb2, 54) == [-259, -1311, -555, -853, -3517, 1651, -471, 462]
  }

  // ---- such tables exist ----

  function FirstRow(j: nat): (r: Vector) {
    if j == 0 then [-784, -988, -1487, -35, -1358, -731, 1198, -429]
    else if j == 41 then [-170, -309, 548, 722, 869, 539, 1856, 4074]
    else if j == 112 then [-4117, -7512, -4739, -2431, -2830, -1229, -1280, -249]
    else [0, 0, 0, 0, 0, 0, 0, 0]
  }

  function SecondRow(j: nat): (r: Vector) {
    if j == 0 then [-60, 3, 130, 354, 978, 694, -139, -234]
    else if j == 15 then [592, -1739, -214, -53, 77, -466, -153, -123]
    else if j == 53 then [-489, -372, 635, -420, 751, 885, -695, -4086]
    else if j == 54 then [-259, -1311, -555, -853, -3517, 1651, -471, 462]
    else [0, 0, 0, 0, 0, 0, 0, 0]
  }

  function PredictorEntry(k: nat): Word16
    requires k < MEMORY
  {
    RowPositive(k / LPCO, k % LPCO);
    PredictorRow(k / LPCO)[k % LPCO]
  }

  lemma RowsApart(cb: seq<Word16>, n: nat, row: nat -> Vector)
    requires |cb| == LPCO * n && forall k :: 0 <= k < |cb| ==> cb[k] == row(k / LPCO)[k % LPCO]
    ensures forall j :: 0 <= j < n ==> LPCO * j + LPCO <= |cb| && Entry(cb, j) == row(j)
  {
    forall j | 0 <= j < n
      ensures LPCO * j + LPCO <= |cb| && Entry(cb, j) == row(j)
    {
      forall i | 0 <= i < LPCO
        ensures cb[LPCO * j + i] == row(j)[i]
      {
        assert (LPCO * j + i) / LPCO == j && (LPCO * j + i) % LPCO == i;
      }
    }
  }

  function Book(n: nat, row: nat -> Vector): (cb: seq<Word16>)
    ensures |cb| == LPCO * n && forall k :: 0 <= k < |cb| ==> cb[k] == row(k / LPCO)[k % LPCO]
  {
    seq(LPCO * n, k requires 0 <= k < LPCO * n => row(k / LPCO)[k % LPCO])
  }

  lemma FirstBook()
    ensures var cb := Book(LSPECBSZ1, FirstRow);
      && (forall k :: 0 <= k < |cb| ==> -0x6000 <= cb[k] <= 0x6000)
      && Entry(cb, 0) == FirstRow(0) && Entry(cb, 41) == FirstRow(41) && Entry(cb, 112) == FirstRow(112)
  {
    var cb := Book(LSPECBSZ1, FirstRow);
    forall k | 0 <= k < |cb|
      ensures -0x6000 <= cb[k] <= 0x6000
    {
      FirstRowWithin(k / LPCO, k % LPCO);
    }
    hide Book, Entry, FirstRow;
    RowsApart(cb, LSPECBSZ1, FirstRow);
  }

  lemma FirstRowWithin(j: nat, i: Coordinate)
    ensures -0x6000 <= FirstRow(j)[i] <= 0x6000
  {}

  lemma SecondBook()
    ensures var cb := Book(LSPECBSZ2, SecondRow);
      && (forall k :: 0 <= k < |cb| ==> -0x1fff <= cb[k] <= 0x1fff)
      && Entry(cb, 0) == SecondRow(0) && Entry(cb, 15) == SecondRow(15)
      && Entry(cb, 53) == SecondRow(53) && Entry(cb, 54) == SecondRow(54)
  {
    var cb := Book(LSPECBSZ2, SecondRow);
    forall k | 0 <= k < |cb|
      ensures -0x1fff <= cb[k] <= 0x1fff
    {
      SecondRowWithin(k / LPCO, k % LPCO);
    }
    hide Book, Entry, SecondRow;
    RowsApart(cb, LSPECBSZ2, SecondRow);
  }

  lemma SecondRowWithin(j: nat, i: Coordinate)
    ensures -0x1fff <= SecondRow(j)[i] <= 0x1fff
  {}

  function Taps(): (p: Memory)
    ensures forall k :: 0 <= k < MEMORY ==> p[k] == PredictorEntry(k)
  {
    seq(MEMORY, k requires 0 <= k < MEMORY => PredictorEntry(k))
  }

  function MeanVector(): (m: Vector)
    ensures m == MEAN
  {
    [3114, 4881, 8235, 11893, 15666, 19258, 23128, 26238]
  }

  /** The instances below are not about nothing: tables with these rows exist. */
  lemma ShippedIsPossible()
    ensures Shipped(Tables(Book(LSPECBSZ1, FirstRow), Book(LSPECBSZ2, SecondRow), Taps(), MeanVector()))
  {
    FirstBook();
    SecondBook();
    hide Book, Entry, MeanVector;
    var t := Tables(Book(LSPECBSZ1, FirstRow), Book(LSPECBSZ2, SecondRow), Taps(), MeanVector());
    forall i: Coordinate, k | 0 <= k < LSPPORDER
      ensures Tap(t, i, k) == PredictorRow(i)[k]
    {
      assert (LSPPORDER * i + k) / LPCO == i && (LSPPORDER * i + k) % LPCO == k;
    }
  }

  // ---- one frame sent again and again ----

  function Repeat(x: Indices, n: nat): seq<Indices> { seq(n, _ => x) }

  function Least(a: nat, b: nat): nat { if a < b then a else b }

  function Tap(t: Tables, i: Coordinate, k: nat): int
    requires k < LSPPORDER
  {
    t.predictor[LSPPORDER * i + k]
  }

  function Cell(mem: Memory, i: Coordinate, k: nat): int
    requires k < LSPPORDER
  {
    mem[LSPPORDER * i + k]
  }

  /** The first n places of a group hold x, the others nothing. */
  ghost predicate Filled(mem: Memory, i: Coordinate, x: int, n: nat) {
    forall k :: 0 <= k < LSPPORDER ==> Cell(mem, i, k) == if k < n then x else 0
  }

  /** After n times the same frame every group is filled with its error. */
  lemma {:induction false} RepeatedMemory(t: Tables, x: Indices, n: nat, i: Coordinate)
    requires Sound(t)
    ensures Filled(EncoderMemory(t, Repeat(x, n)), i, SentError(t, x)[i], n)
  {
    hide SentError, Sound;
    if n > 0 {
      RepeatedMemory(t, x, n - 1, i);
      assert Repeat(x, n)[..n - 1] == Repeat(x, n - 1);
      var before := EncoderMemory(t, Repeat(x, n - 1));
      assert EncoderMemory(t, Repeat(x, n)) == Updated(before, SentError(t, x));
      hide EncoderMemory;
      FilledNext(before, SentError(t, x), i, n - 1);
    }
  }

  lemma FilledNext(mem: Memory, e: Vector, i: Coordinate, n: nat)
    requires Filled(mem, i, e[i], n)
    ensures Filled(Updated(mem, e), i, e[i], n + 1)
  {
    UpdatedGroup(mem, e, i);
    hide Updated;
    forall k | 0 <= k < LSPPORDER
      ensures Cell(Updated(mem, e), i, k) == if k < n + 1 then e[i] else 0
    {
      if k > 0 { assert Cell(mem, i, k - 1) == mem[LSPPORDER * i + k - 1]; }
    }
  }

  // ---- predictions over such memories ----

  function TapSum(t: Tables, i: Coordinate, k: nat): int
    requires k <= LSPPORDER
  {
    if k == 0 then 0 else TapSum(t, i, k - 1) + Tap(t, i, k - 1)
  }

  lemma TapPositive(t: Tables, i: Coordinate, k: nat)
    requires Shipped(t) && k < LSPPORDER
    ensures 0 < Tap(t, i, k) < 0x8000
  {
    hide Sound, Entry;
    assert Tap(t, i, k) == PredictorRow(i)[k];
    hide Shipped;
    RowPositive(i, k);
  }

  lemma RowPositive(i: Coordinate, k: nat)
    requires k < LSPPORDER
    ensures 0 < PredictorRow(i)[k] < 0x8000
  {}

  lemma RowTotal(i: Coordinate)
    ensures var r := PredictorRow(i); r[0] + r[1] + r[2] + r[3] + r[4] + r[5] + r[6] + r[7] == TOTALS[i]
  {}

  /** The sum of all taps of a row. */
  lemma TapTotal(t: Tables, i: Coordinate)
    requires Shipped(t)
    ensures TapSum(t, i, LSPPORDER) == TOTALS[i]
  {
    TapSumUnrolled(t, i);
    RowTotal(i);
    hide TapSum, Tap, Sound, Entry, PredictorRow;
  }

  lemma TapSumUnrolled(t: Tables, i: Coordinate)
    ensures TapSum(t, i, LSPPORDER)
         == Tap(t, i, 0) + Tap(t, i, 1) + Tap(t, i, 2) + Tap(t, i, 3) + Tap(t, i, 4) + Tap(t, i, 5) + Tap(t, i, 6) + Tap(t, i, 7)
  {
    hide Tap;
    assert TapSum(t, i, 1) == Tap(t, i, 0) + TapSum(t, i, 0);
    assert TapSum(t, i, 2) == Tap(t, i, 0) + Tap(t, i, 1);
    assert TapSum(t, i, 4) == TapSum(t, i, 2) + Tap(t, i, 2) + Tap(t, i, 3);
    assert TapSum(t, i, 6) == TapSum(t, i, 4) + Tap(t, i, 4) + Tap(t, i, 5);
  }

  lemma {:induction false} TapSumGrows(t: Tables, i: Coordinate, j: nat, k: nat)
    requires Shipped(t) && j <= k <= LSPPORDER
    ensures TapSum(t, i, j) <= TapSum(t, i, k)
  {
    hide Shipped, Tap;
    if j < k {
      TapPositive(t, i, k - 1);
      TapSumGrows(t, i, j, k - 1);
    }
  }

  lemma TapSumRange(t: Tables, i: Coordinate, k: nat)
    requires Shipped(t) && k <= LSPPORDER
    ensures 0 <= TapSum(t, i, k) <= TOTALS[i] <= 80000
  {
    TapTotal(t, i);
    hide Shipped, Tap;
    TapSumGrows(t, i, 0, k);
    TapSumGrows(t, i, k, LSPPORDER);
  }

  /** The accumulator over a filled group, as a plain product. */
  lemma {:induction false} AccumulatedRepeat(t: Tables, mem: Memory, i: Coordinate, x: int, n: nat, k: nat)
    requires Shipped(t) && k <= LSPPORDER && -3000 <= x <= 3000 && Filled(mem, i, x, n)
    ensures Accumulated(t, mem, i, k) as int == 2 * (x * TapSum(t, i, Least(k, n)))
  {
    hide Shipped, LMac;
    if k > 0 {
      AccumulatedRepeat(t, mem, i, x, n, k - 1);
      TapPositive(t, i, k - 1);
      TapSumRange(t, i, Least(k - 1, n));
      assert Cell(mem, i, k - 1) == if k - 1 < n then x else 0;
      OneTap(Accumulated(t, mem, i, k - 1), TapSum(t, i, Least(k - 1, n)), Tap(t, i, k - 1), x, Cell(mem, i, k - 1));
    }
  }

  lemma OneTap(acc: Word32, sum: int, p: Word16, x: int, y: Word16)
    requires acc as int == 2 * (x * sum) && 0 <= sum <= 80000 && 0 < p && -3000 <= x <= 3000 && (y as int == x || y == 0)
    ensures y as int == x ==> LMac(acc, p, y) as int == 2 * (x * (sum + p))
    ensures y == 0 ==> LMac(acc, p, y) == acc
  {
    var q: int := p;
    ProductWithin(x, q, 0x8000);
    ProductWithin(x, sum + q, 80000 + 0x8000);
    assert x * (sum + q) == x * sum + x * q;
  }

  lemma ProductWithin(x: int, q: int, limit: int)
    requires -3000 <= x <= 3000 && 0 <= q <= limit
    ensures -3000 * limit <= x * q <= 3000 * limit
  {
    if x >= 0 { MulNat(x, q, 3000, limit); } else { MulNat(-x, q, 3000, limit); MulSigns(x, q); }
  }

  /** The prediction after n times the same frame. */
  lemma PredictedRepeat(t: Tables, x: Indices, n: nat, i: Coordinate)
    requires Shipped(t) && -3000 <= SentError(t, x)[i] <= 3000
    ensures Predicted(t, EncoderMemory(t, Repeat(x, n)))[i] as int
         == (4 * (SentError(t, x)[i] * TapSum(t, i, Least(LSPPORDER, n))) + 0x8000) / 0x1_0000
  {
    hide Shipped, Filled, Accumulated;
    Parts(t);
    var mem, e: int := EncoderMemory(t, Repeat(x, n)), SentError(t, x)[i];
    RepeatedMemory(t, x, n, i);
    AccumulatedRepeat(t, mem, i, e, n, LSPPORDER);
    TapSumRange(t, i, Least(LSPPORDER, n));
    ProductWithin(e, TapSum(t, i, Least(LSPPORDER, n)), 80000);
    RoundedPrediction(Accumulated(t, mem, i, LSPPORDER));
  }

  lemma Parts(t: Tables)
    requires Shipped(t)
    ensures Sound(t) && t.mean == MEAN
  {}

  lemma RoundedPrediction(a: Word32)
    requires -0x2000_0000 <= a <= 0x2000_0000
    ensures IntRound(LShl(a, 1)) as int == (2 * a + 0x8000) / 0x1_0000
  {
    assert TwoTo(1) == 2;
  }

  // ---- the errors of the frames used ----

  const OPENING := Indices(0, 15)
  const EDGE := Indices(112, 54)
  const LOUD := Indices(41, 74)
  const PLAIN := Indices(0, 0)

  lemma ErrorAt(t: Tables, x: Indices, i: Coordinate)
    requires Sound(t)
    ensures var c1: int, c2: int := Entry(t.cb1, x.first)[i], Entry(t.cb2, Unfolded(x.second))[i];
      SentError(t, x)[i] as int == (if Negative(x.second) then c1 - c2 else c1 + c2) / 4
  {
    var c1: int, c2: int := Entry(t.cb1, x.first)[i], Entry(t.cb2, Unfolded(x.second))[i];
    assert c1 == t.cb1[LPCO * x.first + i] && c2 == t.cb2[LPCO * Unfolded(x.second) + i];
    QuarterOf(c1 + c2);
    QuarterOf(c1 - c2);
    hide Shr;
  }

  lemma Errors(t: Tables)
    requires Shipped(t)
    ensures SentError(t, OPENING) == [-48, -682, -426, -22, -321, -300, 261, -138]
    ensures SentError(t, EDGE) == [-1094, -2206, -1324, -821, -1587, 105, -438, 53]
    ensures SentError(t, LOUD) == [79, 15, -22, 285, 29, -87, 637, 2040]
    ensures SentError(t, PLAIN) == [-211, -247, -340, 79, -95, -10, 264, -166]
  {
    hide SentError, Entry;
    forall x: Indices, i: Coordinate
      ensures var c1: int, c2: int := Entry(t.cb1, x.first)[i], Entry(t.cb2, Unfolded(x.second))[i];
        SentError(t, x)[i] as int == (if Negative(x.second) then c1 - c2 else c1 + c2) / 4
    {
      ErrorAt(t, x, i);
    }
  }

  // ---- runs of one frame ----

  /** The decoder's verdict on a frame that follows an accepted run, in terms of the encoder's memory. */
  lemma VerdictInStep(t: Tables, sent: seq<Indices>, start: Vector, x: Indices)
    requires Sound(t) && AllAccepted(t, sent, start)
    ensures AcceptsNext(t, sent, start, x) <==> Accepts(t, EncoderMemory(t, sent), SentError(t, x))
  {
    hide Accepts, Sound, EncoderError, DecoderError, AllAccepted, EncoderMemory, DecoderAfter;
    RunInStep(t, sent, start);
    ErrorsAgree(t, x.first, x.second);
  }

  lemma {:induction false} RepeatAccepted(t: Tables, x: Indices, n: nat, start: Vector)
    requires Sound(t) && forall m :: 0 <= m < n ==> Accepts(t, EncoderMemory(t, Repeat(x, m)), SentError(t, x))
    ensures AllAccepted(t, Repeat(x, n), start)
  {
    hide Accepts, Sound, EncoderMemory, SentError, AcceptsNext;
    if n > 0 {
      RepeatAccepted(t, x, n - 1, start);
      VerdictInStep(t, Repeat(x, n - 1), start, x);
      forall k | 0 <= k < n
        ensures AcceptsNext(t, Repeat(x, n)[..k], start, Repeat(x, n)[k])
      {
        assert Repeat(x, n)[..k] == Repeat(x, k);
        if k < n - 1 {
          assert Repeat(x, n - 1)[..k] == Repeat(x, k);
          assert AcceptsNext(t, Repeat(x, n - 1)[..k], start, Repeat(x, n - 1)[k]);
        }
      }
    }
  }

  /** Acceptance, from the sums of the first three coordinates when none of them saturates. */
  lemma AcceptedSums(t: Tables, mem: Memory, e: Vector, a: int, b: int, c: int)
    requires t.mean == MEAN && -0x1000 <= e[0] <= 0x1000 && -0x1000 <= e[1] <= 0x1000 && -0x1000 <= e[2] <= 0x1000
    requires a == Predicted(t, mem)[0] && b == Predicted(t, mem)[1] && c == Predicted(t, mem)[2]
    requires -0x1000 <= a <= 0x1000 && -0x1000 <= b <= 0x1000 && -0x1000 <= c <= 0x1000
    ensures DecoderSum(t, mem, e)[0] as int == e[0] + a + 3114 && DecoderSum(t, mem, e)[1] as int == e[1] + b + 4881
    ensures DecoderSum(t, mem, e)[2] as int == e[2] + c + 8235
    ensures Accepts(t, mem, e) <==> 0 <= e[0] + a + 3114 <= e[1] + b + 4881 <= e[2] + c + 8235
  {
    hide Predicted, OrderedFront;
    InOrder(DecoderSum(t, mem, e));
  }

  // ---- a front the encoder's test accepts and the decoder rejects ----

  lemma PredictedOpening(t: Tables)
    requires Shipped(t)
    ensures var p := Predicted(t, EncoderMemory(t, Repeat(OPENING, 1))); p[0] == -50 && p[1] == -706 && p[2] == -450
    ensures var p := Predicted(t, EncoderMemory(t, Repeat(OPENING, 0))); p[0] == 0 && p[1] == 0 && p[2] == 0
  {
    Errors(t);
    hide Shipped, Predicted, EncoderMemory, SentError, Repeat;
    OpeningAt(t, 0, -48, 17051);
    OpeningAt(t, 1, -682, 16955);
    OpeningAt(t, 2, -426, 17289);
  }

  lemma OpeningAt(t: Tables, i: Coordinate, e: int, p: int)
    requires Shipped(t) && SentError(t, OPENING)[i] as int == e && PredictorRow(i)[0] == p && -3000 <= e <= 3000
    ensures Predicted(t, EncoderMemory(t, Repeat(OPENING, 0)))[i] == 0
    ensures Predicted(t, EncoderMemory(t, Repeat(OPENING, 1)))[i] as int == (4 * (e * p) + 0x8000) / 0x1_0000
  {
    FirstTap(t, i);
    hide Shipped, Predicted, EncoderMemory, SentError, Repeat, TapSum, PredictorRow;
    PredictedRepeat(t, OPENING, 0, i);
    PredictedRepeat(t, OPENING, 1, i);
    RoundedTaps(e, TapSum(t, i, 0), TapSum(t, i, 1), p);
  }

  lemma RoundedTaps(e: int, none: int, one: int, p: int)
    requires none == 0 && one == p
    ensures (4 * (e * none) + 0x8000) / 0x1_0000 == 0
    ensures (4 * (e * one) + 0x8000) / 0x1_0000 == (4 * (e * p) + 0x8000) / 0x1_0000
  {}

  lemma FirstTap(t: Tables, i: Coordinate)
    requires Shipped(t)
    ensures TapSum(t, i, 0) == 0 && TapSum(t, i, 1) == PredictorRow(i)[0]
  {
    hide Sound, Entry, PredictorRow;
    assert TapSum(t, i, 1) == TapSum(t, i, 0) + Tap(t, i, 0);
  }

  /** The encoder's own test of a frame. */
  ghost predicate PassesTest(t: Tables, mem: Memory, x: Indices)
    requires Sound(t)
  {
    OrderedFront(Front(t, FirstStage(t, mem, x.first), x.second), STBLDIM)
  }

  lemma EdgeFront(t: Tables, mem: Memory)
    requires Shipped(t)
    requires var p := Predicted(t, mem); p[0] == -50 && p[1] == -706 && p[2] == -450
    ensures Front(t, FirstStage(t, mem, EDGE.first), EDGE.second) == [1969, 1969, 6461]
  {
    hide Predicted, Sound;
    QuarterOf(-4117);
    QuarterOf(-7512);
    QuarterOf(-4739);
    QuarterOf(-259);
    QuarterOf(-1311);
    QuarterOf(-555);
    hide Shr;
  }

  lemma OpeningFrame(t: Tables)
    requires Shipped(t)
    ensures Accepts(t, EncoderMemory(t, Repeat(OPENING, 0)), SentError(t, OPENING))
  {
    Parts(t);
    Errors(t);
    PredictedOpening(t);
    hide Shipped, Predicted, EncoderMemory, SentError, Accepts, Sound, Repeat, DecoderSum;
    AcceptedSums(t, EncoderMemory(t, Repeat(OPENING, 0)), SentError(t, OPENING), 0, 0, 0);
  }

  lemma EdgePasses(t: Tables)
    requires Shipped(t)
    ensures PassesTest(t, EncoderMemory(t, Repeat(OPENING, 1)), EDGE)
  {
    Parts(t);
    PredictedOpening(t);
    EdgeFront(t, EncoderMemory(t, Repeat(OPENING, 1)));
    hide Shipped, Predicted, EncoderMemory, SentError, Front, FirstStage, Sound, Repeat;
  }

  lemma EdgeRejected(t: Tables)
    requires Shipped(t)
    ensures !Accepts(t, EncoderMemory(t, Repeat(OPENING, 1)), SentError(t, EDGE))
  {
    Parts(t);
    Errors(t);
    PredictedOpening(t);
    hide Shipped, Predicted, EncoderMemory, SentError, Accepts, Sound, Repeat, DecoderSum;
    AcceptedSums(t, EncoderMemory(t, Repeat(OPENING, 1)), SentError(t, EDGE), -50, -706, -450);
  }

  /**
   With the shipped tables: after one accepted frame from reset, a pair of indices whose front
   [1969, 1969, 6461] passes the encoder's test reaches the decoder as [1970, 1969, 6461] and is rejected.
   */
  lemma StableButRejected(t: Tables, start: Vector)
    requires Shipped(t)
    ensures var sent := Repeat(OPENING, 1);
      && AllAccepted(t, sent, start)
      && PassesTest(t, EncoderMemory(t, sent), EDGE)
      && !AcceptsNext(t, sent, start, EDGE)
  {
    Parts(t);
    OpeningAccepted(t, start);
    EdgePasses(t);
    EdgeRejected(t);
    hide Shipped, EncoderMemory, SentError, Accepts, AcceptsNext, AllAccepted, PassesTest, Sound, Repeat, DecoderAfter, DecoderError;
    VerdictInStep(t, Repeat(OPENING, 1), start, EDGE);
  }

  lemma OpeningAccepted(t: Tables, start: Vector)
    requires Shipped(t)
    ensures AllAccepted(t, Repeat(OPENING, 1), start)
  {
    Parts(t);
    OpeningFrame(t);
    hide Shipped, EncoderMemory, SentError, Accepts, AcceptsNext, AllAccepted, Sound, Repeat;
    forall m: nat | m < 1
      ensures Accepts(t, EncoderMemory(t, Repeat(OPENING, m)), SentError(t, OPENING))
    {
      assert m == 0;
    }
    RepeatAccepted(t, OPENING, 1, start);
  }

  // ---- vectors that differ because a sum saturates ----

  lemma PredictedLoud(t: Tables, n: nat)
    requires Shipped(t)
    ensures var p := Predicted(t, EncoderMemory(t, Repeat(LOUD, n)));
      0 <= p[0] <= 339 && 0 <= p[1] <= 67 && -102 <= p[2] <= 0
  {
    Errors(t);
    var k := Least(LSPPORDER, n);
    TapSumRange(t, 0, k);
    TapSumRange(t, 1, k);
    TapSumRange(t, 2, k);
    hide Shipped, Predicted, EncoderMemory, SentError, TapSum;
    PredictedRepeat(t, LOUD, n, 0);
    PredictedRepeat(t, LOUD, n, 1);
    PredictedRepeat(t, LOUD, n, 2);
  }

  lemma PredictedLoudest(t: Tables)
    requires Shipped(t)
    ensures Predicted(t, EncoderMemory(t, Repeat(LOUD, 8))) == [339, 67, -102, 1368, 134, -374, 2603, 7660]
  {
    Errors(t);
    forall i: Coordinate
      ensures TapSum(t, i, 8) == TOTALS[i]
    {
      TapTotal(t, i);
    }
    hide Shipped, Predicted, EncoderMemory, SentError, TapSum;
    forall i: Coordinate
      ensures Predicted(t, EncoderMemory(t, Repeat(LOUD, 8)))[i] as int == (4 * (SentError(t, LOUD)[i] * TOTALS[i]) + 0x8000) / 0x1_0000
    {
      PredictedRepeat(t, LOUD, 8, i);
    }
  }

  lemma LoudAccepted(t: Tables, start: Vector)
    requires Shipped(t)
    ensures AllAccepted(t, Repeat(LOUD, 8), start)
  {
    Parts(t);
    Errors(t);
    forall m | 0 <= m < 8
      ensures Accepts(t, EncoderMemory(t, Repeat(LOUD, m)), SentError(t, LOUD))
    {
      PredictedLoud(t, m);
      hide Shipped, Predicted, EncoderMemory, SentError, Accepts;
      var p := Predicted(t, EncoderMemory(t, Repeat(LOUD, m)));
      AcceptedSums(t, EncoderMemory(t, Repeat(LOUD, m)), SentError(t, LOUD), p[0], p[1], p[2]);
    }
    hide Shipped, EncoderMemory, SentError, Accepts, AllAccepted;
    RepeatAccepted(t, LOUD, 8, start);
  }

  lemma LoudSums(t: Tables, mem: Memory, e: Vector)
    requires t.mean == MEAN && e == [-211, -247, -340, 79, -95, -10, 264, -166]
    requires Predicted(t, mem) == [339, 67, -102, 1368, 134, -374, 2603, 7660]
    ensures EncoderSum(t, mem, e) == [3242, 4701, 7793, 13340, 15705, 18874, 25995, 32601]
    ensures DecoderSum(t, mem, e) == [3242, 4701, 7793, 13340, 15705, 18874, 25995, 32767]
  {
    hide Predicted;
  }

  lemma StableLoud(a: Vector, b: Vector)
    requires a == [3242, 4701, 7793, 13340, 15705, 18874, 25995, 32601] && b == [3242, 4701, 7793, 13340, 15705, 18874, 25995, 32767]
    ensures StableVector(a)[7] == 32601 && StableVector(b)[7] == 32694
  {
    WellSpacedIsKept(a);
    SortOfAscending(b);
    SettledRange(b, 7);
    SettledNext(b, 6);
    hide Settled, WellSpaced;
  }

  /**
   With the shipped tables: after eight accepted frames from reset a ninth is accepted, but the mean
   plus the prediction saturates in the encoder only, and the last LSP is 32601 on one side and 32694
   on the other.
   */
  lemma SaturationIsReachable(t: Tables, start: Vector)
    requires Shipped(t)
    ensures var sent := Repeat(LOUD, 8);
      && AllAccepted(t, sent, start) && AcceptsNext(t, sent, start, PLAIN)
      && !AllOrderFree(t, EncoderMemory(t, sent), SentError(t, PLAIN))
      && EncodedLsp(t, sent, PLAIN)[7] == 32601
      && DecodeNext(t, DecoderAfter(t, sent, start), PLAIN).last[7] == 32694
  {
    Parts(t);
    LoudAccepted(t, start);
    LoudFrame(t);
    var sent := Repeat(LOUD, 8);
    hide Shipped, EncoderMemory, SentError, Accepts, AcceptsNext, AllAccepted, DecoderAfter, DecodeNext, StableVector, EncoderSum, DecoderSum, AllOrderFree, Sound;
    VerdictInStep(t, sent, start, PLAIN);
    DecodedInStep(t, sent, start, PLAIN);
  }

  lemma LoudFrame(t: Tables)
    requires Shipped(t)
    ensures var mem, e := EncoderMemory(t, Repeat(LOUD, 8)), SentError(t, PLAIN);
      && Accepts(t, mem, e) && !AllOrderFree(t, mem, e)
      && StableVector(EncoderSum(t, mem, e))[7] == 32601 && StableVector(DecoderSum(t, mem, e))[7] == 32694
  {
    Parts(t);
    Errors(t);
    PredictedLoudest(t);
    var mem, e := EncoderMemory(t, Repeat(LOUD, 8)), SentError(t, PLAIN);
    hide Shipped, Predicted, EncoderMemory, SentError, Accepts, StableVector, EncoderSum, DecoderSum, AllOrderFree, Sound;
    AcceptedSums(t, mem, e, 339, 67, -102);
    LoudSums(t, mem, e);
    StableLoud(EncoderSum(t, mem, e), DecoderSum(t, mem, e));
    SumsAgree(t, mem, e);
  }

  /** The decoded vector of an accepted frame after an accepted run, in terms of the encoder's memory. */
  lemma DecodedInStep(t: Tables, sent: seq<Indices>, start: Vector, x: Indices)
    requires Sound(t) && AllAccepted(t, sent, start) && AcceptsNext(t, sent, start, x)
    ensures DecodeNext(t, DecoderAfter(t, sent, start), x).last == StableVector(DecoderSum(t, EncoderMemory(t, sent), SentError(t, x)))
  {
    hide Sound, AllAccepted, DecoderAfter, StableVector, DecoderSum, EncoderMemory, EncoderError, DecoderError, Accepts, Updated;
    RunInStep(t, sent, start);
    ErrorsAgree(t, x.first, x.second);
  }
}
