/**
 The two-stage predictive LSP quantiser of BroadVoice16 on both sides: bv16/lspquan.c, lines 70-272,
 and bv16/lspdec.c, lines 31-118.
 */
module Bv16Lsp {
  import opened Arithmetic
  import opened BasicOps
  import opened Sorting
  import opened StabilizeLsp

  const LPCO := 8
  const LSPPORDER := 8
  const MEMORY := 64
  const LSPECBSZ1 := 128
  const LSPECBSZ2 := 64
  const STBLDIM := 3

  type Vector = v: seq<Word16> | |v| == LPCO witness seq(LPCO, _ => 0)
  type Memory = m: seq<Word16> | |m| == MEMORY witness seq(MEMORY, _ => 0)
  type Coordinate = i: nat | i < LPCO

  /** The tables both sides share. */
  datatype Tables = Tables(cb1: seq<Word16>, cb2: seq<Word16>, predictor: Memory, mean: Vector)

  /** Sizes, and bounds on the entries that the tables keep. */
  ghost predicate Sound(t: Tables) {
    && |t.cb1| == LPCO * LSPECBSZ1 && |t.cb2| == LPCO * LSPECBSZ2
    && (forall k :: 0 <= k < |t.cb1| ==> -0x6000 <= t.cb1[k] <= 0x6000)
    && forall k :: 0 <= k < |t.cb2| ==> -0x1fff <= t.cb2[k] <= 0x1fff
  }

  function Entry(cb: seq<Word16>, j: nat): Vector
    requires LPCO * j + LPCO <= |cb|
  {
    cb[LPCO * j..LPCO * j + LPCO]
  }

  // ---- prediction and memory ----

  function Accumulated(t: Tables, mem: Memory, i: Coordinate, k: nat): Word32
    requires k <= LSPPORDER
  {
    if k == 0 then 0
    else LMac(Accumulated(t, mem, i, k - 1), t.predictor[LSPPORDER * i + k - 1], mem[LSPPORDER * i + k - 1])
  }

  function Predicted(t: Tables, mem: Memory): Vector {
    seq(LPCO, i requires 0 <= i < LPCO => IntRound(LShl(Accumulated(t, mem, i, LSPPORDER), 1)))
  }

  /** Every group of eight takes in the newest error and drops its oldest. */
  function Updated(mem: Memory, lspe: Vector): Memory {
    seq(MEMORY, p requires 0 <= p < MEMORY => if p % LSPPORDER == 0 then lspe[p / LSPPORDER] else mem[p - 1])
  }

  // ---- the signed second stage ----

  type SignedIndex = s: nat | s < 2 * LSPECBSZ2

  function Negative(s: SignedIndex): bool { s >= LSPECBSZ2 }

  function Unfolded(s: SignedIndex): (j: nat)
    ensures j < LSPECBSZ2
  {
    if Negative(s) then 2 * LSPECBSZ2 - 1 - s else s
  }

  /** The index the encoder sends for a codevector and a sign. */
  function Fold(j: nat, negative: bool): SignedIndex
    requires j < LSPECBSZ2
  {
    if negative then Sub(2 * LSPECBSZ2 - 1, j) else j
  }

  /** Folding loses neither the codevector nor the sign, and no index is left over. */
  lemma FoldUnfold(j: nat, negative: bool, s: SignedIndex)
    requires j < LSPECBSZ2
    ensures Unfolded(Fold(j, negative)) == j && (Negative(Fold(j, negative)) <==> negative)
    ensures Fold(Unfolded(s), Negative(s)) == s
  {}

  /** The signed codevector as the encoder builds it. */
  function Signed(t: Tables, s: SignedIndex): Vector
    requires Sound(t)
  {
    var c := Entry(t.cb2, Unfolded(s));
    seq(LPCO, k requires 0 <= k < LPCO => if Negative(s) then Negate(c[k]) else c[k])
  }

  // ---- both reconstructions ----

  type FirstIndex = i: nat | i < LSPECBSZ1

  /** The quantised prediction error of the encoder: it negates the codevector and adds. */
  function EncoderError(t: Tables, i1: FirstIndex, s: SignedIndex): Vector
    requires Sound(t)
  {
    seq(LPCO, i requires 0 <= i < LPCO => Shr(Add(Entry(t.cb1, i1)[i], Signed(t, s)[i]), 2))
  }

  /** The quantised prediction error of the decoder: it subtracts the codevector. */
  function DecoderError(t: Tables, i1: FirstIndex, s: SignedIndex): Vector
    requires Sound(t)
  {
    var c1, c2 := Entry(t.cb1, i1), Entry(t.cb2, Unfolded(s));
    seq(LPCO, i requires 0 <= i < LPCO => Shr(if Negative(s) then Sub(c1[i], c2[i]) else Add(c1[i], c2[i]), 2))
  }

  lemma ErrorsAgree(t: Tables, i1: FirstIndex, s: SignedIndex)
    requires Sound(t)
    ensures EncoderError(t, i1, s) == DecoderError(t, i1, s)
  {
    hide Shr;
    forall i | 0 <= i < LPCO
      ensures EncoderError(t, i1, s)[i] == DecoderError(t, i1, s)[i]
    {
      var c2 := Entry(t.cb2, Unfolded(s));
      assert c2[i] == t.cb2[LPCO * Unfolded(s) + i];
    }
  }

  /** The LSP before stabilisation, in the order of the encoder's additions. */
  function EncoderSum(t: Tables, mem: Memory, lspe: Vector): Vector {
    seq(LPCO, i requires 0 <= i < LPCO => Add(Add(t.mean[i], Predicted(t, mem)[i]), lspe[i]))
  }

  /** The LSP before stabilisation, in the order of the decoder's additions. */
  function DecoderSum(t: Tables, mem: Memory, lspe: Vector): Vector {
    seq(LPCO, i requires 0 <= i < LPCO => Add(Add(lspe[i], Predicted(t, mem)[i]), t.mean[i]))
  }

  ghost predicate Saturates(x: int) { x < MIN_16 || x > MAX_16 }

  /**
   When mean, prediction and error give the same sum in either order: no inner sum saturates, or the
   word added last pushes the saturated sum further the same way.
   */
  ghost predicate OrderFree(m: Word16, e: Word16, x: Word16) {
    var me: int, xe: int := (m as int) + e, (x as int) + e;
    || (!Saturates(me) && !Saturates(xe))
    || (me > MAX_16 && x >= 0) || (me < MIN_16 && x <= 0)
    || (xe > MAX_16 && m >= 0) || (xe < MIN_16 && m <= 0)
  }

  lemma SumsAgreeAt(m: Word16, e: Word16, x: Word16)
    ensures Add(Add(m, e), x) == Add(Add(x, e), m) <==> OrderFree(m, e, x)
  {}

  ghost predicate AllOrderFree(t: Tables, mem: Memory, lspe: Vector) {
    forall i :: 0 <= i < LPCO ==> OrderFree(t.mean[i], Predicted(t, mem)[i], lspe[i])
  }

  /** The two orders of addition give the same vector exactly when they do in every coordinate. */
  lemma SumsAgree(t: Tables, mem: Memory, lspe: Vector)
    ensures EncoderSum(t, mem, lspe) == DecoderSum(t, mem, lspe) <==> AllOrderFree(t, mem, lspe)
  {
    hide Predicted, Add, OrderFree;
    var a, b := EncoderSum(t, mem, lspe), DecoderSum(t, mem, lspe);
    forall i | 0 <= i < LPCO
      ensures a[i] == b[i] <==> OrderFree(t.mean[i], Predicted(t, mem)[i], lspe[i])
    {
      SumsAgreeAt(t.mean[i], Predicted(t, mem)[i], lspe[i]);
    }
    if AllOrderFree(t, mem, lspe) { assert forall i :: 0 <= i < LPCO ==> a[i] == b[i]; }
  }

  /** Whether the decoder's bit-error check accepts a frame. */
  ghost predicate Accepts(t: Tables, mem: Memory, lspe: Vector) {
    OrderedFront(DecoderSum(t, mem, lspe), STBLDIM)
  }

  // ---- the encoder's own stability test ----

  /** What the encoder adds the second stage to. */
  function FirstStage(t: Tables, mem: Memory, i1: FirstIndex): Vector
    requires Sound(t)
  {
    seq(LPCO, i requires 0 <= i < LPCO => Add(Add(t.mean[i], Predicted(t, mem)[i]), Shr(Entry(t.cb1, i1)[i], 2)))
  }

  /** The front of the LSP vector as the encoder's search tests it. */
  function Front(t: Tables, xa: Vector, s: SignedIndex): (f: seq<Word16>)
    requires Sound(t)
    ensures |f| == STBLDIM
  {
    var c := Entry(t.cb2, Unfolded(s));
    seq(STBLDIM, k requires 0 <= k < STBLDIM => if Negative(s) then Sub(xa[k], Shr(c[k], 2)) else Add(xa[k], Shr(c[k], 2)))
  }

  /** No sum in the first coordinates comes near the limits of 16 bits. */
  ghost predicate Moderate(elsp: Vector, mean: Vector) {
    forall k :: 0 <= k < STBLDIM ==> -0x5fff <= (mean[k] as int) + elsp[k] <= 0x5fff && -0x5fff <= elsp[k] <= 0x5fff
  }

  /** One coordinate of the test in the encoder's rounding, and in the decoder's. */
  function TestedValue(m: Word16, e: Word16, c1: Word16, c2: Word16, negative: bool): Word16 {
    var xa := Add(Add(m, e), Shr(c1, 2));
    if negative then Sub(xa, Shr(c2, 2)) else Add(xa, Shr(c2, 2))
  }

  function DecodedValue(m: Word16, e: Word16, c1: Word16, c2: Word16, negative: bool): Word16 {
    Add(Add(Shr(if negative then Sub(c1, c2) else Add(c1, c2), 2), e), m)
  }

  /** What the decoder's single rounding makes of the two quarters the encoder rounds apart. */
  function Carry(c1: int, c2: int, negative: bool): int {
    if negative then (if c1 % 4 < c2 % 4 then -1 else 0) else (if c1 % 4 + c2 % 4 >= 4 then 1 else 0)
  }

  lemma RoundingsDifferByCarry(m: Word16, e: Word16, c1: Word16, c2: Word16, negative: bool)
    requires -0x5fff <= m + e <= 0x5fff && -0x5fff <= e <= 0x5fff
    requires -0x6000 <= c1 <= 0x6000 && -0x1fff <= c2 <= 0x1fff
    ensures DecodedValue(m, e, c1, c2, negative) as int == TestedValue(m, e, c1, c2, negative) as int + Carry(c1, c2, negative)
  {
    hide Shr;
    QuarterOf(c1);
    QuarterOf(c2);
    if negative { QuarterOf(c1 - c2); } else { QuarterOf(c1 + c2); }
  }

  function CarryAt(t: Tables, i1: FirstIndex, s: SignedIndex, k: Coordinate): int
    requires Sound(t)
  {
    Carry(Entry(t.cb1, i1)[k], Entry(t.cb2, Unfolded(s))[k], Negative(s))
  }

  /** The decoder's front is the encoder's plus the carry. */
  lemma FrontPlusCarry(t: Tables, mem: Memory, i1: FirstIndex, s: SignedIndex, k: nat)
    requires Sound(t) && k < STBLDIM && Moderate(Predicted(t, mem), t.mean)
    ensures DecoderSum(t, mem, DecoderError(t, i1, s))[k] as int
         == Front(t, FirstStage(t, mem, i1), s)[k] as int + CarryAt(t, i1, s, k)
  {
    hide Predicted, Shr, Add, Sub, Carry;
    var e := Predicted(t, mem);
    var c1, c2 := Entry(t.cb1, i1)[k], Entry(t.cb2, Unfolded(s))[k];
    assert c1 == t.cb1[LPCO * i1 + k] && c2 == t.cb2[LPCO * Unfolded(s) + k];
    RoundingsDifferByCarry(t.mean[k], e[k], c1, c2, Negative(s));
  }

  lemma QuarterOf(c: int)
    requires MIN_16 <= c <= MAX_16
    ensures Shr(c, 2) == c / 4
  {
    assert TwoTo(2) == 4;
  }

  /**
   The decoder accepts a frame exactly when the front the encoder tests is in order after its carries;
   so what the encoder's test accepts is rejected exactly when a carry closes a gap of zero.
   */
  lemma AcceptsExactly(t: Tables, mem: Memory, i1: FirstIndex, s: SignedIndex)
    requires Sound(t) && Moderate(Predicted(t, mem), t.mean)
    ensures var f := Front(t, FirstStage(t, mem, i1), s);
      Accepts(t, mem, DecoderError(t, i1, s)) <==>
      0 <= f[0] as int + CarryAt(t, i1, s, 0) <= f[1] as int + CarryAt(t, i1, s, 1) <= f[2] as int + CarryAt(t, i1, s, 2)
  {
    hide Predicted, Front, FirstStage, DecoderSum, DecoderError, Moderate, Sound, CarryAt;
    FrontPlusCarry(t, mem, i1, s, 0);
    FrontPlusCarry(t, mem, i1, s, 1);
    FrontPlusCarry(t, mem, i1, s, 2);
    InOrder(DecoderSum(t, mem, DecoderError(t, i1, s)));
  }

  /** A margin of one in the encoder's test is enough. */
  lemma MarginIsEnough(t: Tables, mem: Memory, i1: FirstIndex, s: SignedIndex)
    requires Sound(t) && Moderate(Predicted(t, mem), t.mean)
    requires var f := Front(t, FirstStage(t, mem, i1), s); 1 <= f[0] && f[0] < f[1] < f[2]
    ensures Accepts(t, mem, DecoderError(t, i1, s))
  {
    hide Predicted, Front, FirstStage, DecoderError, Moderate, Sound, Accepts, Entry;
    AcceptsExactly(t, mem, i1, s);
  }

  lemma InOrder(v: Vector)
    ensures OrderedFront(v, STBLDIM) <==> 0 <= v[0] <= v[1] <= v[2]
  {
    if OrderedFront(v, STBLDIM) { assert v[1 - 1] <= v[1] && v[2 - 1] <= v[2]; }
  }

  // ---- the loops both sides share ----

  /** The moving-average prediction. */
  method Predict(t: Tables, lsppm: array<Word16>, ghost mem: Memory) returns (elsp: array<Word16>)
    requires lsppm[..] == mem
    ensures fresh(elsp) && elsp[..] == Predicted(t, mem)
  {
    hide LMac, LShl, IntRound;
    elsp := new Word16[LPCO](_ => 0);
    for i := 0 to LPCO
      invariant forall k :: 0 <= k < i ==> elsp[k] == Predicted(t, mem)[k]
      modifies elsp
    {
      var a0: Word32 := 0;
      for k := 0 to LSPPORDER
        invariant a0 == Accumulated(t, mem, i, k)
      {
        a0 := LMac(a0, t.predictor[LSPPORDER * i + k], lsppm[LSPPORDER * i + k]);
      }
      elsp[i] := IntRound(LShl(a0, 1));
    }
  }

  /** One group of the memory, from its oldest value down. */
  method ShiftGroup(lsppm: array<Word16>, i: Coordinate)
    requires lsppm.Length == MEMORY
    modifies lsppm
    ensures forall p :: 0 <= p < MEMORY ==>
      lsppm[p] == old(lsppm[if LSPPORDER * i < p < LSPPORDER * i + LSPPORDER then p - 1 else p])
  {
    ghost var before := lsppm[..];
    var k := LSPPORDER;
    while k > 1
      invariant 1 <= k <= LSPPORDER
      invariant forall p :: 0 <= p < LSPPORDER * i + k ==> lsppm[p] == before[p]
      invariant forall p :: LSPPORDER * i + k <= p < LSPPORDER * i + LSPPORDER ==> lsppm[p] == before[p - 1]
      invariant forall p :: LSPPORDER * i + LSPPORDER <= p < MEMORY ==> lsppm[p] == before[p]
    {
      k := k - 1;
      lsppm[LSPPORDER * i + k] := lsppm[LSPPORDER * i + k - 1];
    }
  }

  lemma UpdatedGroup(mem: Memory, e: Vector, i: Coordinate)
    ensures forall p :: LSPPORDER * i <= p < LSPPORDER * i + LSPPORDER ==>
      Updated(mem, e)[p] == if p == LSPPORDER * i then e[i] else mem[p - 1]
  {}

  /** The walk of two pointers down the memory. */
  method UpdateMemory(lsppm: array<Word16>, lspe: array<Word16>, ghost mem: Memory, ghost e: Vector)
    requires lsppm[..] == mem && lspe[..] == e && lsppm != lspe
    modifies lsppm
    ensures lsppm[..] == Updated(mem, e)
  {
    hide Updated;
    var i := LPCO - 1;
    while i >= 0
      invariant -1 <= i < LPCO
      invariant forall p :: 0 <= p < LSPPORDER * (i + 1) ==> lsppm[p] == mem[p]
      invariant forall p :: LSPPORDER * (i + 1) <= p < MEMORY ==> lsppm[p] == Updated(mem, e)[p]
    {
      ShiftGroup(lsppm, i);
      lsppm[LSPPORDER * i] := lspe[i];
      UpdatedGroup(mem, e, i);
      i := i - 1;
    }
  }

  // ---- the searches ----

  /** The squared error of a codevector over its first k coordinates. */
  function SquaredError(x: Vector, c: Vector, k: nat): Word32
    requires k <= LPCO
  {
    if k == 0 then 0 else LMac0(SquaredError(x, c, k - 1), Sub(x[k - 1], c[k - 1]), Sub(x[k - 1], c[k - 1]))
  }

  lemma NegativeDifference(a: Word32, b: Word32)
    ensures LSub(a, b) < 0 <==> a < b
  {}

  /**
   vqmse: the first nearest codevector. When every error saturates, the index keeps the value it had
   before the call.
   */
  method VqMse(x: Vector, t: Tables, before: FirstIndex) returns (xq: Vector, idx: FirstIndex)
    requires Sound(t)
    ensures xq == Entry(t.cb1, idx)
    ensures forall j: FirstIndex :: SquaredError(x, Entry(t.cb1, j), LPCO) < MAX_32 ==>
      SquaredError(x, Entry(t.cb1, idx), LPCO) <= SquaredError(x, Entry(t.cb1, j), LPCO)
    ensures (forall j: FirstIndex :: SquaredError(x, Entry(t.cb1, j), LPCO) == MAX_32) ==> idx == before
  {
    hide LMac0, LSub, Sub;
    var dmin: Word32 := MAX_32;
    idx := before;
    for j := 0 to LSPECBSZ1
      invariant if dmin == MAX_32 then idx == before else dmin == SquaredError(x, Entry(t.cb1, idx), LPCO)
      invariant forall i: FirstIndex :: i < j ==> dmin <= SquaredError(x, Entry(t.cb1, i), LPCO)
    {
      var d: Word32 := 0;
      for k := 0 to LPCO
        invariant d == SquaredError(x, Entry(t.cb1, j), k)
      {
        var e := Sub(x[k], t.cb1[LPCO * j + k]);
        d := LMac0(d, e, e);
      }
      NegativeDifference(d, dmin);
      if LSub(d, dmin) < 0 {
        dmin := d;
        idx := j;
      }
    }
    xq := t.cb1[LPCO * idx..LPCO * idx + LPCO];
  }

  // ---- weights of the second search ----

  predicate Rising(v: Vector) { forall i :: 0 <= i < LPCO - 1 ==> v[i] < v[i + 1] }

  /** An LSP vector as the codec analyses it: the fractional divisions need its values to be rising. */
  type Spectrum = v: Vector | Rising(v) witness [0, 1, 2, 3, 4, 5, 6, 7]

  function Gap(lsp: Spectrum, i: nat): (g: Word16)
    requires i < LPCO - 1
    ensures g > 0
  {
    Sub(lsp[i + 1], lsp[i])
  }

  /** The least of the first n gaps. */
  function Narrowest(lsp: Spectrum, n: nat): (m: Word16)
    requires n < LPCO
    ensures m > 0 && forall i :: 0 <= i < n ==> m <= Gap(lsp, i)
    ensures n > 0 ==> exists i :: 0 <= i < n && m == Gap(lsp, i)
  {
    if n == 0 then MAX_16
    else if Gap(lsp, n - 1) < Narrowest(lsp, n - 1) then Gap(lsp, n - 1) else Narrowest(lsp, n - 1)
  }

  /** The gap to the closer neighbour. */
  function Nearness(lsp: Spectrum, i: Coordinate): (g: Word16)
    ensures g > 0 && g >= Narrowest(lsp, LPCO - 1)
    ensures i > 0 ==> g <= Gap(lsp, i - 1)
    ensures i < LPCO - 1 ==> g <= Gap(lsp, i)
  {
    if i == 0 then Gap(lsp, 0)
    else if i == LPCO - 1 || Gap(lsp, i) >= Gap(lsp, i - 1) then Gap(lsp, i - 1)
    else Gap(lsp, i)
  }

  function WeightOf(narrowest: Word16, nearness: Word16): Word16
    requires 0 < narrowest <= nearness
  {
    Shr(DivS(narrowest, nearness), 1)
  }

  function WeightsOf(lsp: Spectrum): (w: Vector)
    ensures forall i :: 0 <= i < LPCO ==> w[i] == WeightOf(Narrowest(lsp, LPCO - 1), Nearness(lsp, i))
  {
    seq(LPCO, i requires 0 <= i < LPCO => WeightOf(Narrowest(lsp, LPCO - 1), Nearness(lsp, i)))
  }

  lemma HalfOf(v: Word16)
    ensures Shr(v, 1) as int == v / 2
  {
    assert TwoTo(1) == 2;
  }

  /** The weight falls as the gap to the closer neighbour grows. */
  lemma WeightFalls(m: Word16, g: Word16, g': Word16)
    requires 0 < m <= g <= g'
    ensures 0 <= WeightOf(m, g') <= WeightOf(m, g) <= 16383 && WeightOf(m, m) == 16383
  {
    QuotientFalls(m * 0x8000, g, g');
    QuotientFalls(m * 0x8000, m, g);
    HalfOf(DivS(m, g));
    HalfOf(DivS(m, g'));
    HalfOf(DivS(m, m));
    hide Shr;
  }

  /** The weight is the quotient of the two gaps in Q14, floored; for equal gaps one less than one. */
  lemma WeightIs(m: Word16, g: Word16)
    requires 0 < m <= g
    ensures m == g ==> WeightOf(m, g) == 16383
    ensures m < g ==> WeightOf(m, g) as int == 0x4000 * m / g
  {
    HalfOf(DivS(m, g));
    hide Shr;
    if m < g { HalvedQuotient(m, g); }
  }

  lemma HalvedQuotient(m: int, g: int)
    requires 0 < m && 0 < g
    ensures m * 0x8000 / g / 2 == 0x4000 * m / g
  {
    var q, r := 0x4000 * m / g, 0x4000 * m % g;
    assert m * 0x8000 == g * (2 * q) + 2 * r by { assert 0x4000 * m == g * q + r; TwiceProduct(g, q); }
    var b := if 2 * r < g then 0 else 1;
    assert g * (2 * q + b) == g * (2 * q) + g * b by { TwoParts(g, 2 * q, b); }
    DivUnique(m * 0x8000, g, 2 * q + b, 2 * r - g * b);
  }

  lemma TwiceProduct(g: int, q: int)
    ensures g * (2 * q) == 2 * (g * q)
  {}

  lemma TwoParts(g: int, x: int, y: int)
    ensures g * (x + y) == g * x + g * y
  {}

  lemma QuotientFalls(n: int, g: int, g': int)
    requires 0 <= n && 0 < g <= g'
    ensures 0 <= n / g' <= n / g
  {
    var a, b := n / g, n / g';
    assert n == g * a + n % g && n == g' * b + n % g';
    if a < b {
      MulNat(g, b - a - 1, g, b - a - 1);
      MulNat(g' - g, b, g' - g, b);
      Spread(g, a, b, g');
    }
  }

  lemma Spread(g: int, a: int, b: int, g': int)
    ensures g * (b - a - 1) == g * b - g * a - g && (g' - g) * b == g' * b - g * b
  {}

  /**
   The weights lie between 0 and 16383, a value closer to its neighbour never weighs less, and a value
   beside the narrowest gap has the full weight.
   */
  lemma WeightsRank(lsp: Spectrum, i: Coordinate, k: Coordinate)
    ensures 0 <= WeightsOf(lsp)[i] <= 16383
    ensures Nearness(lsp, i) <= Nearness(lsp, k) ==> WeightsOf(lsp)[k] <= WeightsOf(lsp)[i]
    ensures Nearness(lsp, i) == Narrowest(lsp, LPCO - 1) ==> WeightsOf(lsp)[i] == 16383
  {
    hide WeightOf, Narrowest, Nearness;
    WeightFalls(Narrowest(lsp, LPCO - 1), Nearness(lsp, i), Nearness(lsp, i));
    if Nearness(lsp, i) <= Nearness(lsp, k) {
      WeightFalls(Narrowest(lsp, LPCO - 1), Nearness(lsp, i), Nearness(lsp, k));
    }
  }

  lemma NarrowestStart(lsp: Spectrum)
    ensures Narrowest(lsp, 0) == MAX_16
  {}

  lemma NarrowestStep(lsp: Spectrum, i: nat)
    requires i < LPCO - 1
    ensures Gap(lsp, i) == Sub(lsp[i + 1], lsp[i])
    ensures Narrowest(lsp, i + 1) == if Gap(lsp, i) < Narrowest(lsp, i) then Gap(lsp, i) else Narrowest(lsp, i)
  {
    hide Sub;
  }

  /** The differences and their minimum. */
  method Gaps(lsp: Spectrum) returns (d: array<Word16>, least: Word16)
    ensures fresh(d) && d.Length == LPCO - 1 && forall k :: 0 <= k < LPCO - 1 ==> d[k] == Gap(lsp, k)
    ensures least == Narrowest(lsp, LPCO - 1)
  {
    hide Sub, Gap, Narrowest, Rising;
    d, least := new Word16[LPCO - 1](_ => 0), MAX_16;
    NarrowestStart(lsp);
    for i := 0 to LPCO - 1
      invariant least == Narrowest(lsp, i) && forall k :: 0 <= k < i ==> d[k] == Gap(lsp, k)
    {
      NarrowestStep(lsp, i);
      d[i] := Sub(lsp[i + 1], lsp[i]);
      if d[i] < least { least := d[i]; }
    }
  }

  /** The weights from neighbouring differences. */
  method Weights(lsp: Spectrum) returns (w: Vector)
    ensures w == WeightsOf(lsp)
  {
    var d, least := Gaps(lsp);
    hide DivS, Shr, Gap, Narrowest, Rising;
    var a: seq<Word16> := [Shr(DivS(least, d[0]), 1)];
    for i := 1 to LPCO - 1
      invariant |a| == i && forall k :: 0 <= k < i ==> a[k] == WeightOf(least, Nearness(lsp, k))
    {
      ghost var near := Nearness(lsp, i);
      assert near == if d[i] < d[i - 1] then d[i] else d[i - 1];
      hide Nearness;
      a := a + [if d[i] < d[i - 1] then Shr(DivS(least, d[i]), 1) else Shr(DivS(least, d[i - 1]), 1)];
    }
    assert Nearness(lsp, LPCO - 1) == d[LPCO - 2];
    hide Nearness, WeightsOf;
    w := a + [Shr(DivS(least, d[LPCO - 2]), 1)];
  }

  // ---- the second search ----

  function Difference(x: Word16, c: Word16, negative: bool): Word16 {
    if negative then Add(x, c) else Sub(x, c)
  }

  /** The weighted error of a signed codevector over its first k coordinates. */
  function WeightedError(x: Vector, w: Vector, c: Vector, negative: bool, k: nat): Word32
    requires k <= LPCO
  {
    if k == 0 then 0
    else
      var e := Difference(x[k - 1], c[k - 1], negative);
      LMac0(WeightedError(x, w, c, negative, k - 1), Mult(w[k - 1], e), e)
  }

  function ErrorOf(x: Vector, w: Vector, t: Tables, s: SignedIndex): Word32
    requires Sound(t)
  {
    WeightedError(x, w, Entry(t.cb2, Unfolded(s)), Negative(s), LPCO)
  }

  /** A signed codevector the search may choose: stable, with an error that does not saturate. */
  ghost predicate Eligible(x: Vector, xa: Vector, w: Vector, t: Tables, s: SignedIndex)
    requires Sound(t)
  {
    ErrorOf(x, w, t, s) < MAX_32 && OrderedFront(Front(t, xa, s), STBLDIM)
  }

  /** One try of one sign: whether the candidate is better than the best so far and stable. */
  method Try(x: Vector, xa: Vector, w: Vector, t: Tables, j: nat, negative: bool, dmin: Word32) returns (better: bool, d: Word32)
    requires Sound(t) && j < LSPECBSZ2
    ensures d == ErrorOf(x, w, t, Fold(j, negative))
    ensures better <==> d < dmin && OrderedFront(Front(t, xa, Fold(j, negative)), STBLDIM)
  {
    hide LMac0, LSub, Mult, Shr, OrderedFront, Add, Sub;
    FoldUnfold(j, negative, 0);
    ghost var c := Entry(t.cb2, j);
    d := 0;
    for k := 0 to LPCO
      invariant d == WeightedError(x, w, c, negative, k)
    {
      var e := if negative then Add(x[k], t.cb2[LPCO * j + k]) else Sub(x[k], t.cb2[LPCO * j + k]);
      var we := Mult(w[k], e);
      d := LMac0(d, we, e);
    }
    NegativeDifference(d, dmin);
    better := false;
    if LSub(d, dmin) < 0 {
      var xqc: seq<Word16> := [];
      for k := 0 to STBLDIM
        invariant xqc == Front(t, xa, Fold(j, negative))[..k]
      {
        var q := Shr(t.cb2[LPCO * j + k], 2);
        xqc := xqc + [if negative then Sub(xa[k], q) else Add(xa[k], q)];
      }
      WholeFront(xqc, Front(t, xa, Fold(j, negative)));
      better := Stblchck(xqc, STBLDIM);
    }
  }

  lemma WholeFront(a: seq<Word16>, f: seq<Word16>)
    requires |f| == STBLDIM && a == f[..STBLDIM]
    ensures a == f && OrderedFront(a, STBLDIM) == OrderedFront(f, STBLDIM)
  {}

  /** What the search has found among the candidates tried so far. */
  ghost predicate BestSoFar(x: Vector, xa: Vector, w: Vector, t: Tables, found: bool, best: SignedIndex, dmin: Word32, j: nat, half: bool)
    requires Sound(t)
  {
    && (if found then Eligible(x, xa, w, t, best) && dmin == ErrorOf(x, w, t, best) else dmin == MAX_32)
    && forall s: SignedIndex :: Eligible(x, xa, w, t, s) && (Unfolded(s) < j || (half && Unfolded(s) == j && Negative(s))) ==>
      found && dmin <= ErrorOf(x, w, t, s)
  }

  lemma OneTry(x: Vector, xa: Vector, w: Vector, t: Tables, found: bool, best: SignedIndex, dmin: Word32, j: nat, half: bool, better: bool)
    requires Sound(t) && j < LSPECBSZ2 && BestSoFar(x, xa, w, t, found, best, dmin, j, half)
    requires var s := Fold(j, !half);
      better <==> ErrorOf(x, w, t, s) < dmin && OrderedFront(Front(t, xa, s), STBLDIM)
    ensures var s := Fold(j, !half);
      BestSoFar(x, xa, w, t, found || better, if better then s else best, if better then ErrorOf(x, w, t, s) else dmin,
                if half then j + 1 else j, !half)
  {
    hide Front, OrderedFront, ErrorOf, Sound;
    FoldUnfold(j, !half, best);
    forall s: SignedIndex
      ensures Fold(Unfolded(s), Negative(s)) == s
    {
      FoldUnfold(j, half, s);
    }
  }

  /**
   svqwmse: the best signed codevector that keeps the front of the LSP vector stable, its sign folded
   into the index; index 0 with a plus when there is none.
   */
  method SvqWmse(x: Vector, xa: Vector, w: Vector, t: Tables) returns (xq: Vector, idx: SignedIndex)
    requires Sound(t)
    ensures xq == Signed(t, idx)
    ensures forall s: SignedIndex :: Eligible(x, xa, w, t, s) ==>
      Eligible(x, xa, w, t, idx) && ErrorOf(x, w, t, idx) <= ErrorOf(x, w, t, s)
    ensures (forall s: SignedIndex :: !Eligible(x, xa, w, t, s)) ==> idx == 0
  {
    hide Eligible, ErrorOf, Front, OrderedFront, Negate;
    var dmin: Word32 := MAX_32;
    var index, sign := -1, 1;
    ghost var best: SignedIndex := 0;
    for j := 0 to LSPECBSZ2
      invariant BestSoFar(x, xa, w, t, index != -1, best, dmin, j, false)
      invariant -1 <= index < j && (sign == 1 || sign == -1)
      invariant index != -1 ==> best == Fold(index, sign == -1)
    {
      hide BestSoFar;
      var better, d := Try(x, xa, w, t, j, true, dmin);
      OneTry(x, xa, w, t, index != -1, best, dmin, j, false, better);
      if better {
        dmin, index, sign := d, j, -1;
        best := Fold(j, true);
      }
      better, d := Try(x, xa, w, t, j, false, dmin);
      OneTry(x, xa, w, t, index != -1, best, dmin, j, true, better);
      if better {
        dmin, index, sign := d, j, 1;
        best := Fold(j, false);
      }
    }
    if index == -1 { index, sign := 0, 1; }
    FoldUnfold(index, sign == -1, best);
    xq := t.cb2[LPCO * index..LPCO * index + LPCO];
    if sign == -1 { xq := NegateAll(xq); }
    idx := if sign < 0 then Sub(2 * LSPECBSZ2 - 1, index) else index;
  }

  method NegateAll(c: Vector) returns (xq: Vector)
    ensures forall k :: 0 <= k < LPCO ==> xq[k] == Negate(c[k])
  {
    hide Negate;
    xq := c;
    for k := 0 to LPCO
      invariant forall i :: 0 <= i < k ==> xq[i] == Negate(c[i])
      invariant forall i :: k <= i < LPCO ==> xq[i] == c[i]
    {
      xq := xq[k := Negate(xq[k])];
    }
  }

  // ---- a frame on each side ----

  function TargetOf(t: Tables, mem: Memory, lsp: Vector): Vector {
    seq(LPCO, i requires 0 <= i < LPCO => Shl(Sub(Sub(lsp[i], t.mean[i]), Predicted(t, mem)[i]), 2))
  }

  function Residual(target: Vector, c: Vector): Vector {
    seq(LPCO, i requires 0 <= i < LPCO => Sub(target[i], c[i]))
  }

  /** The second index is the best one among the eligible ones, given the first. */
  ghost predicate SecondIsBest(t: Tables, mem: Memory, lsp: Spectrum, i1: FirstIndex, i2: SignedIndex)
    requires Sound(t)
  {
    var d, xa, w := Residual(TargetOf(t, mem, lsp), Entry(t.cb1, i1)), FirstStage(t, mem, i1), WeightsOf(lsp);
    && (forall s: SignedIndex :: Eligible(d, xa, w, t, s) ==>
         Eligible(d, xa, w, t, i2) && ErrorOf(d, w, t, i2) <= ErrorOf(d, w, t, s))
    && ((forall s: SignedIndex :: !Eligible(d, xa, w, t, s)) ==> i2 == 0)
  }

  ghost predicate FirstIsNearest(t: Tables, x: Vector, i1: FirstIndex)
    requires Sound(t)
  {
    forall j: FirstIndex :: SquaredError(x, Entry(t.cb1, j), LPCO) < MAX_32 ==>
      SquaredError(x, Entry(t.cb1, i1), LPCO) <= SquaredError(x, Entry(t.cb1, j), LPCO)
  }

  /** What the encoder prepares for its two searches. */
  method Prepare(t: Tables, lsp: Vector, elsp: array<Word16>, ghost mem: Memory, before: FirstIndex)
    returns (eq1: Vector, i1: FirstIndex, d: Vector, lspa: Vector)
    requires Sound(t) && elsp[..] == Predicted(t, mem)
    ensures eq1 == Entry(t.cb1, i1) && FirstIsNearest(t, TargetOf(t, mem, lsp), i1)
    ensures d == Residual(TargetOf(t, mem, lsp), eq1) && lspa == FirstStage(t, mem, i1)
  {
    hide Predicted, Shl, Sub, Shr, Add;
    var lspe := seq(LPCO, i requires 0 <= i < LPCO && elsp.Length == LPCO reads elsp => Shl(Sub(Sub(lsp[i], t.mean[i]), elsp[i]), 2));
    assert lspe == TargetOf(t, mem, lsp);
    eq1, i1 := VqMse(lspe, t, before);
    d := seq(LPCO, i requires 0 <= i < LPCO => Sub(lspe[i], eq1[i]));
    lspa := seq(LPCO, i requires 0 <= i < LPCO && elsp.Length == LPCO reads elsp => Add(Add(t.mean[i], elsp[i]), Shr(eq1[i], 2)));
  }

  /**
   lspquan: the indices, and the memory and LSP vector that go with them. `before` is
   what the first index held.
   */
  method Lspquan(t: Tables, lsp: Spectrum, lsppm: array<Word16>, before: FirstIndex, ghost mem: Memory)
    returns (lspq: array<int>, i1: FirstIndex, i2: SignedIndex)
    requires Sound(t) && lsppm[..] == mem
    modifies lsppm
    ensures FirstIsNearest(t, TargetOf(t, mem, lsp), i1) && SecondIsBest(t, mem, lsp, i1, i2)
    ensures lsppm[..] == Updated(mem, EncoderError(t, i1, i2))
    ensures fresh(lspq) && lspq[..] == Stabilized(EncoderSum(t, mem, EncoderError(t, i1, i2))) && WellSpaced(lspq[..])
  {
    hide Predicted, Add, Shr, FirstIsNearest, Eligible, ErrorOf, TargetOf, FirstStage, Updated, Stabilized, Signed, Sound, WellSpaced, WeightsOf;
    var w := Weights(lsp);
    var elsp := Predict(t, lsppm, mem);
    var eq1, d, lspa;
    eq1, i1, d, lspa := Prepare(t, lsp, elsp, mem, before);
    var eq2;
    eq2, i2 := SvqWmse(d, lspa, w, t);
    ghost var error := EncoderError(t, i1, i2);
    var lspe := new Word16[LPCO](i requires 0 <= i < LPCO => Shr(Add(eq1[i], eq2[i]), 2));
    assert lspe[..] == error;
    UpdateMemory(lsppm, lspe, mem, error);
    lspq := AddUp(t, elsp, lspe, mem, error);
    StblzLsp(lspq);
  }

  method AddUp(t: Tables, elsp: array<Word16>, lspe: array<Word16>, ghost mem: Memory, ghost error: Vector) returns (lspq: array<int>)
    requires elsp[..] == Predicted(t, mem) && lspe[..] == error
    ensures fresh(lspq) && lspq[..] == EncoderSum(t, mem, error)
  {
    hide Predicted, Add;
    lspq := new int[LPCO];
    for i := 0 to LPCO
      invariant forall k :: 0 <= k < i ==> lspq[k] == EncoderSum(t, mem, error)[k]
      modifies lspq
    {
      lspq[i] := Add(Add(t.mean[i], elsp[i]), lspe[i]);
    }
  }

  /** The error that explains the last LSP vector, for a frame that is replaced by it. */
  function Replacement(t: Tables, mem: Memory, last: Vector): Vector {
    seq(LPCO, i requires 0 <= i < LPCO => Sub(Sub(last[i], Predicted(t, mem)[i]), t.mean[i]))
  }

  /** The error the decoder goes on with. */
  ghost function Received(t: Tables, mem: Memory, lspe: Vector, last: Vector): Vector {
    if Accepts(t, mem, lspe) then lspe else Replacement(t, mem, last)
  }

  ghost function ReceivedSum(t: Tables, mem: Memory, lspe: Vector, last: Vector): Vector {
    if Accepts(t, mem, lspe) then DecoderSum(t, mem, lspe) else last
  }

  /** The decoded prediction error. */
  method DecodeError(t: Tables, i1: FirstIndex, i2: SignedIndex) returns (lspe: array<Word16>)
    requires Sound(t)
    ensures fresh(lspe) && lspe[..] == DecoderError(t, i1, i2)
  {
    hide Shr, Add;
    var idx: int, sign := i2, 1;
    if i2 >= LSPECBSZ2 { sign, idx := -1, Sub(2 * LSPECBSZ2 - 1, i2); }
    lspe := new Word16[LPCO](_ => 0);
    for i := 0 to LPCO
      invariant forall k :: 0 <= k < i ==> lspe[k] == DecoderError(t, i1, i2)[k]
      modifies lspe
    {
      var c1, c2 := t.cb1[LPCO * i1 + i], t.cb2[LPCO * idx + i];
      lspe[i] := Shr(if sign == 1 then Add(c1, c2) else Sub(c1, c2), 2);
    }
  }

  /** The check on the front, and the rest of the vector or its replacement. */
  method CheckAndFinish(t: Tables, elsp: array<Word16>, lspe: array<Word16>, last: Vector, ghost mem: Memory, ghost error: Vector)
    returns (lspq: array<int>, stbl: bool)
    requires elsp[..] == Predicted(t, mem) && lspe[..] == error && lspe != elsp
    modifies lspe
    ensures stbl <==> Accepts(t, mem, error)
    ensures fresh(lspq) && lspq[..] == ReceivedSum(t, mem, error, last) && lspe[..] == Received(t, mem, error, last)
  {
    hide Predicted, Add, Sub, OrderedFront;
    ghost var sum := DecoderSum(t, mem, error);
    lspq := new int[LPCO];
    for i := 0 to STBLDIM
      invariant forall k :: 0 <= k < i ==> lspq[k] == sum[k]
      modifies lspq
    {
      lspq[i] := Add(Add(lspe[i], elsp[i]), t.mean[i]);
    }
    stbl := Stblchck(lspq[..], STBLDIM);
    SameFront(lspq[..], sum);
    if !stbl {
      for i := 0 to LPCO
        invariant forall k :: 0 <= k < i ==> lspq[k] == last[k] && lspe[k] == Replacement(t, mem, last)[k]
        modifies lspq, lspe
      {
        lspq[i] := last[i];
        lspe[i] := Sub(Sub(last[i], elsp[i]), t.mean[i]);
      }
    } else {
      for i := STBLDIM to LPCO
        invariant forall k :: 0 <= k < i ==> lspq[k] == sum[k]
        modifies lspq
      {
        lspq[i] := Add(Add(lspe[i], elsp[i]), t.mean[i]);
      }
    }
  }

  lemma SameFront(a: seq<int>, v: Vector)
    requires |a| == LPCO && a[0] == v[0] && a[1] == v[1] && a[2] == v[2]
    ensures OrderedFront(a, STBLDIM) <==> OrderedFront(v, STBLDIM)
  {}

  /** lspdec. */
  method Lspdec(t: Tables, i1: FirstIndex, i2: SignedIndex, lsppm: array<Word16>, last: Vector, ghost mem: Memory)
    returns (lspq: array<int>, stbl: bool)
    requires Sound(t) && lsppm[..] == mem
    modifies lsppm
    ensures stbl <==> Accepts(t, mem, DecoderError(t, i1, i2))
    ensures lsppm[..] == Updated(mem, Received(t, mem, DecoderError(t, i1, i2), last))
    ensures fresh(lspq) && lspq[..] == Stabilized(ReceivedSum(t, mem, DecoderError(t, i1, i2), last)) && WellSpaced(lspq[..])
  {
    hide Predicted, Updated, Stabilized, Received, ReceivedSum, Accepts, WellSpaced, Sound;
    var elsp := Predict(t, lsppm, mem);
    var lspe := DecodeError(t, i1, i2);
    ghost var error := DecoderError(t, i1, i2);
    lspq, stbl := CheckAndFinish(t, elsp, lspe, last, mem, error);
    UpdateMemory(lsppm, lspe, mem, Received(t, mem, error, last));
    StblzLsp(lspq);
  }

  // ---- both sides together ----

  lemma UpdatedIsInjective(mem: Memory, a: Vector, b: Vector)
    requires Updated(mem, a) == Updated(mem, b)
    ensures a == b
  {
    forall i | 0 <= i < LPCO
      ensures a[i] == b[i]
    {
      UpdatedGroup(mem, a, i);
      UpdatedGroup(mem, b, i);
      assert Updated(mem, a)[LSPPORDER * i] == a[i];
    }
  }

  /**
   One frame from equal memories: they stay equal exactly when the decoder's check accepts the frame,
   or replaces it by an error that happens to be the same; and the vectors of an accepted frame are the
   same before stabilisation exactly when the order of the additions does not matter.
   */
  lemma FrameInStep(t: Tables, mem: Memory, i1: FirstIndex, i2: SignedIndex, last: Vector)
    requires Sound(t)
    ensures var e := EncoderError(t, i1, i2);
      && e == DecoderError(t, i1, i2)
      && (Updated(mem, e) == Updated(mem, Received(t, mem, e, last)) <==> Accepts(t, mem, e) || Replacement(t, mem, last) == e)
      && (Accepts(t, mem, e) ==> (EncoderSum(t, mem, e) == ReceivedSum(t, mem, e, last) <==> AllOrderFree(t, mem, e)))
  {
    hide Updated, Accepts, Predicted, Replacement, Sound, EncoderSum, DecoderSum, AllOrderFree;
    ErrorsAgree(t, i1, i2);
    var e := EncoderError(t, i1, i2);
    if Updated(mem, e) == Updated(mem, Received(t, mem, e, last)) {
      UpdatedIsInjective(mem, e, Received(t, mem, e, last));
    }
    SumsAgree(t, mem, e);
  }

  // ---- runs ----

  datatype Indices = Indices(first: FirstIndex, second: SignedIndex)

  function NoMemory(): Memory { seq(MEMORY, _ => 0) }

  /** A stabilised vector fits in 16-bit words again. */
  function StableVector(v: Vector): (r: Vector)
    ensures r == Stabilized(v)
  {
    StabilizedFits(v);
    Stabilized(v)
  }

  lemma StabilizedFits(v: Vector)
    ensures forall i :: 0 <= i < LPCO ==> MIN_16 <= Stabilized(v)[i] <= MAX_16
  {
    StabilizedIsWellSpaced(v);
    hide Stabilized;
  }

  function SentError(t: Tables, x: Indices): Vector
    requires Sound(t)
  {
    EncoderError(t, x.first, x.second)
  }

  /** The encoder's memory after it has sent some indices from reset. */
  function EncoderMemory(t: Tables, sent: seq<Indices>): Memory
    requires Sound(t)
  {
    if |sent| == 0 then NoMemory()
    else Updated(EncoderMemory(t, sent[..|sent| - 1]), SentError(t, sent[|sent| - 1]))
  }

  /** The encoder's LSP vector of the next frame. */
  function EncodedLsp(t: Tables, sent: seq<Indices>, x: Indices): Vector
    requires Sound(t)
  {
    StableVector(EncoderSum(t, EncoderMemory(t, sent), SentError(t, x)))
  }

  /** What the decoder keeps from frame to frame: its memory and its last LSP vector. */
  datatype DecoderState = DecoderState(mem: Memory, last: Vector)

  ghost function DecodeNext(t: Tables, d: DecoderState, x: Indices): DecoderState
    requires Sound(t)
  {
    DecoderState(Updated(d.mem, Received(t, d.mem, DecoderError(t, x.first, x.second), d.last)),
                 StableVector(ReceivedSum(t, d.mem, DecoderError(t, x.first, x.second), d.last)))
  }

  ghost function DecoderAfter(t: Tables, sent: seq<Indices>, start: Vector): DecoderState
    requires Sound(t)
  {
    if |sent| == 0 then DecoderState(NoMemory(), start)
    else DecodeNext(t, DecoderAfter(t, sent[..|sent| - 1], start), sent[|sent| - 1])
  }

  /** Whether the decoder accepts x as the next frame. */
  ghost predicate AcceptsNext(t: Tables, sent: seq<Indices>, start: Vector, x: Indices)
    requires Sound(t)
  {
    Accepts(t, DecoderAfter(t, sent, start).mem, DecoderError(t, x.first, x.second))
  }

  ghost predicate AllAccepted(t: Tables, sent: seq<Indices>, start: Vector)
    requires Sound(t)
  {
    forall k :: 0 <= k < |sent| ==> AcceptsNext(t, sent[..k], start, sent[k])
  }

  lemma AcceptedBefore(t: Tables, sent: seq<Indices>, start: Vector, n: nat)
    requires Sound(t) && AllAccepted(t, sent, start) && n <= |sent|
    ensures AllAccepted(t, sent[..n], start)
  {
    hide AcceptsNext, Sound;
    forall k | 0 <= k < n
      ensures AcceptsNext(t, sent[..n][..k], start, sent[..n][k])
    {
      assert sent[..n][..k] == sent[..k] && AcceptsNext(t, sent[..k], start, sent[k]);
    }
  }

  /** Main result: as long as the decoder accepts every frame, the two memories are equal. */
  lemma {:induction false} RunInStep(t: Tables, sent: seq<Indices>, start: Vector)
    requires Sound(t) && AllAccepted(t, sent, start)
    ensures EncoderMemory(t, sent) == DecoderAfter(t, sent, start).mem
  {
    if |sent| > 0 {
      var n := |sent| - 1;
      var rest, x := sent[..n], sent[n];
      assert AcceptsNext(t, rest, start, x);
      AcceptedBefore(t, sent, start, n);
      RunInStep(t, rest, start);
      hide AllAccepted, Updated, StableVector, ReceivedSum, Accepts, EncoderError, DecoderError, Sound;
      ErrorsAgree(t, x.first, x.second);
    }
  }

  /**
   And the LSP vectors of a further accepted frame come from equal sums exactly when the order of the
   additions does not matter, so then they are equal too.
   */
  lemma LspInStep(t: Tables, sent: seq<Indices>, start: Vector, x: Indices)
    requires Sound(t) && AllAccepted(t, sent, start) && AcceptsNext(t, sent, start, x)
    ensures var d, e := DecoderAfter(t, sent, start), SentError(t, x);
      EncoderSum(t, EncoderMemory(t, sent), e) == ReceivedSum(t, d.mem, e, d.last) <==> AllOrderFree(t, d.mem, e)
    ensures AllOrderFree(t, EncoderMemory(t, sent), SentError(t, x)) ==>
      EncodedLsp(t, sent, x) == DecodeNext(t, DecoderAfter(t, sent, start), x).last
  {
    hide AllAccepted, Updated, Stabilized, EncoderSum, EncoderError, DecoderError, AllOrderFree, ReceivedSum, Accepts, Received, Sound;
    RunInStep(t, sent, start);
    FrameInStep(t, EncoderMemory(t, sent), x.first, x.second, DecoderAfter(t, sent, start).last);
  }

  /** What the encoder's search promises of the indices of a frame. */
  ghost predicate Chosen(t: Tables, mem: Memory, input: Spectrum, x: Indices)
    requires Sound(t)
  {
    FirstIsNearest(t, TargetOf(t, mem, input), x.first) && SecondIsBest(t, mem, input, x.first, x.second)
  }

  method AsVector(d: array<int>) returns (v: Vector)
    requires d.Length == LPCO && WellSpaced(d[..])
    ensures v == d[..]
  {
    assert forall i :: 0 <= i < LPCO ==> LSPMIN <= d[..][i] <= LSPMAX;
    v := d[..];
  }

  /** One frame through both sides. */
  method BothSides(t: Tables, input: Spectrum, encoder: array<Word16>, decoder: array<Word16>, before: FirstIndex,
                   last: Vector, ghost mem: Memory, ghost d: DecoderState)
    returns (x: Indices, encoded: Vector, next: Vector, stbl: bool)
    requires Sound(t) && encoder != decoder
    requires encoder[..] == mem && decoder[..] == d.mem && last == d.last
    modifies encoder, decoder
    ensures Chosen(t, mem, input, x)
    ensures encoder[..] == Updated(mem, SentError(t, x)) && encoded == StableVector(EncoderSum(t, mem, SentError(t, x)))
    ensures decoder[..] == DecodeNext(t, d, x).mem && next == DecodeNext(t, d, x).last
    ensures stbl <==> Accepts(t, d.mem, DecoderError(t, x.first, x.second))
  {
    hide Updated, Accepts, EncoderError, DecoderError, Stabilized, SecondIsBest, FirstIsNearest, EncoderSum, Sound;
    var i1, i2, e, lsp;
    e, i1, i2 := Lspquan(t, input, encoder, before, mem);
    lsp, stbl := Lspdec(t, i1, i2, decoder, last, d.mem);
    x := Indices(i1, i2);
    encoded := AsVector(e);
    next := AsVector(lsp);
  }

  /** A frame of a run: the indices sent, both LSP vectors, and the decoder's verdict. */
  datatype Frame = Frame(x: Indices, encoded: Vector, decoded: Vector, accepted: bool)

  function SentIn(trace: seq<Frame>): (sent: seq<Indices>)
    ensures |sent| == |trace| && forall k :: 0 <= k < |trace| ==> sent[k] == trace[k].x
  {
    seq(|trace|, k requires 0 <= k < |trace| => trace[k].x)
  }

  lemma SentPrefix(trace: seq<Frame>, k: nat)
    requires k <= |trace|
    ensures SentIn(trace[..k]) == SentIn(trace)[..k]
  {}

  /** The indices follow the search, and vectors and verdict are those of the specification. */
  ghost predicate FrameHolds(t: Tables, input: Spectrum, start: Vector, sent: seq<Indices>, f: Frame)
    requires Sound(t)
  {
    && Chosen(t, EncoderMemory(t, sent), input, f.x)
    && f.encoded == EncodedLsp(t, sent, f.x) && f.decoded == DecodeNext(t, DecoderAfter(t, sent, start), f.x).last
    && (f.accepted <==> AcceptsNext(t, sent, start, f.x))
  }

  ghost predicate RunHolds(t: Tables, inputs: seq<Spectrum>, start: Vector, trace: seq<Frame>)
    requires Sound(t)
  {
    |trace| <= |inputs| && forall k :: 0 <= k < |trace| ==> FrameHolds(t, inputs[k], start, SentIn(trace[..k]), trace[k])
  }

  lemma RunGrows(t: Tables, inputs: seq<Spectrum>, start: Vector, trace: seq<Frame>, f: Frame)
    requires Sound(t) && RunHolds(t, inputs, start, trace) && |trace| < |inputs|
    requires FrameHolds(t, inputs[|trace|], start, SentIn(trace), f)
    ensures RunHolds(t, inputs, start, trace + [f])
    ensures SentIn(trace + [f]) == SentIn(trace) + [f.x]
  {
    hide FrameHolds, Sound;
    var longer := trace + [f];
    assert longer[..|trace|] == trace;
    forall k | 0 <= k < |longer|
      ensures FrameHolds(t, inputs[k], start, SentIn(longer[..k]), longer[k])
    {
      if k < |trace| { assert longer[..k] == trace[..k]; }
    }
  }

  lemma StatesAfter(t: Tables, start: Vector, sent: seq<Indices>, x: Indices)
    requires Sound(t)
    ensures EncoderMemory(t, sent + [x]) == Updated(EncoderMemory(t, sent), SentError(t, x))
    ensures DecoderAfter(t, sent + [x], start) == DecodeNext(t, DecoderAfter(t, sent, start), x)
  {
    hide Sound, Updated, DecodeNext, SentError;
    assert (sent + [x])[..|sent|] == sent;
  }

  lemma StatesAtReset(t: Tables, start: Vector)
    requires Sound(t)
    ensures EncoderMemory(t, SentIn([])) == NoMemory() && DecoderAfter(t, SentIn([]), start) == DecoderState(NoMemory(), start)
  {}

  /** The verdicts of a run are all good exactly when the specification accepts all frames. */
  lemma Verdicts(t: Tables, inputs: seq<Spectrum>, start: Vector, trace: seq<Frame>)
    requires Sound(t) && RunHolds(t, inputs, start, trace)
    ensures (forall k :: 0 <= k < |trace| ==> trace[k].accepted) <==> AllAccepted(t, SentIn(trace), start)
  {
    hide AcceptsNext, Sound, Chosen, EncodedLsp, DecodeNext;
    forall k | 0 <= k < |trace|
      ensures trace[k].accepted <==> AcceptsNext(t, SentIn(trace)[..k], start, SentIn(trace)[k])
    {
      SentPrefix(trace, k);
      assert FrameHolds(t, inputs[k], start, SentIn(trace[..k]), trace[k]);
    }
  }

  /**
   Main result over the loops: for any LSP vectors the indices are those of the search, memories, vectors
   and the decoder's own verdicts are those of the specification, and when all verdicts are good the
   two memories are equal.
   */
  method LossFreeRun(t: Tables, inputs: seq<Spectrum>, start: Vector)
    returns (encoder: array<Word16>, decoder: array<Word16>, trace: seq<Frame>)
    requires Sound(t)
    ensures |trace| == |inputs| && RunHolds(t, inputs, start, trace)
    ensures encoder[..] == EncoderMemory(t, SentIn(trace)) && decoder[..] == DecoderAfter(t, SentIn(trace), start).mem
    ensures (forall k :: 0 <= k < |trace| ==> trace[k].accepted) <==> AllAccepted(t, SentIn(trace), start)
    ensures AllAccepted(t, SentIn(trace), start) ==> encoder[..] == decoder[..]
  {
    hide Updated, Sound, RunHolds, EncoderMemory, DecoderAfter, DecodeNext, Chosen, AllAccepted, StableVector, SentIn;
    encoder, decoder := new Word16[MEMORY](_ => 0), new Word16[MEMORY](_ => 0);
    trace := [];
    StatesAtReset(t, start);
    assert RunHolds(t, inputs, start, []) by { NothingRun(t, inputs, start); }
    assert encoder[..] == NoMemory() && decoder[..] == NoMemory();
    var last, i1: FirstIndex := start, 0;
    for k := 0 to |inputs|
      invariant fresh(encoder) && fresh(decoder) && encoder != decoder
      invariant |trace| == k && RunHolds(t, inputs, start, trace)
      invariant encoder[..] == EncoderMemory(t, SentIn(trace))
      invariant decoder[..] == DecoderAfter(t, SentIn(trace), start).mem && last == DecoderAfter(t, SentIn(trace), start).last
    {
      ghost var sent := SentIn(trace);
      var x, e, stbl;
      x, e, last, stbl := BothSides(t, inputs[k], encoder, decoder, i1, last, EncoderMemory(t, sent), DecoderAfter(t, sent, start));
      i1 := x.first;
      StatesAfter(t, start, sent, x);
      RunGrows(t, inputs, start, trace, Frame(x, e, last, stbl));
      trace := trace + [Frame(x, e, last, stbl)];
    }
    Verdicts(t, inputs, start, trace);
    if AllAccepted(t, SentIn(trace), start) { RunInStep(t, SentIn(trace), start); }
  }

  /** The vectors of a run whose frames are all accepted, where the order of the additions does not matter. */
  lemma VectorsInStep(t: Tables, inputs: seq<Spectrum>, start: Vector, trace: seq<Frame>, k: nat)
    requires Sound(t) && RunHolds(t, inputs, start, trace) && AllAccepted(t, SentIn(trace), start) && k < |trace|
    requires AllOrderFree(t, EncoderMemory(t, SentIn(trace[..k])), SentError(t, trace[k].x))
    ensures trace[k].encoded == trace[k].decoded
  {
    hide EncodedLsp, DecodeNext, Chosen, Sound, EncoderMemory, DecoderAfter, AllOrderFree;
    SentPrefix(trace, k);
    AcceptedBefore(t, SentIn(trace), start, k);
    assert FrameHolds(t, inputs[k], start, SentIn(trace[..k]), trace[k]);
    LspInStep(t, SentIn(trace[..k]), start, trace[k].x);
  }

  lemma NothingRun(t: Tables, inputs: seq<Spectrum>, start: Vector)
    requires Sound(t)
    ensures RunHolds(t, inputs, start, [])
  {}
}
