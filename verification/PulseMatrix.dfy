/**
 computeImpulseResponseCorrelationMatrix and computePhiDiagonal of fixedCodebookSearch.c: the
 matrix is filled one diagonal at a time, in 32-bit words that never overflow.
 */
module PulseMatrix {
  import opened Arithmetic
  import opened BasicOps
  import opened PulseEnergy

  const LIMIT := 0xf99_999b

  /** A 32-bit addition without overflow. */
  function Add32(a: int, b: int): (r: Word32)
    requires MIN_32 <= a + b <= MAX_32
  {
    a + b
  }

  function Mult16(a: Word16, b: Word16): (r: Word32) {
    ProductRange(a, b);
    a * b
  }

  /** The autocorrelation sum, and the word formed to measure it, fit 32 bits. */
  ghost predicate FitsWord(h: Response) {
    2 * (Total(h) / 2) + 0x333_3333 <= MAX_32
  }

  /** PhiScaling: zero up to 0x6666666, then one more bit for each further doubling. */
  function Scaling(half: int): (S: nat)
    requires 0 <= 2 * half <= MAX_32 - 0x333_3333
    ensures S <= 3
  {
    if half > 0x666_6666 then
      ScalingBound(2 * half + 0x333_3333);
      3 - NormL(2 * half + 0x333_3333)
    else 0
  }

  function ScalingOf(h: Response): (S: nat)
    requires FitsWord(h)
    ensures S <= 3
  {
    SelfBounds(h, 0, L_SUBFRAME);
    Scaling(Total(h) / 2)
  }

  lemma ScalingBound(x: Word32)
    requires 0x1000_0000 < x
    ensures NormL(x) <= 2
  {
    if NormL(x) >= 3 {
      assert TwoTo(3) == 8;
      PowersGrow(3, NormL(x));
      MulNat(8, x, TwoTo(NormL(x)), x);
    }
  }

  /** The scaling is the one that brings twice the largest diagonal entry, with its margin, below 2^28, and no more. */
  lemma ScalingIsLeast(half: int)
    requires 0x666_6666 < half && 2 * half <= MAX_32 - 0x333_3333
    ensures 1 <= Scaling(half) <= 3
    ensures TwoTo(27 + Scaling(half)) <= 2 * half + 0x333_3333 < TwoTo(28 + Scaling(half))
  {
    var x: Word32 := 2 * half + 0x333_3333;
    ScalingBound(x);
    var n := NormL(x);
    TopPowers();
    assert TwoTo(0) == 1 && TwoTo(1) == 2 && TwoTo(2) == 4;
    hide TwoTo, NormL;
    assert n == 0 || n == 1 || n == 2;
  }

  lemma TopPowers()
    ensures TwoTo(28) == 0x1000_0000 && TwoTo(29) == 0x2000_0000 && TwoTo(30) == 0x4000_0000 && TwoTo(31) == 0x8000_0000
  {
    assert TwoTo(8) == 256 by { assert TwoTo(4) == 16; }
    assert TwoTo(16) == 0x1_0000 by { assert TwoTo(12) == 0x1000; }
    assert TwoTo(24) == 0x100_0000 by { assert TwoTo(20) == 0x10_0000; }
  }

  /** Every scaled entry, of either sign, and twice every diagonal entry stay within LIMIT. */
  lemma EntryRange(h: Response, p: Pulse, q: Pulse)
    requires FitsWord(h)
    ensures -LIMIT <= Entry(h, ScalingOf(h), p, q) <= LIMIT
  {
    hide Inner, Signed, Scaling;
    var M, S := Total(h), ScalingOf(h);
    InnerBounds(h, p.pos, q.pos);
    ScaledTotal(M / 2);
    var x := Inner(h, p.pos, q.pos, L_SUBFRAME);
    FloorRange(x, M, TwoTo(S));
    ScaledLimit(M, S, TwoTo(S));
    SignTimes(p.sign, q.sign, x / TwoTo(S));
  }

  lemma ScaledLimit(M: int, S: nat, P: int)
    requires 1 <= P <= 8 && 0 <= M && (S == 0 <==> P == 1)
    requires if S == 0 then M / 2 <= 0x666_6666 else 2 * (M / 2) + 0x333_3333 < 0x1000_0000 * P
    ensures M / P + (if P == 1 then 0 else 1) <= LIMIT
  {
    if P > 1 {
      assert M == P * (M / P) + M % P;
      if M / P > LIMIT - 1 {
        MulNat(P, M / P - LIMIT, P, M / P - LIMIT);
      }
    }
  }

  lemma SignTimes(s: Sign, r: Sign, x: int)
    ensures Signed(s, r, x) == x || Signed(s, r, x) == -x
  {}

  lemma DiagonalRange(h: Response, m: Position)
    requires FitsWord(h)
    ensures 0 <= 2 * Diagonal(h, ScalingOf(h), m) <= LIMIT
  {
    hide Inner;
    var M, S := Total(h), ScalingOf(h);
    SelfBounds(h, m, L_SUBFRAME);
    ScaledTotal(M / 2);
    FloorRange(Inner(h, m, m, L_SUBFRAME) / 2, M / 2, TwoTo(S));
  }

  /** How far the scaled total stays below the limit. */
  lemma ScaledTotal(half: int)
    requires 0 <= 2 * half <= MAX_32 - 0x333_3333
    ensures var S := Scaling(half);
      if S == 0 then half <= 0x666_6666
      else 2 * half + 0x333_3333 < 0x1000_0000 * TwoTo(S) && TwoTo(S) <= 8
  {
    if half > 0x666_6666 {
      var x := 2 * half + 0x333_3333;
      ScalingBound(x);
      var n := NormL(x);
      assert TwoTo(0) == 1 && TwoTo(1) == 2 && TwoTo(2) == 4 && TwoTo(3) == 8;
      if n == 0 {
      } else if n == 1 {
      } else {
        assert n == 2;
      }
    }
  }

  // ---- the matrix ----

  /** What a filled matrix holds; positions on the same track share a remainder modulo 5. */
  ghost predicate Filled(Phi: array2<int>, h: Response, S: nat, sign: seq<Sign>)
    requires Phi.Length0 == Phi.Length1 == L_SUBFRAME == |sign|
    reads Phi
  {
    && (forall m: Position {:trigger Phi[m, m]} :: Phi[m, m] == Diagonal(h, S, m))
    && (forall i: Position, j: Position {:trigger Phi[i, j]} :: i % 5 != j % 5 ==>
          Phi[i, j] == Entry(h, S, Pulse(i, sign[i]), Pulse(j, sign[j])))
  }

  /** A diagonal from (39, start) up to (39 - start, 0) holds the scaled inner products. */
  ghost predicate DiagonalDone(Phi: array2<int>, h: Response, S: nat, start: int)
    requires Phi.Length0 == Phi.Length1 == L_SUBFRAME
    reads Phi
  {
    forall i: Position, j: Position {:trigger Phi[i, j]} :: i - j == L_SUBFRAME - 1 - start ==>
      Phi[i, j] == Inner(h, i, j, L_SUBFRAME) / TwoTo(S)
  }

  /** The running sum of a diagonal is the inner product of its next element. */
  lemma RunningSum(h: Response, i: Position, j: Position)
    requires j <= i
    ensures Lagged(h, i - j, L_SUBFRAME - i) == Inner(h, i, j, L_SUBFRAME)
    ensures -Total(h) <= Lagged(h, i - j, L_SUBFRAME - i) <= Total(h)
  {
    InnerShift(h, i, j, L_SUBFRAME);
    InnerBounds(h, i, j);
  }

  /** computePhiDiagonal. */
  method ComputePhiDiagonal(start: Position, h: Response, Phi: array2<int>, S: nat)
    requires Phi.Length0 == Phi.Length1 == L_SUBFRAME && start < L_SUBFRAME - 1 && FitsWord(h)
    modifies Phi
    ensures DiagonalDone(Phi, h, S, start)
    ensures forall i: Position, j: Position {:trigger Phi[i, j]} ::
      i - j != L_SUBFRAME - 1 - start ==> Phi[i, j] == old(Phi[i, j])
  {
    hide Inner, Total;
    var acc: Word32 := 0;
    var j, i, iComp, jComp: int := start, L_SUBFRAME - 1, 0, L_SUBFRAME - 1 - start;
    while j >= 0
      invariant -1 <= j <= start && i - j == L_SUBFRAME - 1 - start
      invariant iComp == L_SUBFRAME - 1 - i && jComp == L_SUBFRAME - 1 - j
      invariant acc == Lagged(h, L_SUBFRAME - 1 - start, iComp)
      invariant forall a: Position, b: Position {:trigger Phi[a, b]} ::
        a - b == L_SUBFRAME - 1 - start && b > j ==> Phi[a, b] == Inner(h, a, b, L_SUBFRAME) / TwoTo(S)
      invariant forall a: Position, b: Position {:trigger Phi[a, b]} ::
        a - b != L_SUBFRAME - 1 - start ==> Phi[a, b] == old(Phi[a, b])
      decreases j
    {
      RunningSum(h, i, j);
      acc := Add32(acc, Mult16(h[iComp], h[jComp]));
      Phi[i, j] := if S == 0 then acc else acc / TwoTo(S);
      j, i, jComp, iComp := j - 1, i - 1, jComp + 1, iComp + 1;
    }
  }

  /** The signs of a signal: zero counts as positive. */
  function SignOf(x: int): Sign { if x >= 0 then 1 else -1 }

  function Opposite(s: Sign): Sign { if s == 1 then -1 else 1 }

  /** The first loop: half the running energy goes down the main diagonal. */
  method FillMainDiagonal(h: Response, Phi: array2<int>)
    requires Phi.Length0 == Phi.Length1 == L_SUBFRAME && FitsWord(h)
    modifies Phi
    ensures forall m: Position {:trigger Phi[m, m]} :: Phi[m, m] == Inner(h, m, m, L_SUBFRAME) / 2
  {
    hide Inner, Total;
    var acc: Word32 := 0;
    for i := 0 to L_SUBFRAME
      invariant acc == Lagged(h, 0, i)
      invariant forall m: Position {:trigger Phi[m, m]} ::
        m >= L_SUBFRAME - i ==> Phi[m, m] == Inner(h, m, m, L_SUBFRAME) / 2
    {
      var iComp: Position := L_SUBFRAME - 1 - i;
      RunningSum(h, iComp, iComp);
      acc := Add32(acc, Mult16(h[i], h[i]));
      Phi[iComp, iComp] := acc / 2;
    }
  }

  /** The scaling of the main diagonal, when the total demands one. */
  method ScaleMainDiagonal(h: Response, Phi: array2<int>) returns (S: nat)
    requires Phi.Length0 == Phi.Length1 == L_SUBFRAME && FitsWord(h)
    requires forall m: Position {:trigger Phi[m, m]} :: Phi[m, m] == Inner(h, m, m, L_SUBFRAME) / 2
    modifies Phi
    ensures S == ScalingOf(h)
    ensures forall m: Position {:trigger Phi[m, m]} :: Phi[m, m] == Diagonal(h, S, m)
  {
    hide Inner;
    SelfBounds(h, 0, L_SUBFRAME);
    assert TwoTo(0) == 1;
    var first: Position := 0;
    assert Phi[first, first] == Total(h) / 2;
    S := 0;
    if Phi[0, 0] > 0x666_6666 {
      S := Scaling(Phi[0, 0]);
      for i := 0 to L_SUBFRAME
        invariant forall m: Position {:trigger Phi[m, m]} ::
          Phi[m, m] == if m < i then Diagonal(h, S, m) else Inner(h, m, m, L_SUBFRAME) / 2
      {
        var m: Position := i;
        assert Phi[m, m] == Inner(h, m, m, L_SUBFRAME) / 2;
        Phi[i, i] := Phi[i, i] / TwoTo(S);
      }
    }
  }

  /** A diagonal the search needs: its two tracks differ. */
  predicate Needed(start: int) { 0 <= start < L_SUBFRAME - 1 && start % 5 != 4 }

  /** The loops over all diagonals but 34, 29, 24, 19, 14, 9, 4 and the main one. */
  method FillDiagonals(h: Response, Phi: array2<int>, S: nat)
    requires Phi.Length0 == Phi.Length1 == L_SUBFRAME && FitsWord(h)
    modifies Phi
    ensures forall d: int :: Needed(d) ==> DiagonalDone(Phi, h, S, d)
    ensures forall m: Position {:trigger Phi[m, m]} :: Phi[m, m] == old(Phi[m, m])
  {
    hide Inner, Total;
    for i := 0 to 8
      invariant forall d: int :: Needed(d) && d < 5 * i ==> DiagonalDone(Phi, h, S, d)
      invariant forall m: Position {:trigger Phi[m, m]} :: Phi[m, m] == old(Phi[m, m])
    {
      for j := 0 to 4
        invariant forall d: int :: Needed(d) && d < 5 * i + j ==> DiagonalDone(Phi, h, S, d)
        invariant forall m: Position {:trigger Phi[m, m]} :: Phi[m, m] == old(Phi[m, m])
      {
        label Before:
        ComputePhiDiagonal(5 * i + j, h, Phi, S);
        forall d: int | Needed(d) && d < 5 * i + j
          ensures DiagonalDone(Phi, h, S, d)
        {
          assert old@Before(DiagonalDone(Phi, h, S, d));
        }
      }
    }
  }

  /** The correlation signal becomes its absolute value; its signs, and their inverses, are kept. */
  method TakeSigns(signal: array<Word16>) returns (sign: array<Sign>, inverse: array<Sign>)
    requires signal.Length == L_SUBFRAME
    requires forall i :: 0 <= i < L_SUBFRAME ==> signal[i] > MIN_16
    modifies signal
    ensures fresh(sign) && fresh(inverse) && sign.Length == inverse.Length == L_SUBFRAME
    ensures forall i :: 0 <= i < L_SUBFRAME ==>
      sign[i] == SignOf(old(signal[i])) && inverse[i] == Opposite(sign[i]) && signal[i] == sign[i] * old(signal[i])
  {
    sign, inverse := new Sign[L_SUBFRAME](_ => 1), new Sign[L_SUBFRAME](_ => 1);
    for i := 0 to L_SUBFRAME
      modifies signal, sign, inverse
      invariant forall k :: 0 <= k < i ==>
        sign[k] == SignOf(old(signal[k])) && inverse[k] == Opposite(sign[k]) && signal[k] == sign[k] * old(signal[k])
      invariant forall k :: i <= k < L_SUBFRAME ==> signal[k] == old(signal[k])
    {
      if signal[i] >= 0 {
        sign[i], inverse[i] := 1, -1;
      } else {
        sign[i], inverse[i] := -1, 1;
        signal[i] := 0 - signal[i];
      }
    }
  }

  /** Equation 56: element (i, j), j <= i, is multiplied by both signs. */
  method ApplySigns(Phi: array2<int>, sign: array<Sign>, inverse: array<Sign>)
    requires Phi.Length0 == Phi.Length1 == sign.Length == inverse.Length == L_SUBFRAME
    requires forall i :: 0 <= i < L_SUBFRAME ==> inverse[i] == Opposite(sign[i])
    modifies Phi
    ensures forall i: Position, j: Position {:trigger Phi[i, j]} ::
      Phi[i, j] == if j <= i then Signed(sign[i], sign[j], old(Phi[i, j])) else old(Phi[i, j])
  {
    for i := 0 to L_SUBFRAME
      invariant forall a: Position, b: Position {:trigger Phi[a, b]} ::
        Phi[a, b] == if b <= a < i then Signed(sign[a], sign[b], old(Phi[a, b])) else old(Phi[a, b])
    {
      var signOfJ := if sign[i] > 0 then sign else inverse;
      for j := 0 to i + 1
        invariant forall a: Position, b: Position {:trigger Phi[a, b]} ::
          Phi[a, b] == if b <= a && (a < i || (a == i && b < j)) then Signed(sign[a], sign[b], old(Phi[a, b]))
                       else old(Phi[a, b])
      {
        var a: Position, b: Position := i, j;
        assert Phi[a, b] == old(Phi[a, b]);
        assert signOfJ[j] == sign[i] * sign[j];
        Phi[i, j] := Phi[i, j] * signOfJ[j];
        SignTimes(sign[i], sign[j], old(Phi[a, b]));
      }
    }
  }

  /** The needed elements below the main diagonal are copied above it. */
  method Duplicate(Phi: array2<int>)
    requires Phi.Length0 == Phi.Length1 == L_SUBFRAME
    modifies Phi
    ensures forall i: Position, j: Position {:trigger Phi[i, j]} ::
      Phi[i, j] == if i < j && i % 5 != j % 5 then old(Phi[j, i]) else old(Phi[i, j])
  {
    for i := 0 to 8
      invariant forall a: Position, b: Position {:trigger Phi[a, b]} ::
        Phi[a, b] == if a < b && Copied(a, b, 5 * i) then old(Phi[b, a]) else old(Phi[a, b])
    {
      for j := 0 to 4
        invariant forall a: Position, b: Position {:trigger Phi[a, b]} ::
          Phi[a, b] == if a < b && Copied(a, b, 5 * i + j) then old(Phi[b, a]) else old(Phi[a, b])
      {
        var start := 5 * i + j;
        for k := 0 to start + 1
          invariant forall a: Position, b: Position {:trigger Phi[a, b]} ::
            Phi[a, b] == if a < b && (Copied(a, b, start) || (b - a == L_SUBFRAME - 1 - start && b > L_SUBFRAME - 1 - k))
                         then old(Phi[b, a]) else old(Phi[a, b])
        {
          var low: Position, high: Position := start - k, L_SUBFRAME - 1 - k;
          assert Phi[high, low] == old(Phi[high, low]);
          Phi[start - k, L_SUBFRAME - 1 - k] := Phi[L_SUBFRAME - 1 - k, start - k];
        }
      }
    }
  }

  predicate Copied(a: int, b: int, start: int) {
    L_SUBFRAME - 1 - (b - a) < start && (b - a) % 5 != 0
  }

  /** computeImpulseResponseCorrelationMatrix. */
  method ComputeMatrix(h: Response, signal: array<Word16>)
    returns (sign: array<Sign>, Phi: array2<int>, ghost S: nat)
    requires signal.Length == L_SUBFRAME && FitsWord(h)
    requires forall i :: 0 <= i < L_SUBFRAME ==> signal[i] > MIN_16
    modifies signal
    ensures fresh(sign) && fresh(Phi) && sign.Length == Phi.Length0 == Phi.Length1 == L_SUBFRAME
    ensures S == ScalingOf(h) && Filled(Phi, h, S, sign[..])
    ensures forall i :: 0 <= i < L_SUBFRAME ==>
      sign[i] == SignOf(old(signal[i])) && signal[i] == sign[i] * old(signal[i])
  {
    hide Inner, TwoTo, Signed, SignOf, Opposite;
    Phi := new int[L_SUBFRAME, L_SUBFRAME];
    FillMainDiagonal(h, Phi);
    var scaling := ScaleMainDiagonal(h, Phi);
    S := scaling;
    FillDiagonals(h, Phi, scaling);
    var inverse;
    sign, inverse := TakeSigns(signal);
    label Unsigned:
    ApplySigns(Phi, sign, inverse);
    label Signed:
    Duplicate(Phi);
    forall m: Position
      ensures Phi[m, m] == Diagonal(h, S, m)
    {
      assert old@Unsigned(Phi[m, m]) == Diagonal(h, S, m);
      assert Phi[m, m] == old@Signed(Phi[m, m]) == Signed(sign[m], sign[m], old@Unsigned(Phi[m, m]));
      SignedSelf(sign[m], Diagonal(h, S, m));
    }
    forall i: Position, j: Position | i % 5 != j % 5
      ensures Phi[i, j] == Entry(h, S, Pulse(i, sign[i]), Pulse(j, sign[j]))
    {
      var a, b := if j < i then i else j, if j < i then j else i;
      assert Needed(L_SUBFRAME - 1 - (a - b));
      assert old@Unsigned(DiagonalDone(Phi, h, S, L_SUBFRAME - 1 - (a - b)));
      assert old@Unsigned(Phi[a, b]) == Inner(h, a, b, L_SUBFRAME) / TwoTo(S);
      assert old@Signed(Phi[a, b]) == Signed(sign[a], sign[b], old@Unsigned(Phi[a, b]));
      assert Phi[i, j] == old@Signed(Phi[a, b]);
      EntrySymmetric(h, S, Pulse(a, sign[a]), Pulse(b, sign[b]));
    }
  }

  lemma SignedSelf(s: Sign, x: int)
    ensures Signed(s, s, x) == x
  {}

  lemma EntrySymmetric(h: Response, S: nat, p: Pulse, q: Pulse)
    ensures Entry(h, S, p, q) == Entry(h, S, q, p)
  {
    InnerSymmetric(h, p.pos, q.pos, L_SUBFRAME);
  }
}
