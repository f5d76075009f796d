/**
 Line spectral pairs to predictor coefficients, in exact arithmetic: the half-length expansion of
 qLSP2LP.c (lines 34-94) and the full-length one of lsp2a.c (lines 37-94). z stands for the delay z^-1.
 */
module LspPolynomials {

  // ---- the reference: products of second-order factors ----

  /** One factor 1 - 2 q z + z^2 at work on three neighbouring coefficients. */
  function Tap(q: real, a: real, b: real, c: real): real {
    a - 2.0 * q * b + c
  }

  lemma TapTurned(q: real, a: real, b: real, c: real)
    ensures Tap(q, a, b, c) == Tap(q, c, b, a)
    ensures Tap(q, 0.0, 0.0, 0.0) == 0.0 && Tap(q, a, 0.0, 0.0) == a
  {}

  /** Coefficient i of the product of the factors 1 - 2 q z + z^2. */
  function Coef(q: seq<real>, i: int): real
    decreases |q|
  {
    if i < 0 then 0.0
    else if |q| == 0 then (if i == 0 then 1.0 else 0.0)
    else
      var rest, last := q[..|q| - 1], q[|q| - 1];
      Tap(last, Coef(rest, i), Coef(rest, i - 1), Coef(rest, i - 2))
  }

  lemma CoefStep(q: seq<real>, n: nat, i: int)
    requires n < |q|
    ensures Coef(q[..n + 1], i) == Tap(q[n], Coef(q[..n], i), Coef(q[..n], i - 1), Coef(q[..n], i - 2))
  {
    if i < 0 { Vanish(q[..n], i); TapTurned(q[n], 0.0, 0.0, 0.0); }
    hide Tap;
    assert q[..n + 1][..n] == q[..n];
  }

  lemma Vanish(q: seq<real>, i: int)
    requires i < 0
    ensures Coef(q, i) == 0.0 == Coef(q, i - 1) == Coef(q, i - 2)
  {}

  lemma {:induction false} CoefOutside(q: seq<real>, i: int)
    requires i < 0 || i > 2 * |q|
    ensures Coef(q, i) == 0.0
    decreases |q|
  {
    if i > 0 && |q| > 0 {
      TapTurned(q[|q| - 1], 0.0, 0.0, 0.0);
      hide Tap;
      var rest := q[..|q| - 1];
      CoefOutside(rest, i);
      CoefOutside(rest, i - 1);
      CoefOutside(rest, i - 2);
    }
  }

  lemma {:induction false} CoefZero(q: seq<real>)
    ensures Coef(q, 0) == 1.0
    decreases |q|
  {
    if |q| > 0 {
      CoefZero(q[..|q| - 1]);
      TapTurned(q[|q| - 1], 1.0, 0.0, 0.0);
    }
  }

  /** The products are palindromes. */
  lemma {:induction false} Palindrome(q: seq<real>, i: int)
    ensures Coef(q, i) == Coef(q, 2 * |q| - i)
    decreases |q|
  {
    hide Tap;
    if |q| > 0 {
      var n, rest := |q| - 1, q[..|q| - 1];
      assert q[..n + 1] == q;
      CoefStep(q, n, i);
      CoefStep(q, n, 2 * |q| - i);
      Palindrome(rest, i);
      Palindrome(rest, i - 1);
      Palindrome(rest, i - 2);
      hide Coef;
      TapTurned(q[n], Coef(rest, i), Coef(rest, i - 1), Coef(rest, i - 2));
    } else {
      PalindromeOfOne(q, i);
    }
  }

  lemma PalindromeOfOne(q: seq<real>, i: int)
    requires |q| == 0
    ensures Coef(q, i) == Coef(q, -i)
  {}

  // ---- polynomials as functions of z ----

  function Power(z: real, n: nat): real {
    if n == 0 then 1.0 else z * Power(z, n - 1)
  }

  /** The value at z of the polynomial with coefficients c(0) to c(n). */
  function Sum(c: int -> real, n: int, z: real): real
    decreases n
  {
    if n < 0 then 0.0 else Sum(c, n - 1, z) + c(n) * Power(z, n)
  }

  /** The product itself, as a function of z. */
  function Product(q: seq<real>, z: real): real {
    if |q| == 0 then 1.0
    else Product(q[..|q| - 1], z) * (1.0 - 2.0 * q[|q| - 1] * z + z * z)
  }

  /** A factor at work on three partial sums. */
  function Fold(q: real, z: real, s: real, s1: real, s2: real): real {
    s - 2.0 * q * z * s1 + z * z * s2
  }

  function Scale(x: real, p: real): real { x * p }

  function Term(c: int -> real, n: int, z: real): real {
    if n < 0 then 0.0 else Scale(c(n), Power(z, n))
  }

  lemma SumTerm(c: int -> real, n: int, z: real)
    ensures Sum(c, n, z) == Sum(c, n - 1, z) + Term(c, n, z)
  {}

  lemma {:induction false} SumStep(f: int -> real, g: int -> real, q: real, n: int, z: real)
    requires forall i :: g(i) == Tap(q, f(i), f(i - 1), f(i - 2))
    requires forall i :: i < 0 ==> f(i) == 0.0
    ensures Sum(g, n, z) == Fold(q, z, Sum(f, n, z), Sum(f, n - 1, z), Sum(f, n - 2, z))
    decreases n
  {
    hide Fold, Tap, Term, Power;
    if n >= 0 {
      SumStep(f, g, q, n - 1, z);
      TermStep(f, g, q, n, z);
      hide Sum;
      SumTerm(g, n, z);
      SumTerm(f, n, z);
      SumTerm(f, n - 1, z);
      SumTerm(f, n - 2, z);
      FoldAdds(q, z, Sum(f, n - 1, z), Sum(f, n - 2, z), Sum(f, n - 3, z), Term(f, n, z), Term(f, n - 1, z), Term(f, n - 2, z));
    } else {
      FoldZero(q, z);
    }
  }

  lemma FoldZero(q: real, z: real)
    ensures Fold(q, z, 0.0, 0.0, 0.0) == 0.0
  {}

  lemma FoldAdds(q: real, z: real, s: real, s1: real, s2: real, t: real, t1: real, t2: real)
    ensures Fold(q, z, s, s1, s2) + Fold(q, z, t, t1, t2) == Fold(q, z, s + t, s1 + t1, s2 + t2)
  {
    assert 2.0 * q * z * (s1 + t1) == 2.0 * q * z * s1 + 2.0 * q * z * t1;
    assert z * z * (s2 + t2) == z * z * s2 + z * z * t2;
  }

  lemma TermStep(f: int -> real, g: int -> real, q: real, n: nat, z: real)
    requires g(n) == Tap(q, f(n), f(n - 1), f(n - 2))
    requires forall i :: i < 0 ==> f(i) == 0.0
    ensures Term(g, n, z) == Fold(q, z, Term(f, n, z), Term(f, n - 1, z), Term(f, n - 2, z))
  {
    var p1 := if n >= 1 then Power(z, n - 1) else 0.0;
    var p2 := if n >= 2 then Power(z, n - 2) else 0.0;
    PowerStep(z, n);
    hide Power, Fold, Tap;
    assert Term(f, n - 1, z) == Scale(f(n - 1), p1);
    assert Term(f, n - 2, z) == Scale(f(n - 2), p2);
    hide Scale;
    Distribute(q, z, f(n), f(n - 1), f(n - 2), Power(z, n), p1, p2);
  }

  lemma PowerStep(z: real, n: nat)
    ensures n >= 1 ==> Power(z, n) == z * Power(z, n - 1)
    ensures n >= 2 ==> Power(z, n) == z * (z * Power(z, n - 2))
  {}

  lemma Distribute(q: real, z: real, a: real, b: real, c: real, p: real, p1: real, p2: real)
    requires b == 0.0 || p == z * p1
    requires c == 0.0 || p == z * (z * p2)
    ensures Scale(Tap(q, a, b, c), p) == Fold(q, z, Scale(a, p), Scale(b, p1), Scale(c, p2))
  {
    assert (a - 2.0 * q * b + c) * p == a * p - 2.0 * q * (b * p) + c * p;
    assert 2.0 * q * (b * (z * p1)) == 2.0 * q * z * (b * p1);
    assert c * (z * (z * p2)) == z * z * (c * p2);
  }

  lemma {:induction false} SumBeyond(c: int -> real, m: nat, n: nat, z: real)
    requires m <= n && forall i :: m < i ==> c(i) == 0.0
    ensures Sum(c, n, z) == Sum(c, m, z)
    decreases n
  {
    if m < n { SumBeyond(c, m, n - 1, z); }
  }

  function Coefs(q: seq<real>): int -> real {
    i => Coef(q, i)
  }

  lemma CoefsStep(q: seq<real>)
    requires |q| > 0
    ensures var f, last := Coefs(q[..|q| - 1]), q[|q| - 1];
      forall i :: Coefs(q)(i) == Tap(last, f(i), f(i - 1), f(i - 2))
  {
    hide Tap;
    assert q[..|q|] == q;
    forall i
      ensures Coefs(q)(i) == Tap(q[|q| - 1], Coefs(q[..|q| - 1])(i), Coefs(q[..|q| - 1])(i - 1), Coefs(q[..|q| - 1])(i - 2))
    {
      CoefStep(q, |q| - 1, i);
    }
  }

  lemma CoefsOutside(q: seq<real>)
    ensures forall i :: i < 0 || i > 2 * |q| ==> Coefs(q)(i) == 0.0
  {
    forall i | i < 0 || i > 2 * |q|
      ensures Coefs(q)(i) == 0.0
    {
      CoefOutside(q, i);
    }
  }

  /** Main result on the reference: the coefficients are those of the product. */
  lemma {:induction false} CoefficientsOfProduct(q: seq<real>, z: real)
    ensures Sum(Coefs(q), 2 * |q|, z) == Product(q, z)
    decreases |q|
  {
    hide Tap, Fold, Product, Coefs, Sum;
    if |q| == 0 {
      ProductOfNone(q, z);
    } else {
      var n, rest := |q| - 1, q[..|q| - 1];
      CoefficientsOfProduct(rest, z);
      CoefsStep(q);
      CoefsOutside(rest);
      SumStep(Coefs(rest), Coefs(q), q[n], 2 * n + 2, z);
      SumBeyond(Coefs(rest), 2 * n, 2 * n + 2, z);
      SumBeyond(Coefs(rest), 2 * n, 2 * n + 1, z);
      ProductStep(q, z);
    }
  }

  lemma ProductOfNone(q: seq<real>, z: real)
    requires |q| == 0
    ensures Sum(Coefs(q), 0, z) == 1.0 == Product(q, z)
  {
    var g := Coefs(q);
    assert Sum(g, 0, z) == Sum(g, -1, z) + g(0) * Power(z, 0);
  }

  lemma ProductStep(q: seq<real>, z: real)
    requires |q| > 0
    ensures var p, last := Product(q[..|q| - 1], z), q[|q| - 1];
      Product(q, z) == Fold(last, z, p, p, p)
  {
    FactorOut(Product(q[..|q| - 1], z), q[|q| - 1], z);
  }

  lemma FactorOut(p: real, q: real, z: real)
    ensures Fold(q, z, p, p, p) == p * (1.0 - 2.0 * q * z + z * z)
  {}

  // ---- the predictor polynomial ----

  /** Coefficient i of half of (1 + z) F1 + (1 - z) F2. */
  function LpCoef(q1: seq<real>, q2: seq<real>, i: int): real {
    (Coef(q1, i) + Coef(q1, i - 1) + Coef(q2, i) - Coef(q2, i - 1)) / 2.0
  }

  function LpCoefs(q1: seq<real>, q2: seq<real>): int -> real {
    i => LpCoef(q1, q2, i)
  }

  function Combine(z: real, a: real, a1: real, b: real, b1: real): real {
    a + z * a1 + b - z * b1
  }

  lemma {:induction false} SumHalves(q1: seq<real>, q2: seq<real>, n: int, z: real)
    ensures 2.0 * Sum(LpCoefs(q1, q2), n, z)
         == Combine(z, Sum(Coefs(q1), n, z), Sum(Coefs(q1), n - 1, z), Sum(Coefs(q2), n, z), Sum(Coefs(q2), n - 1, z))
    decreases n
  {
    hide Combine, Term, Coefs, LpCoefs;
    if n >= 0 {
      SumHalves(q1, q2, n - 1, z);
      HalvesTerm(q1, q2, n, z);
      hide Sum;
      SumTerm(LpCoefs(q1, q2), n, z);
      SumTerm(Coefs(q1), n, z);
      SumTerm(Coefs(q1), n - 1, z);
      SumTerm(Coefs(q2), n, z);
      SumTerm(Coefs(q2), n - 1, z);
      CombineAdds(z, Sum(Coefs(q1), n - 1, z), Sum(Coefs(q1), n - 2, z), Sum(Coefs(q2), n - 1, z), Sum(Coefs(q2), n - 2, z),
                  Term(Coefs(q1), n, z), Term(Coefs(q1), n - 1, z), Term(Coefs(q2), n, z), Term(Coefs(q2), n - 1, z));
    } else {
      CombineAdds(z, 0.0, 0.0, 0.0, 0.0, 0.0, 0.0, 0.0, 0.0);
    }
  }

  lemma CombineAdds(z: real, a: real, a1: real, b: real, b1: real, c: real, c1: real, d: real, d1: real)
    ensures Combine(z, a, a1, b, b1) + Combine(z, c, c1, d, d1) == Combine(z, a + c, a1 + c1, b + d, b1 + d1)
    ensures Combine(z, 0.0, 0.0, 0.0, 0.0) == 0.0
  {}

  lemma HalvesTerm(q1: seq<real>, q2: seq<real>, n: nat, z: real)
    ensures 2.0 * Term(LpCoefs(q1, q2), n, z)
         == Combine(z, Term(Coefs(q1), n, z), Term(Coefs(q1), n - 1, z), Term(Coefs(q2), n, z), Term(Coefs(q2), n - 1, z))
  {
    if n == 0 {
      Vanish(q1, -1);
      Vanish(q2, -1);
    }
    PowerStep(z, n);
    hide Coef, Power, Combine;
    var a, b, c, d := Coef(q1, n), Coef(q1, n - 1), Coef(q2, n), Coef(q2, n - 1);
    var p, p1 := Power(z, n), if n >= 1 then Power(z, n - 1) else 0.0;
    HalvesStep(z, a, b, c, d, p, p1);
    hide Scale;
    assert LpCoefs(q1, q2)(n) == (a + b + c - d) / 2.0;
    TermBefore(q1, n, z, p1);
    TermBefore(q2, n, z, p1);
  }

  lemma TermBefore(q: seq<real>, n: nat, z: real, p1: real)
    requires p1 == if n >= 1 then Power(z, n - 1) else 0.0
    ensures Term(Coefs(q), n - 1, z) == Scale(Coef(q, n - 1), p1)
    ensures Term(Coefs(q), n, z) == Scale(Coef(q, n), Power(z, n))
  {
    hide Coef, Power;
  }

  lemma HalvesStep(z: real, a: real, b: real, c: real, d: real, p: real, p1: real)
    requires (b == 0.0 && d == 0.0) || p == z * p1
    ensures 2.0 * Scale((a + b + c - d) / 2.0, p) == Combine(z, Scale(a, p), Scale(b, p1), Scale(c, p), Scale(d, p1))
  {
    assert 2.0 * ((a + b + c - d) / 2.0 * p) == a * p + b * p + c * p - d * p;
    assert b * (z * p1) == z * (b * p1) && d * (z * p1) == z * (d * p1);
  }

  /** Main result on the reference: the coefficients are those of ((1 + z) F1 + (1 - z) F2) / 2. */
  lemma LpPolynomial(q1: seq<real>, q2: seq<real>, z: real)
    requires |q1| == |q2|
    ensures 2.0 * Sum(LpCoefs(q1, q2), 2 * |q1|, z) == (1.0 + z) * Product(q1, z) + (1.0 - z) * Product(q2, z)
  {
    var n := 2 * |q1|;
    SumHalves(q1, q2, n, z);
    CoefficientsOfProduct(q1, z);
    CoefficientsOfProduct(q2, z);
    LeadingOne(q1, z);
    LeadingOne(q2, z);
    hide Sum, Product, Coefs, LpCoefs, Power, Combine;
    CancelLeading(z, Product(q1, z), Product(q2, z), Power(z, n));
  }

  lemma LeadingOne(q: seq<real>, z: real)
    ensures Sum(Coefs(q), 2 * |q| - 1, z) == Sum(Coefs(q), 2 * |q|, z) - Power(z, 2 * |q|)
  {
    hide Power;
    CoefZero(q);
    Palindrome(q, 0);
    assert Coefs(q)(2 * |q|) == 1.0 by { hide Coef; }
  }

  lemma CancelLeading(z: real, a: real, b: real, p: real)
    ensures Combine(z, a, a - p, b, b - p) == (1.0 + z) * a + (1.0 - z) * b
  {}

  // ---- the half-length expansion ----

  /** Every second value, from `offset` on. */
  function EverySecond(q: seq<real>, offset: nat, n: nat): (p: seq<real>)
    requires offset + 2 * n <= |q| + 1
    ensures |p| == n && forall k :: 0 <= k < n ==> p[k] == q[offset + 2 * k]
  {
    seq(n, k requires 0 <= k < n => q[offset + 2 * k])
  }

  ghost predicate Are(f: array<real>, q: seq<real>, low: int, high: int)
    requires 0 <= low && high < f.Length
    reads f
  {
    forall k :: low <= k <= high ==> f[k] == Coef(q, k)
  }

  /** The middle coefficient needs only the lower half of the previous product. */
  lemma MiddleCoefficient(p: seq<real>, i: nat)
    requires 1 <= i <= |p|
    ensures Coef(p[..i], i) == 2.0 * (Coef(p[..i - 1], i - 2) - p[i - 1] * Coef(p[..i - 1], i - 1))
  {
    CoefStep(p, i - 1, i);
    Palindrome(p[..i - 1], i);
    hide Coef;
  }

  lemma LowCoefficient(p: seq<real>, i: nat, j: int)
    requires 1 <= i <= |p|
    ensures Coef(p[..i], j) == Coef(p[..i - 1], j) + (Coef(p[..i - 1], j - 2) - 2.0 * p[i - 1] * Coef(p[..i - 1], j - 1))
    ensures j == 1 ==> Coef(p[..i], j) == Coef(p[..i - 1], j) - 2.0 * p[i - 1]
  {
    CoefStep(p, i - 1, j);
    if j == 1 {
      CoefZero(p[..i - 1]);
      Vanish(p[..i - 1], -1);
    }
    hide Coef;
  }

  /** The inner loops that multiply the lower half by one more factor in place. */
  method ExtendHalf(f: array<real>, q: real, i: nat, ghost p: seq<real>)
    requires 2 <= i <= |p| && i < f.Length && q == p[i - 1] && Are(f, p[..i - 1], 0, i - 1)
    modifies f
    ensures Are(f, p[..i], 0, i)
  {
    hide Coef;
    MiddleCoefficient(p, i);
    f[i] := 2.0 * (f[i - 2] - q * f[i - 1]);
    var j := i - 1;
    while j > 1
      invariant 1 <= j < i
      invariant Are(f, p[..i - 1], 0, j) && Are(f, p[..i], j + 1, i)
    {
      LowCoefficient(p, i, j);
      f[j] := f[j] + (f[j - 2] - 2.0 * q * f[j - 1]);
      j := j - 1;
    }
    LowCoefficient(p, i, 1);
    CoefZero(p[..i]);
    CoefZero(p[..i - 1]);
    f[1] := f[1] - 2.0 * q;
  }

  /** computePolynomialCoefficients: the lower half of the product, in half the space. */
  method ComputePolynomialCoefficients(qLSP: seq<real>, offset: nat, order: nat, f: array<real>)
    requires 1 <= order && offset + 2 * order <= |qLSP| + 1 && f.Length == order + 1
    modifies f
    ensures Are(f, EverySecond(qLSP, offset, order), 0, order)
  {
    ghost var p := EverySecond(qLSP, offset, order);
    f[0] := 1.0;
    f[1] := -2.0 * qLSP[offset];
    FirstFactor(p);
    hide Coef;
    for i := 2 to order + 1
      invariant Are(f, p[..i - 1], 0, i - 1)
    {
      ExtendHalf(f, qLSP[offset + 2 * i - 2], i, p);
    }
    assert p[..order] == p;
  }

  lemma FirstFactor(p: seq<real>)
    requires |p| >= 1
    ensures Coef(p[..1], 0) == 1.0 && Coef(p[..1], 1) == -2.0 * p[0]
  {
    CoefZero(p[..1]);
    LowCoefficient(p, 1, 1);
    assert p[..0] == [];
  }

  /** Above the middle, the predictor's coefficients come from the lower half again. */
  lemma BothHalves(q1: seq<real>, q2: seq<real>, i: nat)
    requires |q1| == |q2| && i < |q1|
    ensures LpCoef(q1, q2, 2 * |q1| - i)
         == (Coef(q1, i + 1) + Coef(q1, i) - (Coef(q2, i + 1) - Coef(q2, i))) / 2.0
    ensures LpCoef(q1, q2, i + 1)
         == (Coef(q1, i + 1) + Coef(q1, i) + (Coef(q2, i + 1) - Coef(q2, i))) / 2.0
  {
    var n := 2 * |q1|;
    Palindrome(q1, n - i);
    Palindrome(q1, n - i - 1);
    Palindrome(q2, n - i);
    Palindrome(q2, n - i - 1);
    hide Coef;
  }

  /** f'1[i] = f1[i] + f1[i-1] and f'2[i] = f2[i] - f2[i-1], from the top down. */
  method FoldHalves(f1: array<real>, f2: array<real>, order: nat)
    requires f1 != f2 && f1.Length == f2.Length == order + 1
    modifies f1, f2
    ensures forall i :: 1 <= i <= order ==> f1[i] == old(f1[i]) + old(f1[i - 1])
    ensures forall i :: 1 <= i <= order ==> f2[i] == old(f2[i]) - old(f2[i - 1])
  {
    ghost var g1, g2 := f1[..], f2[..];
    var i := order;
    while i > 0
      invariant 0 <= i <= order
      invariant forall k :: 0 <= k <= i ==> f1[k] == g1[k] && f2[k] == g2[k]
      invariant forall k :: i < k <= order ==> f1[k] == g1[k] + g1[k - 1] && f2[k] == g2[k] - g2[k - 1]
    {
      f1[i] := f1[i] + f1[i - 1];
      f2[i] := f2[i] - f2[i - 1];
      i := i - 1;
    }
  }

  /**
   Main result: qLSP2LP in exact arithmetic returns the coefficients of z to z^(2 order) of the
   predictor polynomial, from the lower halves alone.
   */
  method QLsp2Lp(qLSP: seq<real>, order: nat) returns (LP: array<real>)
    requires 1 <= order && |qLSP| == 2 * order
    ensures LP.Length == 2 * order
    ensures var q1, q2 := EverySecond(qLSP, 0, order), EverySecond(qLSP, 1, order);
      forall k :: 0 <= k < 2 * order ==> LP[k] == LpCoef(q1, q2, k + 1)
  {
    hide Coef;
    ghost var q1, q2 := EverySecond(qLSP, 0, order), EverySecond(qLSP, 1, order);
    var f1, f2 := new real[order + 1], new real[order + 1];
    ComputePolynomialCoefficients(qLSP, 0, order, f1);
    ComputePolynomialCoefficients(qLSP, 1, order, f2);
    FoldHalves(f1, f2, order);
    hide LpCoef;
    LP := new real[2 * order];
    for i := 0 to order
      invariant forall k :: 0 <= k < i ==> LP[k] == LpCoef(q1, q2, k + 1)
      invariant forall k :: 2 * order - i <= k < 2 * order ==> LP[k] == LpCoef(q1, q2, k + 1)
      modifies LP
    {
      BothHalves(q1, q2, i);
      LP[i] := (f1[i + 1] + f2[i + 1]) / 2.0;
      LP[2 * order - 1 - i] := (f1[i + 1] - f2[i + 1]) / 2.0;
    }
  }

  // ---- the full-length expansion ----

  /** The inner loop that multiplies the whole product by one more factor in place. */
  method ExtendFull(f: array<real>, c: real, n: nat, ghost p: seq<real>)
    requires 1 <= n <= |p| && 2 * n < f.Length && c == p[n - 1] && Are(f, p[..n - 1], 0, f.Length - 1)
    modifies f
    ensures Are(f, p[..n], 0, f.Length - 1)
  {
    hide Coef;
    var i := 2 * n;
    forall k | 2 * n < k < f.Length
      ensures f[k] == Coef(p[..n], k)
    {
      CoefOutside(p[..n], k);
      CoefOutside(p[..n - 1], k);
    }
    while i >= 2
      invariant 1 <= i <= 2 * n
      invariant Are(f, p[..n - 1], 0, i) && Are(f, p[..n], i + 1, f.Length - 1)
    {
      LowCoefficient(p, n, i);
      f[i] := f[i] + f[i - 2];
      f[i] := f[i] - 2.0 * c * f[i - 1];
      i := i - 1;
    }
    LowCoefficient(p, n, 1);
    CoefZero(p[..n]);
    CoefZero(p[..n - 1]);
    f[1] := f[1] - 2.0 * c;
  }

  /** get_pq_polynomials: the whole product; `cosine` stands for the table look-up. */
  method GetPqPolynomials(lsp: seq<int>, cosine: int -> real, offset: nat, order: nat, f: array<real>)
    requires offset + 2 * order <= |lsp| + 1 && f.Length == 2 * order + 1
    modifies f
    ensures Are(f, EverySecond(Cosines(lsp, cosine), offset, order), 0, 2 * order)
  {
    ghost var p := EverySecond(Cosines(lsp, cosine), offset, order);
    f[0] := 1.0;
    for i := 1 to 2 * order + 1
      invariant f[0] == 1.0 && forall k :: 1 <= k < i ==> f[k] == 0.0
    {
      f[i] := 0.0;
    }
    assert Are(f, p[..0], 0, 2 * order);
    hide Coef;
    for n := 1 to order + 1
      invariant Are(f, p[..n - 1], 0, 2 * order)
    {
      var c := cosine(lsp[offset + 2 * n - 2]);
      ExtendFull(f, c, n, p);
    }
    assert p[..order] == p;
  }

  function Cosines(lsp: seq<int>, cosine: int -> real): (q: seq<real>)
    ensures |q| == |lsp| && forall k :: 0 <= k < |q| ==> q[k] == cosine(lsp[k])
  {
    seq(|lsp|, k requires 0 <= k < |lsp| => cosine(lsp[k]))
  }

  /** Main result: lsp2a in exact arithmetic returns all coefficients of the predictor polynomial. */
  method Lsp2a(lsp: seq<int>, cosine: int -> real, order: nat) returns (a: array<real>)
    requires 1 <= order && |lsp| == 2 * order
    ensures a.Length == 2 * order + 1
    ensures var q := Cosines(lsp, cosine);
      var q1, q2 := EverySecond(q, 0, order), EverySecond(q, 1, order);
      forall k :: 0 <= k <= 2 * order ==> a[k] == LpCoef(q1, q2, k)
  {
    hide Coef;
    ghost var c := Cosines(lsp, cosine);
    ghost var q1, q2 := EverySecond(c, 0, order), EverySecond(c, 1, order);
    var p, q := new real[2 * order + 1], new real[2 * order + 1];
    GetPqPolynomials(lsp, cosine, 0, order, p);
    GetPqPolynomials(lsp, cosine, 1, order, q);
    CoefZero(q1);
    CoefZero(q2);
    Vanish(q1, -1);
    Vanish(q2, -1);
    a := new real[2 * order + 1];
    a[0] := 1.0;
    a[1] := (p[1] + q[1]) / 2.0;
    for i := 1 to 2 * order
      invariant forall k :: 0 <= k <= i ==> a[k] == LpCoef(q1, q2, k)
      modifies a
    {
      a[i + 1] := (p[i] + p[i + 1] + q[i + 1] - q[i]) / 2.0;
    }
  }

  /** The two codecs agree: the half-length form gives what the full-length form gives. */
  method HalfEqualsFull(lsp: seq<int>, cosine: int -> real, order: nat) returns (LP: array<real>, a: array<real>)
    requires 1 <= order && |lsp| == 2 * order
    ensures LP.Length == 2 * order && a.Length == 2 * order + 1
    ensures var q := Cosines(lsp, cosine);
      var q1, q2 := EverySecond(q, 0, order), EverySecond(q, 1, order);
      forall k :: 0 <= k <= 2 * order ==> a[k] == LpCoef(q1, q2, k)
    ensures a[0] == 1.0 && forall k :: 0 <= k < 2 * order ==> LP[k] == a[k + 1]
  {
    var qLSP := Cosines(lsp, cosine);
    ghost var q1, q2 := EverySecond(qLSP, 0, order), EverySecond(qLSP, 1, order);
    CoefZero(q1);
    CoefZero(q2);
    Vanish(q1, -1);
    Vanish(q2, -1);
    hide Coef;
    a := Lsp2a(lsp, cosine, order);
    LP := QLsp2Lp(qLSP, order);
  }
}
