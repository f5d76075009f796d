/**
 The Levinson-Durbin recursion on the autocorrelation of a signal, in exact arithmetic: computeLP.c,
 lines 72-104 and 153-195. The quadratic form of the Toeplitz matrix is the energy of the filtered
 signal, so no residual is zero and every reflection coefficient is below one.
 */
module LevinsonSignal {
  import opened RealSums
  import opened Levinson
  import Lags = Autocorrelation

  // ---- inner products ----

  function Multiplied(f: seq<real>, g: seq<real>): (p: seq<real>)
    requires |f| == |g|
    ensures |p| == |f| && forall n :: 0 <= n < |p| ==> p[n] == f[n] * g[n]
  {
    seq(|f|, n requires 0 <= n < |f| => f[n] * g[n])
  }

  function Inner(f: seq<real>, g: seq<real>): real
    requires |f| == |g|
  {
    Sum(Multiplied(f, g))
  }

  lemma InnerSymmetric(f: seq<real>, g: seq<real>)
    requires |f| == |g|
    ensures Inner(f, g) == Inner(g, f)
  {
    assert Multiplied(f, g) == Multiplied(g, f);
  }

  /** f + c g */
  function AddScaled(f: seq<real>, c: real, g: seq<real>): (h: seq<real>)
    requires |f| == |g|
    ensures |h| == |f| && forall n :: 0 <= n < |h| ==> h[n] == Mac(f[n], c, g[n])
  {
    seq(|f|, n requires 0 <= n < |f| => Mac(f[n], c, g[n]))
  }

  lemma InnerLinear(f: seq<real>, c: real, g: seq<real>, h: seq<real>)
    requires |f| == |g| == |h|
    ensures Inner(AddScaled(f, c, g), h) == Inner(f, h) + c * Inner(g, h)
  {
    hide Sum;
    var u, p, q := Multiplied(AddScaled(f, c, g), h), Multiplied(f, h), Multiplied(g, h);
    forall n | 0 <= n < |f|
      ensures u[n] == p[n] + c * q[n]
    {
      Distribute(f[n], g[n], c, h[n]);
    }
    SumLinear(p, q, c, u);
  }

  lemma {:induction false} EnergyPositive(f: seq<real>, n: nat)
    requires n < |f| && f[n] != 0.0
    ensures Inner(f, f) > 0.0
    decreases |f|
  {
    var m := |f| - 1;
    InnerLast(f[..m], f[..m], f[m], f[m]);
    assert f == f[..m] + [f[m]];
    hide Inner;
    SquarePositive(f[m]);
    if n < m { EnergyPositive(f[..m], n); } else { EnergyNonNegative(f[..m]); }
  }

  lemma {:induction false} EnergyNonNegative(f: seq<real>)
    ensures Inner(f, f) >= 0.0
  {
    if |f| > 0 {
      var m := |f| - 1;
      InnerLast(f[..m], f[..m], f[m], f[m]);
      assert f == f[..m] + [f[m]];
      hide Inner;
      SquarePositive(f[m]);
      EnergyNonNegative(f[..m]);
    }
  }

  lemma SquarePositive(x: real)
    ensures x * x >= 0.0 && (x != 0.0 ==> x * x > 0.0)
  {}

  lemma InnerLast(f: seq<real>, g: seq<real>, x: real, y: real)
    requires |f| == |g|
    ensures Inner(f + [x], g + [y]) == Inner(f, g) + x * y
  {
    var p, q := Multiplied(f + [x], g + [y]), Multiplied(f, g);
    forall n | 0 <= n < |f|
      ensures p[n] == q[n]
    {
      assert (f + [x])[n] == f[n] && (g + [y])[n] == g[n];
    }
    assert p[..|f|] == q;
  }

  lemma InnerFirst(x: real, y: real, f: seq<real>, g: seq<real>)
    requires |f| == |g|
    ensures Inner([x] + f, [y] + g) == x * y + Inner(f, g)
  {
    hide Sum, Multiplied;
    MultipliedFirst(x, y, f, g);
    SumFirst(x * y, Multiplied(f, g));
  }

  lemma MultipliedFirst(x: real, y: real, f: seq<real>, g: seq<real>)
    requires |f| == |g|
    ensures Multiplied([x] + f, [y] + g) == [x * y] + Multiplied(f, g)
  {
    var p, q := Multiplied([x] + f, [y] + g), Multiplied(f, g);
    forall n | 0 <= n < |f|
      ensures p[n + 1] == q[n]
    {
      assert ([x] + f)[n + 1] == f[n] && ([y] + g)[n + 1] == g[n];
    }
    assert p[0] == x * y;
    Joined(p, x * y, q);
  }

  lemma Joined(p: seq<real>, v: real, q: seq<real>)
    requires |p| == |q| + 1 && p[0] == v && forall n :: 0 <= n < |q| ==> p[n + 1] == q[n]
    ensures p == [v] + q
  {
    assert forall n :: 0 < n < |p| ==> p[n] == q[n - 1];
  }

  lemma SumFirst(v: real, q: seq<real>)
    ensures Sum([v] + q) == v + Sum(q)
  {
    SumConcat([v], q);
    assert [v][..0] == [];
  }

  // ---- shifted copies of the signal ----

  /** The signal from place s on, in a frame of m places. */
  function Shifted(x: seq<real>, s: nat, m: nat): (f: seq<real>)
    ensures |f| == m && forall n :: 0 <= n < m ==> f[n] == if s <= n < s + |x| then x[n - s] else 0.0
  {
    seq(m, n requires 0 <= n < m => if s <= n < s + |x| then x[n - s] else 0.0)
  }

  lemma ShiftTogether(x: seq<real>, s: nat, t: nat, m: nat)
    requires 0 < s && 0 < t && s + |x| <= m && t + |x| <= m
    ensures Inner(Shifted(x, s, m), Shifted(x, t, m)) == Inner(Shifted(x, s - 1, m), Shifted(x, t - 1, m))
  {
    var f, g := Shifted(x, s - 1, m), Shifted(x, t - 1, m);
    var k := m - 1;
    assert f == f[..k] + [0.0] && g == g[..k] + [0.0];
    assert Shifted(x, s, m) == [0.0] + f[..k];
    assert Shifted(x, t, m) == [0.0] + g[..k];
    InnerLast(f[..k], g[..k], 0.0, 0.0);
    InnerFirst(0.0, 0.0, f[..k], g[..k]);
    hide Inner, Shifted;
  }

  /** r holds the correlations of x with its shifted copies. */
  ghost predicate CorrelationsOf(x: seq<real>, r: seq<real>) {
    forall i :: 0 <= i < |r| ==> r[i] == Inner(Shifted(x, 0, |x| + |r|), Shifted(x, i, |x| + |r|))
  }

  /** Only the distance of two shifts matters. */
  lemma {:induction false} InnerOfShifts(x: seq<real>, r: seq<real>, s: nat, t: nat)
    requires CorrelationsOf(x, r) && s < |r| && t < |r|
    ensures Inner(Shifted(x, s, |x| + |r|), Shifted(x, t, |x| + |r|)) == r[Distance(s, t)]
    decreases s
  {
    hide Inner, Shifted;
    var m := |x| + |r|;
    if s == 0 {
    } else if t == 0 {
      InnerSymmetric(Shifted(x, s, m), Shifted(x, t, m));
    } else {
      ShiftTogether(x, s, t, m);
      InnerOfShifts(x, r, s - 1, t - 1);
    }
  }

  // ---- the filtered signal ----

  /** The signal through the filter a. */
  function Filtered(a: seq<real>, x: seq<real>, m: nat): (f: seq<real>)
    ensures |f| == m
  {
    if |a| == 0 then seq(m, _ => 0.0)
    else AddScaled(Filtered(a[..|a| - 1], x, m), a[|a| - 1], Shifted(x, |a| - 1, m))
  }

  lemma FilteredAppend(w: seq<real>, c: real, x: seq<real>, m: nat)
    ensures Filtered(w + [c], x, m) == AddScaled(Filtered(w, x, m), c, Shifted(x, |w|, m))
  {
    assert (w + [c])[..|w|] == w;
  }

  lemma InnerOfZeros(m: nat, g: seq<real>)
    requires |g| == m
    ensures Inner(seq(m, _ => 0.0), g) == 0.0
  {
    var p := Multiplied(seq(m, _ => 0.0), g);
    forall n | 0 <= n < m
      ensures p[n] == 0.0
    {
      Distribute(0.0, 0.0, 0.0, g[n]);
    }
    SumOfZeros(p);
  }

  lemma NoFilter(a: seq<real>, x: seq<real>, m: nat, g: seq<real>)
    requires |a| == 0 && |g| == m
    ensures Inner(Filtered(a, x, m), g) == 0.0
  {
    InnerOfZeros(m, g);
    hide Inner;
  }

  /** One more coefficient adds its multiple of the inner product with the shifted signal. */
  lemma InnerAppend(w: seq<real>, c: real, x: seq<real>, m: nat, g: seq<real>)
    requires |g| == m
    ensures Inner(Filtered(w + [c], x, m), g) == Inner(Filtered(w, x, m), g) + c * Inner(Shifted(x, |w|, m), g)
  {
    hide Inner, Filtered, AddScaled, Shifted;
    FilteredAppend(w, c, x, m);
    InnerLinear(Filtered(w, x, m), c, Shifted(x, |w|, m), g);
  }

  /** The filtered signal against a shifted copy is a row of the Toeplitz system. */
  lemma {:induction false} FilteredRow(a: seq<real>, x: seq<real>, r: seq<real>, t: nat)
    requires CorrelationsOf(x, r) && |a| <= |r| && t < |r|
    ensures Inner(Filtered(a, x, |x| + |r|), Shifted(x, t, |x| + |r|)) == Toeplitz(a, r, t)
    decreases |a|
  {
    hide Inner, Shifted, Toeplitz, CorrelationsOf, AddScaled, Filtered;
    var m := |x| + |r|;
    if |a| == 0 {
      NoFilter(a, x, m, Shifted(x, t, m));
      EmptyRow(a, r, t);
    } else {
      var w, c := a[..|a| - 1], a[|a| - 1];
      assert a == w + [c];
      FilteredRow(w, x, r, t);
      InnerAppend(w, c, x, m, Shifted(x, t, m));
      InnerOfShifts(x, r, |w|, t);
      ToeplitzAppend(w, c, r, t);
      assert Distance(|w|, t) == Distance(t, |w|);
    }
  }

  lemma NoForm(b: seq<real>, a: seq<real>, r: seq<real>)
    requires |b| == 0 && |a| <= |r|
    ensures Form(b, a, r) == 0.0
  {
    hide Toeplitz;
  }

  /** The inner product of two filtered signals is the Toeplitz form of the filters. */
  lemma {:induction false} FilteredForm(a: seq<real>, b: seq<real>, x: seq<real>, r: seq<real>)
    requires CorrelationsOf(x, r) && |a| <= |r| && |b| <= |r|
    ensures Inner(Filtered(b, x, |x| + |r|), Filtered(a, x, |x| + |r|)) == Form(b, a, r)
    decreases |b|
  {
    hide Inner, Shifted, Toeplitz, CorrelationsOf, AddScaled, Form, Filtered;
    var m := |x| + |r|;
    if |b| == 0 {
      NoFilter(b, x, m, Filtered(a, x, m));
      NoForm(b, a, r);
    } else {
      var w, c := b[..|b| - 1], b[|b| - 1];
      assert b == w + [c];
      FilteredForm(a, w, x, r);
      InnerAppend(w, c, x, m, Filtered(a, x, m));
      FilteredRow(a, x, r, |w|);
      InnerSymmetric(Shifted(x, |w|, m), Filtered(a, x, m));
      FormAppendLeft(w, c, a, r);
    }
  }

  /** Where the signal starts, a filter with leading coefficient one lets it through. */
  lemma {:induction false} FilteredStart(a: seq<real>, x: seq<real>, p: nat, m: nat)
    requires |a| > 0 && a[0] == 1.0 && p < |x| <= m && forall q :: 0 <= q < p ==> x[q] == 0.0
    ensures Filtered(a, x, m)[p] == x[p]
  {
    var w, c := a[..|a| - 1], a[|a| - 1];
    if |a| > 1 { FilteredStart(w, x, p, m); }
    Distribute(0.0, 0.0, c, 0.0);
  }

  lemma {:induction false} FirstNonZero(x: seq<real>, n: nat) returns (p: nat)
    requires n < |x| && x[n] != 0.0
    ensures p <= n && x[p] != 0.0 && forall q :: 0 <= q < p ==> x[q] == 0.0
  {
    if exists q :: 0 <= q < n && x[q] != 0.0 {
      var q :| 0 <= q < n && x[q] != 0.0;
      p := FirstNonZero(x, q);
    } else {
      p := n;
    }
  }

  // ---- the recursion ----

  ghost predicate NonZero(x: seq<real>) { exists n :: 0 <= n < |x| && x[n] != 0.0 }

  /** With the normal equations solved, the form of the filter is its row 0. */
  lemma FormIsResidual(a: seq<real>, r: seq<real>)
    requires 0 < |a| <= |r| && a[0] == 1.0 && NormalEquations(a, r)
    ensures Form(a, a, r) == Toeplitz(a, r, 0)
  {
    hide Toeplitz;
    var s := Rows(a, a, r);
    forall t | 0 <= t < |a| && t != 0
      ensures s[t] == 0.0
    {
      Distribute(0.0, 0.0, 0.0, a[t]);
      assert Toeplitz(a, r, t) == 0.0;
    }
    SumOfOne(s, 0);
  }

  /** Main result: on the autocorrelation of a signal that is not zero the recursion never divides by zero. */
  lemma {:induction false} ResidualsPositive(x: seq<real>, r: seq<real>, i: nat)
    requires NonZero(x) && CorrelationsOf(x, r) && i < |r|
    ensures Regular(r, i + 1) && Predict(r, i).residual > 0.0
  {
    hide Predict, CorrelationsOf, Toeplitz, Form, Inner, Filtered;
    if i > 0 { ResidualsPositive(x, r, i - 1); }
    assert Regular(r, i);
    SolvesNormalEquations(r, i);
    var a, m := Predict(r, i).a, |x| + |r|;
    FormIsResidual(a, r);
    FilteredForm(a, a, x, r);
    var n :| 0 <= n < |x| && x[n] != 0.0;
    var p := FirstNonZero(x, n);
    FilteredStart(a, x, p, m);
    EnergyPositive(Filtered(a, x, m), p);
  }

  /** And every reflection coefficient lies strictly between -1 and 1. */
  lemma ReflectionsBelowOne(x: seq<real>, r: seq<real>, i: nat)
    requires NonZero(x) && CorrelationsOf(x, r) && 0 < i < |r|
    ensures -1.0 < Predict(r, i).k[i - 1] < 1.0
  {
    hide Predict, CorrelationsOf, Toeplitz, Update;
    ResidualsPositive(x, r, i - 1);
    ResidualsPositive(x, r, i);
    PredictStep(r, i);
    var q, p := Predict(r, i - 1), Predict(r, i);
    BelowOne(q.residual, p.k[i - 1], p.residual);
  }

  lemma BelowOne(E: real, k: real, F: real)
    requires E > 0.0 && F > 0.0 && F == E * (1.0 - k * k)
    ensures -1.0 < k < 1.0
  {
    PositiveFactor(E, 1.0 - k * k);
    OutsideOne(k);
    OutsideOne(-k);
  }

  lemma PositiveFactor(E: real, d: real)
    requires E > 0.0 && E * d > 0.0
    ensures d > 0.0
  {}

  lemma OutsideOne(k: real)
    ensures k >= 1.0 ==> k * k >= 1.0
  {}

  // ---- the coefficients of computeLP ----

  function Reals(x: seq<int>): (f: seq<real>)
    ensures |f| == |x| && forall n :: 0 <= n < |x| ==> f[n] == x[n] as real
  {
    seq(|x|, n requires 0 <= n < |x| => x[n] as real)
  }

  /** The coefficients computeLP forms before it normalises them; a silent frame gets 1 for its energy. */
  function Coefficients(x: Lags.Signal, number: nat): (r: seq<real>)
    ensures |r| == number
    ensures forall i :: 0 <= i < number ==>
      r[i] == (if i == 0 then Lags.Power(x) else Lags.Correlation(x, i)) as real
  {
    seq(number, i requires 0 <= i < number =>
      (if i == 0 then Lags.Power(x) else Lags.Correlation(x, i)) as real)
  }

  lemma ProductIsReal(x: int, y: int)
    ensures (x * y) as real == x as real * y as real
  {}

  lemma ProductAt(x: seq<int>, lag: nat, m: nat, n: nat, p: seq<real>)
    requires n < |x| && lag + |x| <= m
    requires p == Multiplied(Shifted(Reals(x), 0, m), Shifted(Reals(x), lag, m))
    ensures p[n] == if lag <= n then (x[n] * x[n - lag]) as real else 0.0
  {
    var f, g := Shifted(Reals(x), 0, m), Shifted(Reals(x), lag, m);
    assert p[n] == f[n] * g[n];
    if lag <= n {
      ProductIsReal(x[n], x[n - lag]);
    } else {
      Distribute(0.0, 0.0, 0.0, f[n]);
    }
  }

  /** The first k products with the copy shifted by lag. */
  lemma {:induction false} PrefixIsPartial(x: seq<int>, lag: nat, m: nat, k: nat, p: seq<real>)
    requires k <= |x| && lag + |x| <= m
    requires p == Multiplied(Shifted(Reals(x), 0, m), Shifted(Reals(x), lag, m))
    ensures Sum(p[..k]) == Lags.Partial(x, lag, k) as real
  {
    if k > 0 {
      PrefixIsPartial(x, lag, m, k - 1, p);
      PrefixSum(p, k - 1);
      ProductAt(x, lag, m, k - 1, p);
      hide Sum, Multiplied, Shifted, Reals;
    } else {
      PrefixSum(p + [0.0], 0);
    }
  }

  lemma InnerIsCorrelation(x: seq<int>, lag: nat, m: nat)
    requires lag + |x| <= m
    ensures Inner(Shifted(Reals(x), 0, m), Shifted(Reals(x), lag, m)) == Lags.Correlation(x, lag) as real
  {
    var f, g := Shifted(Reals(x), 0, m), Shifted(Reals(x), lag, m);
    var p, k := Multiplied(f, g), |x|;
    PrefixIsPartial(x, lag, m, k, p);
    hide Sum;
    forall n | k <= n < m
      ensures p[n] == 0.0
    {
      assert f[n] == 0.0;
      Distribute(0.0, 0.0, 0.0, g[n]);
    }
    SumOfZeros(p[k..]);
    SumConcat(p[..k], p[k..]);
    assert p == p[..k] + p[k..];
  }

  /** A single one: its correlations are those of a silent frame. */
  lemma ImpulseCorrelates(r: seq<real>)
    requires |r| > 0 && r[0] == 1.0 && forall i :: 0 < i < |r| ==> r[i] == 0.0
    ensures CorrelationsOf([1.0], r)
  {
    hide Inner;
    assert Reals([1]) == [1.0];
    forall i | 0 <= i < |r|
      ensures r[i] == Inner(Shifted([1.0], 0, 1 + |r|), Shifted([1.0], i, 1 + |r|))
    {
      InnerIsCorrelation([1], i, 1 + |r|);
      assert Lags.Correlation([1], i) == if i == 0 then 1 else 0;
    }
  }

  /** The coefficients of every signal are the correlations of a signal that is not zero. */
  lemma CoefficientsCorrelate(x: Lags.Signal, number: nat) returns (y: seq<real>)
    requires number > 0
    ensures NonZero(y) && CorrelationsOf(y, Coefficients(x, number))
  {
    hide Inner, Lags.Partial;
    var r := Coefficients(x, number);
    if Lags.Energy(x, |x|) == 0 {
      y := [1.0];
      forall i | 0 < i < number
        ensures r[i] == 0.0
      {
        Lags.PartialSumsBounded(x, i, |x|);
      }
      assert r[0] == 1.0;
      ImpulseCorrelates(r);
      assert y[0] != 0.0;
    } else {
      y := Reals(x);
      forall i | 0 <= i < number
        ensures r[i] == Inner(Shifted(y, 0, |y| + number), Shifted(y, i, |y| + number))
      {
        InnerIsCorrelation(x, i, |y| + number);
      }
      var n := Audible(x, |x|);
      assert y[n] != 0.0;
    }
  }

  lemma {:induction false} Audible(x: seq<int>, k: nat) returns (n: nat)
    requires k <= |x| && Lags.Energy(x, k) != 0
    ensures n < k && x[n] != 0
  {
    if x[k - 1] != 0 {
      n := k - 1;
    } else {
      n := Audible(x, k - 1);
    }
  }

  /**
   Main result: whatever the samples, the coefficients before the normalisation and the lag window make
   every residual positive and every reflection coefficient less than one in magnitude, at every order.
   */
  lemma EverySignalIsRegular(x: Lags.Signal, number: nat, i: nat)
    requires 0 < i < number
    ensures var r := Coefficients(x, number);
      && Regular(r, number)
      && Predict(r, i).residual > 0.0
      && -1.0 < Predict(r, i).k[i - 1] < 1.0
  {
    hide Predict, CorrelationsOf, Coefficients;
    var r := Coefficients(x, number);
    var y := CoefficientsCorrelate(x, number);
    ResidualsPositive(y, r, number - 1);
    ResidualsPositive(y, r, i);
    ReflectionsBelowOne(y, r, i);
  }
}
