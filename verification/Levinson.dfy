/** Finite sums of real sequences. */
module RealSums {

  function Sum(s: seq<real>): real {
    if |s| == 0 then 0.0 else Sum(s[..|s| - 1]) + s[|s| - 1]
  }

  lemma {:induction false} SumConcat(s: seq<real>, t: seq<real>)
    ensures Sum(s + t) == Sum(s) + Sum(t)
  {
    if |t| == 0 {
      assert s + t == s;
    } else {
      var n := |t| - 1;
      SumConcat(s, t[..n]);
      assert (s + t)[..|s + t| - 1] == s + t[..n];
    }
  }

  /** The sum of s[j] + k * t[j] splits into two sums. */
  lemma {:induction false} SumLinear(s: seq<real>, t: seq<real>, k: real, u: seq<real>)
    requires |s| == |t| == |u|
    requires forall j :: 0 <= j < |s| ==> u[j] == s[j] + k * t[j]
    ensures Sum(u) == Sum(s) + k * Sum(t)
  {
    if |s| > 0 {
      var n := |s| - 1;
      SumLinear(s[..n], t[..n], k, u[..n]);
      assert k * Sum(t) == k * Sum(t[..n]) + k * t[n];
    }
  }

  lemma {:induction false} SumReverse(s: seq<real>, t: seq<real>)
    requires |s| == |t|
    requires forall j :: 0 <= j < |s| ==> t[j] == s[|s| - 1 - j]
    ensures Sum(s) == Sum(t)
  {
    if |s| > 0 {
      var n := |s| - 1;
      SumReverse(s[..n], t[1..]);
      assert t == [t[0]] + t[1..];
      SumConcat([t[0]], t[1..]);
      assert Sum([t[0]]) == t[0] by { assert [t[0]][..0] == []; }
    }
  }

  lemma {:induction false} SumOfZeros(s: seq<real>)
    requires forall j :: 0 <= j < |s| ==> s[j] == 0.0
    ensures Sum(s) == 0.0
  {
    if |s| > 0 {
      SumOfZeros(s[..|s| - 1]);
    }
  }

  /** A sum whose only non-zero term is the one at index p. */
  lemma {:induction false} SumOfOne(s: seq<real>, p: nat)
    requires p < |s|
    requires forall j :: 0 <= j < |s| && j != p ==> s[j] == 0.0
    ensures Sum(s) == s[p]
  {
    assert s == s[..p] + [s[p]] + s[p + 1..];
    SumConcat(s[..p] + [s[p]], s[p + 1..]);
    SumConcat(s[..p], [s[p]]);
    SumOfZeros(s[..p]);
    SumOfZeros(s[p + 1..]);
    assert Sum([s[p]]) == s[p] by { assert [s[p]][..0] == []; }
  }
}

/**
 The Levinson-Durbin recursion of computeLP.c in exact arithmetic.

 The recursion is stated over real numbers: Q-formats and their rounding are not part of it.
 `Toeplitz(a, r, t)` is row t of the symmetric Toeplitz system, applied to the filter a.
 */
module Levinson {
  import opened RealSums

  function Distance(i: int, j: int): nat {
    if i < j then j - i else i - j
  }

  /** The products a[j] * r[|t - j|], j = 0 .. |a|-1. */
  function Products(a: seq<real>, r: seq<real>, t: nat): (p: seq<real>)
    requires |a| <= |r| && t < |r|
    ensures |p| == |a|
    ensures forall j :: 0 <= j < |a| ==> p[j] == a[j] * r[Distance(t, j)]
  {
    seq(|a|, j requires 0 <= j < |a| => a[j] * r[Distance(t, j)])
  }

  function Toeplitz(a: seq<real>, r: seq<real>, t: nat): real
    requires |a| <= |r| && t < |r|
  {
    Sum(Products(a, r, t))
  }

  /** The normal equations of order |a|-1: every row but row 0 vanishes. */
  ghost predicate NormalEquations(a: seq<real>, r: seq<real>)
    requires |a| <= |r|
  {
    forall t {:trigger Toeplitz(a, r, t)} :: 1 <= t < |a| ==> Toeplitz(a, r, t) == 0.0
  }

  datatype Predictor = Predictor(a: seq<real>, k: seq<real>, residual: real)

  /** The multiply-accumulate of the recursion: c + x * y. */
  function Mac(c: real, x: real, y: real): real {
    c + x * y
  }

  /** One order update: the padded filter plus k times its reversal. */
  function Update(a: seq<real>, k: real): (b: seq<real>)
    requires |a| > 0
    ensures |b| == |a| + 1
  {
    var padded := a + [0.0];
    seq(|a| + 1, j requires 0 <= j <= |a| => Mac(padded[j], k, padded[|a| - j]))
  }

  /** The recursion up to order i; defined as long as no residual it divides by is zero. */
  function Predict(r: seq<real>, i: nat): (p: Predictor)
    requires i < |r|
    ensures |p.a| == i + 1 && |p.k| == i && p.a[0] == 1.0
    decreases i
  {
    if i == 0 then Predictor([1.0], [], r[0])
    else
      var q := Predict(r, i - 1);
      if q.residual == 0.0 then Predictor(q.a + [0.0], q.k + [0.0], 0.0)
      else
        var k := -Toeplitz(q.a, r, i) / q.residual;
        Predictor(Update(q.a, k), q.k + [k], q.residual * (1.0 - k * k))
  }

  /** No division by zero happens while the recursion reaches order i. */
  ghost predicate Regular(r: seq<real>, i: nat)
    requires i <= |r|
  {
    forall l :: 0 <= l < i ==> Predict(r, l).residual != 0.0
  }

  lemma Distribute(x: real, y: real, k: real, d: real)
    ensures (x + k * y) * d == x * d + k * (y * d)
  {}

  lemma PadKeepsRows(a: seq<real>, r: seq<real>, t: nat)
    requires |a| < |r| && t < |r|
    ensures Toeplitz(a + [0.0], r, t) == Toeplitz(a, r, t)
  {
    var b := a + [0.0];
    var p, q := Products(b, r, t), Products(a, r, t);
    forall j | 0 <= j < |a|
      ensures p[j] == q[j]
    {
      assert b[j] == a[j];
    }
    assert p[|a|] == 0.0 by { Distribute(0.0, 0.0, 0.0, r[Distance(t, |a|)]); }
    assert p == q + [0.0];
    SumConcat(q, [0.0]);
    assert [0.0][..0] == [];
  }

  /** Row t of the reversed filter is row |a|-1-t of the filter: the matrix is persymmetric. */
  lemma ReversedRow(a: seq<real>, b: seq<real>, r: seq<real>, t: nat)
    requires |a| == |b| <= |r| && t < |a|
    requires forall j :: 0 <= j < |a| ==> b[j] == a[|a| - 1 - j]
    ensures Toeplitz(b, r, t) == Toeplitz(a, r, |a| - 1 - t)
  {
    SumReverse(Products(b, r, t), Products(a, r, |a| - 1 - t));
  }

  /** Rows are linear in the filter. */
  lemma RowLinear(a: seq<real>, b: seq<real>, k: real, c: seq<real>, r: seq<real>, t: nat)
    requires |a| == |b| == |c| <= |r| && t < |r|
    requires forall j :: 0 <= j < |a| ==> c[j] == Mac(a[j], k, b[j])
    ensures Toeplitz(c, r, t) == Toeplitz(a, r, t) + k * Toeplitz(b, r, t)
  {
    var p, q, u := Products(a, r, t), Products(b, r, t), Products(c, r, t);
    forall j | 0 <= j < |a|
      ensures u[j] == p[j] + k * q[j]
    {
      var d := r[Distance(t, j)];
      assert p[j] == a[j] * d && q[j] == b[j] * d && u[j] == c[j] * d;
      assert c[j] == Mac(a[j], k, b[j]);
      Distribute(a[j], b[j], k, d);
    }
    SumLinear(p, q, k, u);
  }

  lemma UpdateRow(a: seq<real>, k: real, r: seq<real>, t: nat)
    requires 0 < |a| < |r| && t <= |a|
    ensures Toeplitz(Update(a, k), r, t) == Toeplitz(a, r, t) + k * Toeplitz(a, r, |a| - t)
  {
    hide Toeplitz, Mac;
    var padded := a + [0.0];
    var n := |a|;
    var rev := seq(n + 1, j requires 0 <= j <= n => padded[n - j]);
    RowLinear(padded, rev, k, Update(a, k), r, t);
    ReversedRow(padded, rev, r, t);
    PadKeepsRows(a, r, t);
    PadKeepsRows(a, r, n - t);
  }

  /** With k = -s / E, adding k times the reversal clears row i and scales row 0 by 1 - k*k. */
  lemma ReflectionScales(E: real, s: real, k: real)
    requires E != 0.0 && k == -s / E
    ensures s + k * E == 0.0
    ensures E + k * s == E * (1.0 - k * k)
  {
    assert k * E == -s;
    assert k * s == -(k * (k * E));
    assert k * (k * E) == E * (k * k);
  }

  /** One order update keeps the normal equations and turns row 0 into the next residual. */
  lemma UpdateSolves(a: seq<real>, E: real, k: real, b: seq<real>, r: seq<real>)
    requires 0 < |a| < |r| && NormalEquations(a, r)
    requires E == Toeplitz(a, r, 0) && E != 0.0
    requires k == -Toeplitz(a, r, |a|) / E && b == Update(a, k)
    ensures NormalEquations(b, r) && Toeplitz(b, r, 0) == E * (1.0 - k * k)
  {
    hide Toeplitz, Update;
    var n, s := |a|, Toeplitz(a, r, |a|);
    ReflectionScales(E, s, k);
    forall t | 1 <= t < |b|
      ensures Toeplitz(b, r, t) == 0.0
    {
      UpdateRow(a, k, r, t);
      if t < n {
        assert Toeplitz(a, r, t) == 0.0 && Toeplitz(a, r, n - t) == 0.0;
        assert k * 0.0 == 0.0;
      } else {
        assert t == n;
      }
    }
    UpdateRow(a, k, r, 0);
  }

  lemma PredictStart(r: seq<real>)
    requires |r| > 0
    ensures Predict(r, 0).a == [1.0] && Predict(r, 0).k == [] && Predict(r, 0).residual == r[0]
  {}

  lemma PredictStep(r: seq<real>, i: nat)
    requires 0 < i < |r| && Predict(r, i - 1).residual != 0.0
    ensures var q, p := Predict(r, i - 1), Predict(r, i);
      && p.k[i - 1] == -Toeplitz(q.a, r, i) / q.residual
      && p.a == Update(q.a, p.k[i - 1])
      && p.k[..i - 1] == q.k
      && p.residual == q.residual * (1.0 - p.k[i - 1] * p.k[i - 1])
  {
    hide Toeplitz, Update;
  }

  /** Main result: at every order the filter solves the normal equations and row 0 is the residual. */
  lemma {:induction false} SolvesNormalEquations(r: seq<real>, i: nat)
    requires i < |r| && Regular(r, i)
    ensures NormalEquations(Predict(r, i).a, r)
    ensures Toeplitz(Predict(r, i).a, r, 0) == Predict(r, i).residual
    decreases i
  {
    hide Toeplitz, Update, Predict;
    if i == 0 {
      PredictStart(r);
      UnitRow(r, 0);
    } else {
      SolvesNormalEquations(r, i - 1);
      PredictStep(r, i);
      var q, p := Predict(r, i - 1), Predict(r, i);
      UpdateSolves(q.a, q.residual, p.k[i - 1], p.a, r);
    }
  }

  /** d is annihilated by the leading |d| x |d| Toeplitz block. */
  ghost predicate Kernel(d: seq<real>, r: seq<real>)
    requires |d| <= |r|
  {
    forall t {:trigger Toeplitz(d, r, t)} :: 0 <= t < |d| ==> Toeplitz(d, r, t) == 0.0
  }

  ghost predicate Zero(d: seq<real>) {
    forall j :: 0 <= j < |d| ==> d[j] == 0.0
  }

  /** The leading n x n Toeplitz block is singular. */
  ghost predicate Singular(r: seq<real>, n: nat)
    requires n <= |r|
  {
    exists d: seq<real> :: |d| == n && Kernel(d, r) && !Zero(d)
  }

  function Rows(x: seq<real>, y: seq<real>, r: seq<real>): (s: seq<real>)
    requires |x| <= |r| && |y| <= |r|
    ensures |s| == |x|
  {
    seq(|x|, t requires 0 <= t < |x| => x[t] * Toeplitz(y, r, t))
  }

  /** The bilinear form x' T y. */
  function Form(x: seq<real>, y: seq<real>, r: seq<real>): real
    requires |x| <= |r| && |y| <= |r|
  {
    Sum(Rows(x, y, r))
  }

  lemma ToeplitzAppend(x: seq<real>, c: real, r: seq<real>, t: nat)
    requires |x| < |r| && t < |r|
    ensures Toeplitz(x + [c], r, t) == Toeplitz(x, r, t) + c * r[Distance(t, |x|)]
  {
    var p, q := Products(x + [c], r, t), Products(x, r, t);
    forall j | 0 <= j < |x|
      ensures p[j] == q[j]
    {
      assert (x + [c])[j] == x[j];
    }
    assert p[..|x|] == q;
  }

  lemma FormAppendLeft(w: seq<real>, c: real, y: seq<real>, r: seq<real>)
    requires |w| < |r| && |y| <= |r|
    ensures Form(w + [c], y, r) == Form(w, y, r) + c * Toeplitz(y, r, |w|)
  {
    hide Toeplitz;
    var x, n := w + [c], |w|;
    var p, q := Rows(x, y, r), Rows(w, y, r);
    forall t | 0 <= t < n
      ensures p[t] == q[t]
    {
      assert x[t] == w[t];
    }
    assert p[..n] == q;
    assert p[n] == c * Toeplitz(y, r, n);
  }

  lemma FormAppendRight(y: seq<real>, w: seq<real>, c: real, r: seq<real>)
    requires |w| < |r| && |y| <= |r|
    ensures Form(y, w + [c], r) == Form(y, w, r) + c * Toeplitz(y, r, |w|)
  {
    hide Toeplitz, Sum;
    var n := |w|;
    var p, q, u := Rows(y, w, r), Products(y, r, n), Rows(y, w + [c], r);
    forall s | 0 <= s < |y|
      ensures u[s] == p[s] + c * q[s]
    {
      ToeplitzAppend(w, c, r, s);
      SplitTerm(y[s], Toeplitz(w, r, s), c, r[Distance(n, s)]);
    }
    SumLinear(p, q, c, u);
    RowIsSum(y, r, n);
  }

  lemma {:induction false} FormSymmetric(x: seq<real>, y: seq<real>, r: seq<real>)
    requires |x| <= |r| && |y| <= |r|
    ensures Form(x, y, r) == Form(y, x, r)
    decreases |x|
  {
    if |x| == 0 {
      hide Toeplitz;
      forall t | 0 <= t < |y|
        ensures Rows(y, x, r)[t] == 0.0
      {
        EmptyRow(x, r, t);
        assert y[t] * 0.0 == 0.0;
      }
      SumOfZeros(Rows(y, x, r));
    } else {
      hide Toeplitz, Form;
      var w, c := x[..|x| - 1], x[|x| - 1];
      assert x == w + [c];
      FormSymmetric(w, y, r);
      FormAppendLeft(w, c, y, r);
      FormAppendRight(y, w, c, r);
    }
  }

  lemma EmptyRow(x: seq<real>, r: seq<real>, t: nat)
    requires |x| == 0 && t < |r|
    ensures Toeplitz(x, r, t) == 0.0
  {}

  lemma RowIsSum(y: seq<real>, r: seq<real>, t: nat)
    requires |y| <= |r| && t < |r|
    ensures Toeplitz(y, r, t) == Sum(Products(y, r, t))
  {}

  lemma SplitTerm(y: real, w: real, c: real, d: real)
    ensures y * (w + c * d) == y * w + c * (y * d)
  {}

  /** With no zero residual below order n, the leading blocks up to n x n are non-singular. */
  lemma {:induction false} RegularHasTrivialKernel(d: seq<real>, r: seq<real>)
    requires 0 < |d| <= |r| && Regular(r, |d|) && Kernel(d, r)
    ensures Zero(d)
    decreases |d|
  {
    hide Toeplitz, Predict;
    var n := |d| - 1;
    SolvesNormalEquations(r, n);
    var a, E := Predict(r, n).a, Predict(r, n).residual;
    var rev := seq(n + 1, j requires 0 <= j <= n => a[n - j]);
    forall t | 0 <= t < n
      ensures Rows(d, rev, r)[t] == 0.0
    {
      ReversedRow(a, rev, r, t);
      assert d[t] * 0.0 == 0.0;
    }
    ReversedRow(a, rev, r, n);
    SumOfOne(Rows(d, rev, r), n);
    forall t | 0 <= t < |rev|
      ensures Rows(rev, d, r)[t] == 0.0
    {
      assert rev[t] * 0.0 == 0.0;
    }
    SumOfZeros(Rows(rev, d, r));
    FormSymmetric(d, rev, r);
    assert d[n] * E == 0.0 && E != 0.0;
    assert d[n] == 0.0;
    if n > 0 {
      forall t | 0 <= t < n
        ensures Toeplitz(d[..n], r, t) == 0.0
      {
        PadKeepsRows(d[..n], r, t);
        assert d[..n] + [0.0] == d;
      }
      RegularHasTrivialKernel(d[..n], r);
    }
  }

  /** The recursion divides by zero at some order up to n exactly when a leading block is singular. */
  lemma RegularIffNonSingular(r: seq<real>, n: nat)
    requires n < |r|
    ensures Regular(r, n) <==> forall l :: 1 <= l <= n ==> !Singular(r, l)
  {
    hide Toeplitz, Predict;
    if Regular(r, n) {
      forall l | 1 <= l <= n
        ensures !Singular(r, l)
      {
        forall d: seq<real> | |d| == l && Kernel(d, r)
          ensures Zero(d)
        {
          RegularHasTrivialKernel(d, r);
        }
      }
    } else {
      var l := FirstZero(r, n);
      SolvesNormalEquations(r, l);
      var a := Predict(r, l).a;
      assert |a| == l + 1 && Kernel(a, r) && a[0] == 1.0;
      assert Singular(r, l + 1);
    }
  }

  lemma {:induction false} FirstZero(r: seq<real>, n: nat) returns (l: nat)
    requires n < |r| && !Regular(r, n)
    ensures l < n && Regular(r, l) && Predict(r, l).residual == 0.0
    decreases n
  {
    hide Predict;
    if Regular(r, n - 1) {
      l := n - 1;
    } else {
      l := FirstZero(r, n - 1);
    }
  }

  /** The filter is the only one with leading coefficient 1 that solves the normal equations. */
  lemma SolutionIsUnique(r: seq<real>, m: nat, b: seq<real>)
    requires m < |r| && Regular(r, m)
    requires |b| == m + 1 && b[0] == 1.0 && NormalEquations(b, r)
    ensures b == Predict(r, m).a
  {
    hide Toeplitz, Predict;
    SolvesNormalEquations(r, m);
    var a := Predict(r, m).a;
    var d := seq(m + 1, j requires 0 <= j <= m => Mac(b[j], -1.0, a[j]));
    if m > 0 {
      forall t | 0 <= t < m
        ensures Toeplitz(d[1..], r, t) == 0.0
      {
        RowLinear(b, a, -1.0, d, r, t + 1);
        ShiftedRow(d, r, t);
      }
      assert |d[1..]| == m && Kernel(d[1..], r);
      RegularHasTrivialKernel(d[1..], r);
      assert Zero(d[1..]);
    }
    forall j | 0 <= j <= m
      ensures b[j] == a[j]
    {
      if j > 0 {
        assert d[1..][j - 1] == 0.0;
        assert Mac(b[j], -1.0, a[j]) == b[j] - a[j];
      }
    }
  }

  lemma ShiftedRow(d: seq<real>, r: seq<real>, t: nat)
    requires 0 < |d| <= |r| && d[0] == 0.0 && t + 1 < |d|
    ensures Toeplitz(d, r, t + 1) == Toeplitz(d[1..], r, t)
  {
    hide Sum;
    var p, q := Products(d, r, t + 1), Products(d[1..], r, t);
    assert p[0] == 0.0 by { Distribute(0.0, 0.0, 0.0, r[Distance(t + 1, 0)]); }
    forall j | 0 <= j < |q|
      ensures p[j + 1] == q[j]
    {
      assert d[1..][j] == d[j + 1];
    }
    assert p == [0.0] + q;
    SumConcat([0.0], q);
    PrefixSum([0.0], 0);
    assert [0.0] == [0.0][..1];
  }

  lemma PrefixSum(s: seq<real>, j: nat)
    requires j < |s|
    ensures Sum(s[..j + 1]) == Sum(s[..j]) + s[j]
    ensures Sum(s[..0]) == 0.0
  {
    assert s[..j + 1][..j] == s[..j];
  }

  /** sum = r[i] + a[1]*r[i-1] + ... + a[i-1]*r[1]: the row the new order has to clear. */
  method PredictionError(a: array<real>, r: seq<real>, i: nat) returns (sum: real)
    requires 1 <= i < a.Length && i < |r| && a[0] == 1.0
    ensures sum == Toeplitz(a[..i], r, i)
  {
    hide Toeplitz, Sum;
    ghost var terms := Products(a[..i], r, i);
    PrefixSum(terms, 0);
    assert terms[0] == a[..i][0] * r[i] == r[i];
    sum := 0.0;
    for j := 1 to i
      invariant sum + r[i] == Sum(terms[..j])
    {
      PrefixSum(terms, j);
      assert Distance(i, j) == i - j;
      assert terms[j] == a[..i][j] * r[i - j];
      sum := sum + a[j] * r[i - j];
    }
    sum := sum + r[i];
    assert terms[..i] == terms;
    RowIsSum(a[..i], r, i);
  }

  /** a[j] += a[i] * previous[i-j] for j = 1 .. i-1, with a[i] the new reflection coefficient. */
  method UpdateCoefficients(a: array<real>, previous: array<real>, i: nat)
    requires 1 <= i < a.Length == previous.Length && a != previous && a[0] == 1.0
    modifies a, previous
    ensures a[..i + 1] == Update(old(a[..i]), old(a[i]))
    ensures a[i + 1..] == old(a[i + 1..])
  {
    hide Mac;
    for j := 1 to i
      modifies previous
      invariant forall l :: 1 <= l < j ==> previous[l] == a[l]
    {
      previous[j] := a[j];
    }
    ghost var q, k := old(a[..i]), a[i];
    assert forall l :: 1 <= l < i ==> previous[l] == q[l];
    for j := 1 to i
      modifies a
      invariant a[i] == k && a[0] == 1.0 && a[i + 1..] == old(a[i + 1..])
      invariant forall l :: 1 <= l < j ==> a[l] == Mac(q[l], k, q[i - l])
      invariant forall l :: j <= l < i ==> a[l] == q[l]
    {
      a[j] := Mac(a[j], a[i], previous[i - j]);
    }
    LastOfUpdate(q, k);
    var u := Update(q, k);
    forall l | 1 <= l < i
      ensures u[l] == a[l]
    {
      assert (q + [0.0])[l] == q[l] && (q + [0.0])[i - l] == q[i - l];
    }
    assert a[..i + 1] == u;
  }

  /** The loops of autoCorrelation2LP, for any order. */
  method AutoCorrelation2LP(r: seq<real>, order: nat)
    returns (a: array<real>, reflection: array<real>, E: real)
    requires 1 <= order < |r| && Regular(r, order)
    ensures fresh(a) && fresh(reflection) && a.Length == order + 1 && reflection.Length == order
    ensures a[0] == 1.0 && NormalEquations(a[..], r)
    ensures E == Toeplitz(a[..], r, 0)
    ensures a[..] == Predict(r, order).a && reflection[..] == Predict(r, order).k
    ensures E == Predict(r, order).residual
  {
    hide Toeplitz, Predict, Update;
    var previous := new real[order + 1];
    a, reflection := new real[order + 1], new real[order];
    PredictStart(r);
    PredictStep(r, 1);
    FirstOrder(r);
    a[0] := 1.0;
    a[1] := -r[1] / r[0];
    reflection[0] := a[1];
    E := r[0] * (1.0 - a[1] * a[1]);
    assert reflection[..1] == Predict(r, 1).k;
    var i := 2;
    while i < order + 1
      invariant 2 <= i <= order + 1
      invariant a[..i] == Predict(r, i - 1).a && reflection[..i - 1] == Predict(r, i - 1).k
      invariant E == Predict(r, i - 1).residual
    {
      assert a[0] == a[..i][0];
      PredictStep(r, i);
      var sum := PredictionError(a, r, i);
      a[i] := -sum / E;
      reflection[i - 1] := a[i];
      ghost var k := a[i];
      assert a[..i] == Predict(r, i - 1).a;
      UpdateCoefficients(a, previous, i);
      assert a[..i + 1][i] == a[i];
      LastOfUpdate(Predict(r, i - 1).a, k);
      E := E * (1.0 - a[i] * a[i]);
      assert reflection[..i] == Predict(r, i).k;
      i := i + 1;
    }
    assert a[..] == a[..order + 1] && reflection[..] == reflection[..order];
    SolvesNormalEquations(r, order);
  }

  lemma UnitRow(r: seq<real>, t: nat)
    requires t < |r|
    ensures Toeplitz([1.0], r, t) == r[t]
  {
    var a := [1.0];
    var p := Products(a, r, t);
    assert p[0] == a[0] * r[t] == r[t];
    assert Sum(p) == Sum(p[..0]) + p[0];
  }

  lemma FirstOrder(r: seq<real>)
    requires |r| > 1 && r[0] != 0.0
    ensures Predict(r, 1).a == [1.0, -r[1] / r[0]] && Predict(r, 1).k == [-r[1] / r[0]]
  {
    hide Toeplitz, Predict, Update;
    PredictStart(r);
    UnitRow(r, 1);
    PredictStep(r, 1);
    var p := Predict(r, 1);
    LastOfUpdate([1.0], p.k[0]);
    assert p.k[0] == -r[1] / r[0];
    assert p.a == [p.a[0], p.a[1]];
  }

  lemma LastOfUpdate(a: seq<real>, k: real)
    requires |a| > 0 && a[0] == 1.0
    ensures Update(a, k)[0] == 1.0 && Update(a, k)[|a|] == k
  {
    assert k * 0.0 == 0.0 && k * 1.0 == k;
  }
}
