/**
 The energy of signed pulses filtered by an impulse response, and the scaled matrix entries
 that fixedCodebookSearch.c adds up in its place.
 */
module PulseEnergy {
  import opened Arithmetic
  import opened BasicOps

  const L_SUBFRAME := 40

  type Response = h: seq<Word16> | |h| == L_SUBFRAME witness seq(L_SUBFRAME, _ => 0)
  type Position = m: nat | m < L_SUBFRAME
  type Sign = s: int | s == 1 || s == -1 witness 1
  datatype Pulse = Pulse(pos: Position, sign: Sign)

  function Tap(h: Response, k: nat): int
    requires k < L_SUBFRAME
  {
    h[k]
  }

  /** A unit pulse at m after filtering, at time t. */
  function Echo(h: Response, m: nat, t: nat): int
    requires t < L_SUBFRAME
  {
    if m <= t then Tap(h, t - m) else 0
  }

  /** Inner product of the echoes of i and j over the first n samples. */
  function Inner(h: Response, i: nat, j: nat, n: nat): int
    requires n <= L_SUBFRAME
  {
    if n == 0 then 0 else Inner(h, i, j, n - 1) + Echo(h, i, n - 1) * Echo(h, j, n - 1)
  }

  /** The filtered pulses at time t. */
  function Output(h: Response, ps: seq<Pulse>, t: nat): int
    requires t < L_SUBFRAME
  {
    if |ps| == 0 then 0
    else
      var p := ps[|ps| - 1];
      Output(h, ps[..|ps| - 1], t) + p.sign * Echo(h, p.pos, t)
  }

  /** The direct definition: energy of the filtered pulses over the first n samples. */
  function Energy(h: Response, ps: seq<Pulse>, n: nat): int
    requires n <= L_SUBFRAME
  {
    if n == 0 then 0 else Energy(h, ps, n - 1) + Output(h, ps, n - 1) * Output(h, ps, n - 1)
  }

  /** Signed inner products of one pulse with a list of pulses. */
  function Cross(h: Response, ps: seq<Pulse>, p: Pulse, n: nat): int
    requires n <= L_SUBFRAME
  {
    if |ps| == 0 then 0
    else
      var q := ps[|ps| - 1];
      Cross(h, ps[..|ps| - 1], p, n) + Signed(q.sign, p.sign, Inner(h, q.pos, p.pos, n))
  }

  lemma {:induction false} CrossStep(h: Response, ps: seq<Pulse>, p: Pulse, n: nat)
    requires n < L_SUBFRAME
    ensures Cross(h, ps, p, n + 1) == Cross(h, ps, p, n) + p.sign * Echo(h, p.pos, n) * Output(h, ps, n)
  {
    hide Echo;
    var e := Echo(h, p.pos, n);
    if |ps| > 0 {
      var q, rest := ps[|ps| - 1], ps[..|ps| - 1];
      CrossStep(h, rest, p, n);
      SignedProduct(q.sign, p.sign, Inner(h, q.pos, p.pos, n), Echo(h, q.pos, n), e, Output(h, rest, n));
    }
  }

  lemma SignedProduct(s: Sign, r: Sign, x: int, d: int, e: int, y: int)
    ensures Signed(s, r, x + d * e) == Signed(s, r, x) + r * e * (s * d)
    ensures r * e * (y + s * d) == r * e * y + r * e * (s * d)
  {}

  /** Adding a pulse adds its own energy and twice its correlation with the others. */
  lemma {:induction false} EnergyAppend(h: Response, ps: seq<Pulse>, p: Pulse, n: nat)
    requires n <= L_SUBFRAME
    ensures Energy(h, ps + [p], n) == Energy(h, ps, n) + 2 * Cross(h, ps, p, n) + Inner(h, p.pos, p.pos, n)
  {
    hide Echo;
    if n == 0 {
      CrossOfNothing(h, ps, p);
    } else {
      EnergyAppend(h, ps, p, n - 1);
      CrossStep(h, ps, p, n - 1);
      assert (ps + [p])[..|ps|] == ps;
      Square(Output(h, ps, n - 1), p.sign, Echo(h, p.pos, n - 1));
    }
  }

  lemma {:induction false} CrossOfNothing(h: Response, ps: seq<Pulse>, p: Pulse)
    ensures Cross(h, ps, p, 0) == 0
  {
    if |ps| > 0 { CrossOfNothing(h, ps[..|ps| - 1], p); }
  }

  lemma Square(v: int, s: Sign, e: int)
    ensures (v + s * e) * (v + s * e) == v * v + 2 * (s * e * v) + e * e
  {}

  // ---- bounds ----

  function Total(h: Response): int { Inner(h, 0, 0, L_SUBFRAME) }

  lemma {:induction false} InnerShift(h: Response, i: nat, j: nat, n: nat)
    requires j <= i && n <= L_SUBFRAME
    ensures n <= i ==> Inner(h, i, j, n) == 0
    ensures n >= i ==> Inner(h, i, j, n) == Inner(h, 0, 0, 0) + Lagged(h, i - j, n - i)
    decreases n
  {
    if n > 0 { InnerShift(h, i, j, n - 1); }
  }

  /** The sum h[0]h[lag] + ... + h[n-1]h[n-1+lag], which one matrix diagonal accumulates. */
  function Lagged(h: Response, lag: nat, n: nat): int
    requires n == 0 || n - 1 + lag < L_SUBFRAME
  {
    if n == 0 then 0 else Lagged(h, lag, n - 1) + Tap(h, n - 1) * Tap(h, n - 1 + lag)
  }

  lemma {:induction false} InnerSymmetric(h: Response, i: nat, j: nat, n: nat)
    requires n <= L_SUBFRAME
    ensures Inner(h, i, j, n) == Inner(h, j, i, n)
  {
    if n > 0 { InnerSymmetric(h, i, j, n - 1); }
  }

  lemma {:induction false} SelfBounds(h: Response, m: nat, n: nat)
    requires n <= L_SUBFRAME
    ensures 0 <= Inner(h, m, m, n) <= Total(h)
  {
    InnerShift(h, m, m, n);
    InnerShift(h, 0, 0, L_SUBFRAME);
    LaggedGrows(h, if n >= m then n - m else 0, L_SUBFRAME);
  }

  lemma {:induction false} LaggedGrows(h: Response, m: nat, n: nat)
    requires m <= n <= L_SUBFRAME
    ensures 0 <= Lagged(h, 0, m) <= Lagged(h, 0, n)
    decreases n
  {
    if n > 0 {
      assert Tap(h, n - 1) * Tap(h, n - 1) >= 0;
      LaggedGrows(h, if m < n then m else n - 1, n - 1);
    }
  }

  /** |2xy| <= x*x + y*y, summed. */
  lemma {:induction false} TwiceInner(h: Response, i: nat, j: nat, n: nat)
    requires n <= L_SUBFRAME
    ensures -(Inner(h, i, i, n) + Inner(h, j, j, n)) <= 2 * Inner(h, i, j, n) <= Inner(h, i, i, n) + Inner(h, j, j, n)
  {
    if n > 0 {
      TwiceInner(h, i, j, n - 1);
      hide Echo;
      TwiceProduct(Echo(h, i, n - 1), Echo(h, j, n - 1));
    }
  }

  lemma TwiceProduct(x: int, y: int)
    ensures -(x * x + y * y) <= 2 * (x * y) <= x * x + y * y
  {
    SquareIsNatural(x - y);
    SquareIsNatural(x + y);
    ExpandSquares(x, y);
  }

  lemma SquareIsNatural(z: int)
    ensures z * z >= 0
  {}

  lemma ExpandSquares(x: int, y: int)
    ensures (x - y) * (x - y) == x * x + y * y - 2 * (x * y)
    ensures (x + y) * (x + y) == x * x + y * y + 2 * (x * y)
  {}

  lemma InnerBounds(h: Response, i: nat, j: nat)
    ensures -Total(h) <= Inner(h, i, j, L_SUBFRAME) <= Total(h)
  {
    TwiceInner(h, i, j, L_SUBFRAME);
    SelfBounds(h, i, L_SUBFRAME);
    SelfBounds(h, j, L_SUBFRAME);
  }

  // ---- the scaled entries the search adds up ----

  /** A diagonal entry: half the energy of one pulse, scaled down by 2^S. */
  function Diagonal(h: Response, S: nat, m: Position): int {
    Inner(h, m, m, L_SUBFRAME) / 2 / TwoTo(S)
  }

  /** An off-diagonal entry: the inner product scaled down, then given the product of the signs. */
  function Entry(h: Response, S: nat, p: Pulse, q: Pulse): int {
    Signed(p.sign, q.sign, Inner(h, p.pos, q.pos, L_SUBFRAME) / TwoTo(S))
  }

  function Signed(s: Sign, r: Sign, x: int): int { s * r * x }

  function EntrySum(h: Response, S: nat, ps: seq<Pulse>, p: Pulse): int {
    if |ps| == 0 then 0
    else EntrySum(h, S, ps[..|ps| - 1], p) + Entry(h, S, ps[|ps| - 1], p)
  }

  /** What the search keeps for a list of pulses: a diagonal entry each, an entry for each pair. */
  function Kept(h: Response, S: nat, ps: seq<Pulse>): int {
    if |ps| == 0 then 0
    else
      var p, rest := ps[|ps| - 1], ps[..|ps| - 1];
      Kept(h, S, rest) + Diagonal(h, S, p.pos) + EntrySum(h, S, rest, p)
  }

  /** Flooring each entry costs less than one unit of 2^S, whatever the signs. */
  lemma {:induction false} EntrySumError(h: Response, S: nat, ps: seq<Pulse>, p: Pulse)
    ensures var e := Cross(h, ps, p, L_SUBFRAME) - TwoTo(S) * EntrySum(h, S, ps, p);
      -(|ps| * (TwoTo(S) - 1)) <= e <= |ps| * (TwoTo(S) - 1)
  {
    hide Inner, TwoTo, Signed;
    if |ps| > 0 {
      var q, rest := ps[|ps| - 1], ps[..|ps| - 1];
      EntrySumError(h, S, rest, p);
      EntryError(Inner(h, q.pos, p.pos, L_SUBFRAME), TwoTo(S), q.sign, p.sign,
                 Cross(h, rest, p, L_SUBFRAME), EntrySum(h, S, rest, p), |rest|);
    }
  }

  lemma EntryError(x: int, P: int, s: Sign, r: Sign, c: int, y: int, n: nat)
    requires P >= 1
    requires -(n * (P - 1)) <= c - P * y <= n * (P - 1)
    ensures var e := (c + Signed(s, r, x)) - P * (y + Signed(s, r, x / P));
      -((n + 1) * (P - 1)) <= e <= (n + 1) * (P - 1)
  {
    assert x == P * (x / P) + x % P;
    MulSigns(P, x / P);
    var z := Signed(s, r, x / P);
    assert P * (y + z) == P * y + P * z;
    assert (n + 1) * (P - 1) == n * (P - 1) + (P - 1);
    if s == r {
      assert Signed(s, r, x) == x && z == x / P;
    } else {
      assert Signed(s, r, x) == -x && z == -(x / P);
    }
  }

  /** Two units of 2^S - 1 for each pair of n pulses. */
  function Slack(n: int, P: int): int { n * (n - 1) * (P - 1) }

  /**
   Main result: 2^(S+1) times the kept energy refines the energy of the filtered pulses. Without
   scaling (S = 0) twice the kept energy is never above it and at most one unit per pulse below.
   */
  lemma {:induction false} KeptRefinesEnergy(h: Response, S: nat, ps: seq<Pulse>)
    ensures var n, P := |ps|, TwoTo(S);
      var e := Energy(h, ps, L_SUBFRAME) - 2 * P * Kept(h, S, ps);
      -Slack(n, P) <= e <= Slack(n, P) + n * (2 * P - 1)
  {
    if |ps| == 0 {
      NoPulseNoEnergy(h, ps, L_SUBFRAME);
    } else {
      hide Inner, TwoTo, Cross, EntrySum, Energy;
      var p, rest := ps[|ps| - 1], ps[..|ps| - 1];
      KeptRefinesEnergy(h, S, rest);
      assert ps == rest + [p];
      EnergyAppend(h, rest, p, L_SUBFRAME);
      EntrySumError(h, S, rest, p);
      AddPulse(|rest|, TwoTo(S), Energy(h, rest, L_SUBFRAME), Kept(h, S, rest),
               Cross(h, rest, p, L_SUBFRAME), EntrySum(h, S, rest, p), Inner(h, p.pos, p.pos, L_SUBFRAME));
    }
  }

  lemma {:induction false} NoPulseNoEnergy(h: Response, ps: seq<Pulse>, n: nat)
    requires |ps| == 0 && n <= L_SUBFRAME
    ensures Energy(h, ps, n) == 0
  {
    if n > 0 { NoPulseNoEnergy(h, ps, n - 1); }
  }

  lemma AddPulse(n: int, P: int, E: int, K: int, c: int, s: int, x: int)
    requires P >= 1 && n >= 0
    requires -Slack(n, P) <= E - 2 * P * K <= Slack(n, P) + n * (2 * P - 1)
    requires -(n * (P - 1)) <= c - P * s <= n * (P - 1)
    ensures var e := (E + 2 * c + x) - 2 * P * (K + x / 2 / P + s);
      -Slack(n + 1, P) <= e <= Slack(n + 1, P) + (n + 1) * (2 * P - 1)
  {
    HalfThenFloor(x, P);
    SlackStep(n, P);
    hide Slack;
    var d := x / 2 / P;
    Distribute(P, K, d, s);
  }

  lemma SlackStep(n: int, P: int)
    ensures Slack(n + 1, P) == Slack(n, P) + 2 * (n * (P - 1))
    ensures (n + 1) * (2 * P - 1) == n * (2 * P - 1) + (2 * P - 1)
  {}

  lemma Distribute(P: int, K: int, d: int, s: int)
    ensures 2 * P * (K + d + s) == 2 * P * K + 2 * P * d + 2 * (P * s)
  {}

  lemma HalfThenFloor(x: int, P: int)
    requires P >= 1
    ensures 0 <= x - 2 * P * (x / 2 / P) <= 2 * P - 1
  {
    var y := x / 2;
    assert y == P * (y / P) + y % P;
    assert 2 * P * (y / P) == 2 * (P * (y / P));
  }

  // ---- positivity and range ----

  /** The earliest of distinct pulses is not overlaid by the others, so some energy remains. */
  lemma EnergyIsPositive(h: Response, ps: seq<Pulse>)
    requires |ps| > 0
    requires forall i, j :: 0 <= i < j < |ps| ==> ps[i].pos != ps[j].pos
    ensures Energy(h, ps, L_SUBFRAME) >= Tap(h, 0) * Tap(h, 0)
  {
    var k := Earliest(ps);
    OutputBefore(h, ps, ps[k].pos, k);
    EnergyAtLeast(h, ps, ps[k].pos, L_SUBFRAME);
    var v, x := Output(h, ps, ps[k].pos), Tap(h, 0);
    assert v * v == x * x by { if ps[k].sign == 1 { assert v == x; } else { assert v == -x; } }
  }

  lemma {:induction false} Earliest(ps: seq<Pulse>) returns (k: nat)
    requires |ps| > 0
    ensures k < |ps| && forall i :: 0 <= i < |ps| ==> ps[k].pos <= ps[i].pos
  {
    if |ps| == 1 {
      k := 0;
    } else {
      k := Earliest(ps[..|ps| - 1]);
      assert forall i :: 0 <= i < |ps| - 1 ==> ps[..|ps| - 1][i] == ps[i];
      if ps[|ps| - 1].pos < ps[k].pos { k := |ps| - 1; }
    }
  }

  /** At the position of pulse k only pulse k sounds, when all the others start later. */
  lemma {:induction false} OutputBefore(h: Response, ps: seq<Pulse>, t: nat, k: nat)
    requires t < L_SUBFRAME
    requires forall i :: 0 <= i < |ps| && i != k ==> ps[i].pos > t
    requires k < |ps| ==> ps[k].pos == t
    ensures Output(h, ps, t) == if k < |ps| then ps[k].sign * Tap(h, 0) else 0
  {
    if |ps| > 0 {
      OutputBefore(h, ps[..|ps| - 1], t, k);
    }
  }

  lemma {:induction false} EnergyAtLeast(h: Response, ps: seq<Pulse>, t: nat, n: nat)
    requires n <= L_SUBFRAME
    ensures 0 <= Energy(h, ps, n)
    ensures t < n ==> Output(h, ps, t) * Output(h, ps, t) <= Energy(h, ps, n)
  {
    if n > 0 {
      EnergyAtLeast(h, ps, t, n - 1);
      var v := Output(h, ps, n - 1);
      assert v * v >= 0;
    }
  }
}
