/** The error the beam search adds up: cb_search.c, lines 364-389, over the distances of vq.c, lines 83-147. */
module BeamDistance {
  import opened Arithmetic
  import opened VqSearch
  import opened BeamSearch

  // ---- the search with its quantiser ----

  /** The N nearest of the filtered codewords. */
  function Ranked(c: Codec, filtered: seq<int>, E: seq<int>, x: seq<int>): (r: seq<Found>)
    requires c.N > 0 && |x| == c.sub && Fits(x, filtered, c.size, E)
    ensures |r| == if c.size < c.N then c.size else c.N
  {
    Nearest(Candidates(x, filtered, c.size, E, c.haveSign, c.size), c.N)
  }

  /** The codec's quantiser is the one of vq.c, on the filtered codebook. */
  ghost predicate Quantises(c: Codec, filtered: seq<int>, E: seq<int>) {
    && 0 < c.N <= c.size && |filtered| == c.size * c.sub && |E| == c.size
    && forall x: seq<int> :: |x| == c.sub ==>
      && |c.nearest(x)| == c.N
      && forall k :: 0 <= k < c.N ==>
        c.nearest(x)[k] == Ranked(c, filtered, E, x)[k].index && c.distance(x, c.nearest(x)[k]) == Ranked(c, filtered, E, x)[k].dist
  }

  /** Everything kept is one of the candidates. */
  lemma RankedIsCandidate(c: Codec, filtered: seq<int>, E: seq<int>, x: seq<int>, k: nat) returns (i: nat)
    requires 0 < c.N && |x| == c.sub && Fits(x, filtered, c.size, E) && k < |Ranked(c, filtered, E, x)|
    ensures i < c.size && Ranked(c, filtered, E, x)[k] == Candidate(x, filtered, c.size, E, c.haveSign, i)
  {
    hide Candidate, Nearest, Fits;
    var ds := Candidates(x, filtered, c.size, E, c.haveSign, c.size);
    var out := KeepsNearest(ds, c.N);
    var r := Ranked(c, filtered, E, x);
    assert r[k] in multiset(r) + out;
    assert r[k] in ds;
    i :| 0 <= i < |ds| && ds[i] == r[k];
  }

  /** The distance vq.c stores beside an index. */
  function DistanceOf(c: Codec, filtered: seq<int>, E: seq<int>, x: seq<int>, index: nat): int
    requires |x| == c.sub && Fits(x, filtered, c.size, E) && index < 2 * c.size
  {
    var rind := if index >= c.size then index - c.size else index;
    Inside(rind, c.size, c.sub);
    var dot := Dot(x, filtered, rind * c.sub, c.sub);
    if !c.haveSign then Wrap32(E[rind] / 2 - dot)
    else Wrap32((if index >= c.size then dot else Wrap32(0 - dot)) + E[rind] / 2)
  }

  /** A codec with this quantiser. */
  ghost function WithQuantiser(c: Codec, filtered: seq<int>, E: seq<int>): Codec
    requires 0 < c.N <= c.size && |filtered| == c.size * c.sub && |E| == c.size
  {
    c.(nearest := (x: seq<int>) =>
         if |x| == c.sub then seq(c.N, k requires 0 <= k < c.N => Ranked(c, filtered, E, x)[k].index) else seq(c.N, _ => 0),
       distance := (x: seq<int>, index: nat) =>
         if |x| == c.sub && index < 2 * c.size then DistanceOf(c, filtered, E, x, index) else 0)
  }

  lemma CandidateDistance(c: Codec, filtered: seq<int>, E: seq<int>, x: seq<int>, i: nat)
    requires |x| == c.sub && Fits(x, filtered, c.size, E) && i < c.size
    ensures var f := Candidate(x, filtered, c.size, E, c.haveSign, i);
      f.index < Limit(c) && f.index < 2 * c.size && f.dist == DistanceOf(c, filtered, E, x, f.index)
  {
    Inside(i, c.size, c.sub);
    hide Dot;
  }

  /** It is one the search accepts, whatever the filtered codebook and its energies. */
  lemma QuantiserFits(c: Codec, filtered: seq<int>, E: seq<int>)
    requires 2 <= c.N <= c.size && |filtered| == c.size * c.sub && |E| == c.size
    requires c.sub >= 1 && |c.codebook| == c.size * c.sub && |c.response| >= c.nb * c.sub
    ensures WellFormed(WithQuantiser(c, filtered, E)) && Quantises(WithQuantiser(c, filtered, E), filtered, E)
  {
    var d := WithQuantiser(c, filtered, E);
    forall x: seq<int>, k | |x| == c.sub && 0 <= k < c.N
      ensures d.nearest(x)[k] < Limit(d) && d.nearest(x)[k] == Ranked(c, filtered, E, x)[k].index
      ensures Ranked(d, filtered, E, x) == Ranked(c, filtered, E, x)
      ensures d.distance(x, d.nearest(x)[k]) == Ranked(c, filtered, E, x)[k].dist
    {
      hide Candidate, DistanceOf, Ranked;
      SameRanked(c, d, filtered, E, x);
      var i := RankedIsCandidate(c, filtered, E, x, k);
      CandidateDistance(c, filtered, E, x, i);
    }
  }

  lemma SameRanked(c: Codec, d: Codec, filtered: seq<int>, E: seq<int>, x: seq<int>)
    requires c.N > 0 && |x| == c.sub && Fits(x, filtered, c.size, E)
    requires d.N == c.N && d.sub == c.sub && d.size == c.size && d.haveSign == c.haveSign
    ensures Ranked(c, filtered, E, x) == Ranked(d, filtered, E, x)
  {
    hide Candidate, Nearest;
    assert Candidates(x, filtered, c.size, E, c.haveSign, c.size) == Candidates(x, filtered, d.size, E, d.haveSign, d.size);
  }

  // ---- the error as a distance ----

  /** Sample m of a filtered codeword, with the sign of its index. */
  function Filtered(c: Codec, filtered: seq<int>, index: nat, m: nat): int
    requires |filtered| == c.size * c.sub && index < 2 * c.size && m < c.sub
  {
    var rind := if index >= c.size then index - c.size else index;
    IndexInside(rind, c.size, m, c.sub);
    if index >= c.size then -filtered[rind * c.sub + m] else filtered[rind * c.sub + m]
  }

  /** Over the first k samples: the product with the target, both energies, and the squared distance. */
  function Product(c: Codec, filtered: seq<int>, x: seq<int>, index: nat, k: nat): int
    requires |filtered| == c.size * c.sub && index < 2 * c.size && k <= c.sub == |x|
  {
    if k == 0 then 0 else Product(c, filtered, x, index, k - 1) + x[k - 1] * Filtered(c, filtered, index, k - 1)
  }

  function Squares(c: Codec, filtered: seq<int>, index: nat, k: nat): int
    requires |filtered| == c.size * c.sub && index < 2 * c.size && k <= c.sub
  {
    if k == 0 then 0
    else Squares(c, filtered, index, k - 1) + Square(Filtered(c, filtered, index, k - 1))
  }

  function TargetSquares(x: seq<int>, k: nat): int
    requires k <= |x|
  {
    if k == 0 then 0 else TargetSquares(x, k - 1) + Square(x[k - 1])
  }

  function Square(v: int): int { v * v }

  function Distance2(c: Codec, filtered: seq<int>, x: seq<int>, index: nat, k: nat): int
    requires |filtered| == c.size * c.sub && index < 2 * c.size && k <= c.sub == |x|
  {
    if k == 0 then 0
    else Distance2(c, filtered, x, index, k - 1) + Square(x[k - 1] - Filtered(c, filtered, index, k - 1))
  }

  lemma Binomial(a: int, b: int)
    ensures Square(a - b) == Square(a) + Square(b) - 2 * (a * b)
  {}

  lemma {:induction false} DistanceExpands(c: Codec, filtered: seq<int>, x: seq<int>, index: nat, k: nat)
    requires |filtered| == c.size * c.sub && index < 2 * c.size && k <= c.sub == |x|
    ensures Distance2(c, filtered, x, index, k)
         == TargetSquares(x, k) + Squares(c, filtered, index, k) - 2 * Product(c, filtered, x, index, k)
  {
    hide Square, Filtered;
    if k > 0 {
      DistanceExpands(c, filtered, x, index, k - 1);
      Binomial(x[k - 1], Filtered(c, filtered, index, k - 1));
    }
  }

  /** No sum of the search leaves 32 bits. */
  ghost predicate NoWrap(c: Codec, filtered: seq<int>, x: seq<int>, index: nat)
    requires |filtered| == c.size * c.sub && index < 2 * c.size && |x| == c.sub
  {
    forall k :: 0 <= k <= c.sub ==>
      -0x2000_0000 <= Product(c, filtered, x, index, k) <= 0x2000_0000 && TargetSquares(x, k) <= 0x2000_0000
      && Squares(c, filtered, index, k) <= 0x2000_0000
  }

  lemma SquareNatural(v: int)
    ensures 0 <= Square(v)
  {
    if v >= 0 { MulNat(v, v, v, v); } else { MulNat(-v, -v, -v, -v); MulSigns(v, v); }
  }

  lemma {:induction false} EnergyIs(x: seq<int>, k: nat)
    requires k <= |x| && forall j :: 0 <= j <= k ==> TargetSquares(x, j) <= 0x2000_0000
    ensures Energy(x[..k]) == TargetSquares(x, k) && TargetSquares(x, k) >= 0
  {
    hide Square;
    if k > 0 {
      EnergyIs(x, k - 1);
      SquareNatural(x[k - 1]);
      assert x[..k][..k - 1] == x[..k - 1];
      assert Square(x[k - 1]) == x[k - 1] * x[k - 1] by { SquareIs(x[k - 1]); }
    }
  }

  lemma SquareIs(v: int)
    ensures Square(v) == v * v
  {}

  /** The products of vq.c, for the codeword without its sign. */
  lemma {:induction false} DotIs(c: Codec, filtered: seq<int>, x: seq<int>, index: nat, k: nat)
    requires |filtered| == c.size * c.sub && index < 2 * c.size && k <= c.sub == |x| && NoWrap(c, filtered, x, index)
    ensures var rind := if index >= c.size then index - c.size else index;
      && rind * c.sub + c.sub <= |filtered|
      && Dot(x, filtered, rind * c.sub, k) == if index >= c.size then -Product(c, filtered, x, index, k) else Product(c, filtered, x, index, k)
  {
    hide NoWrap;
    var rind := if index >= c.size then index - c.size else index;
    Inside(rind, c.size, c.sub);
    if k > 0 {
      DotIs(c, filtered, x, index, k - 1);
      InRangeAt(c, filtered, x, index, k);
      MulSigns(x[k - 1], filtered[rind * c.sub + k - 1]);
    }
  }

  lemma InRangeAt(c: Codec, filtered: seq<int>, x: seq<int>, index: nat, k: nat)
    requires |filtered| == c.size * c.sub && index < 2 * c.size && k <= c.sub == |x| && NoWrap(c, filtered, x, index)
    ensures -0x2000_0000 <= Product(c, filtered, x, index, k) <= 0x2000_0000
    ensures TargetSquares(x, k) <= 0x2000_0000 && Squares(c, filtered, index, k) <= 0x2000_0000
  {}

  lemma {:induction false} SquaresNatural(c: Codec, filtered: seq<int>, index: nat, k: nat)
    requires |filtered| == c.size * c.sub && index < 2 * c.size && k <= c.sub
    ensures Squares(c, filtered, index, k) >= 0
  {
    hide Square, Filtered;
    if k > 0 {
      SquaresNatural(c, filtered, index, k - 1);
      SquareNatural(Filtered(c, filtered, index, k - 1));
    }
  }

  lemma AddsHalves(total: int, s: int, t: int, p: int, d: int)
    requires 0 <= total <= 0x3000_0000 && 0 <= s <= 0x2000_0000 && 0 <= t <= 0x2000_0000 && -0x2000_0000 <= p <= 0x2000_0000
    requires d == t + s - 2 * p
    ensures d - 2 <= 2 * (Add32(Add32(total, s / 2 - p), t / 2) - total) <= d
  {}

  /** The candidate of an index: half the energy less the product, without wrapping. */
  lemma CandidateIs(c: Codec, filtered: seq<int>, E: seq<int>, x: seq<int>, i: nat)
    requires |x| == c.sub && Fits(x, filtered, c.size, E) && i < c.size
    ensures Candidate(x, filtered, c.size, E, c.haveSign, i).index < 2 * c.size
    ensures var f := Candidate(x, filtered, c.size, E, c.haveSign, i);
      (NoWrap(c, filtered, x, f.index) && E[i] == Squares(c, filtered, f.index, c.sub)) ==>
        f.dist == E[i] / 2 - Product(c, filtered, x, f.index, c.sub) && (f.index == i || f.index == i + c.size)
  {
    hide Dot, NoWrap;
    var f := Candidate(x, filtered, c.size, E, c.haveSign, i);
    if NoWrap(c, filtered, x, f.index) && E[i] == Squares(c, filtered, f.index, c.sub) {
      DotIs(c, filtered, x, f.index, c.sub);
      InRangeAt(c, filtered, x, f.index, c.sub);
      SquaresNatural(c, filtered, f.index, c.sub);
    }
  }

  /** The energies handed to the quantiser are those of the filtered codewords. */
  ghost predicate TrueEnergies(c: Codec, filtered: seq<int>, E: seq<int>)
    requires |filtered| == c.size * c.sub && |E| == c.size
  {
    forall i :: 0 <= i < c.size ==> E[i] == Squares(c, filtered, i, c.sub) == Squares(c, filtered, i + c.size, c.sub)
  }

  /**
   Main result: with this quantiser, what a step adds to the accumulated error is half the squared distance
   between the target and the filtered codeword with its sign, to within one.
   */
  lemma StepIsDistance(c: Codec, filtered: seq<int>, E: seq<int>, x: seq<int>, total: int, k: nat)
    requires Quantises(c, filtered, E) && TrueEnergies(c, filtered, E) && |x| == c.sub && k < c.N && 0 <= total <= 0x3000_0000
    ensures c.nearest(x)[k] < 2 * c.size
    ensures var index := c.nearest(x)[k];
      NoWrap(c, filtered, x, index) ==>
        var d := Distance2(c, filtered, x, index, c.sub); d - 2 <= 2 * (Step(c, x, total, index) - total) <= d
  {
    var r, index := Ranked(c, filtered, E, x)[k], c.nearest(x)[k];
    assert index == r.index && c.distance(x, index) == r.dist;
    hide Quantises, NoWrap, Ranked;
    var i := RankedIsCandidate(c, filtered, E, x, k);
    CandidateIs(c, filtered, E, x, i);
    if NoWrap(c, filtered, x, index) {
      hide Candidate;
      assert E[i] == Squares(c, filtered, i, c.sub) == Squares(c, filtered, i + c.size, c.sub);
      assert index == i || index == i + c.size by { IndexOf(c, filtered, E, x, i); }
      DistanceExpands(c, filtered, x, index, c.sub);
      InRangeAt(c, filtered, x, index, c.sub);
      SquaresNatural(c, filtered, index, c.sub);
      TargetEnergy(c, filtered, x, index);
      AddsHalves(total, E[i], TargetSquares(x, c.sub), Product(c, filtered, x, index, c.sub), Distance2(c, filtered, x, index, c.sub));
    }
  }

  lemma IndexOf(c: Codec, filtered: seq<int>, E: seq<int>, x: seq<int>, i: nat)
    requires |x| == c.sub && Fits(x, filtered, c.size, E) && i < c.size
    ensures var f := Candidate(x, filtered, c.size, E, c.haveSign, i); f.index == i || f.index == i + c.size
  {
    hide Dot;
  }

  lemma TargetEnergy(c: Codec, filtered: seq<int>, x: seq<int>, index: nat)
    requires |filtered| == c.size * c.sub && index < 2 * c.size && |x| == c.sub && NoWrap(c, filtered, x, index)
    ensures Tener(x) == TargetSquares(x, c.sub) / 2 && TargetSquares(x, c.sub) >= 0
  {
    forall j | 0 <= j <= c.sub
      ensures TargetSquares(x, j) <= 0x2000_0000
    {
      InRangeAt(c, filtered, x, index, j);
    }
    hide NoWrap, TargetSquares;
    EnergyIs(x, c.sub);
    assert x[..c.sub] == x;
  }
}
