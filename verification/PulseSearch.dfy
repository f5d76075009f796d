/** The four-pulse search of fixedCodebookSearch.c over the filled matrix. */
module PulseSearch {
  import opened Arithmetic
  import opened BasicOps
  import opened PulseEnergy
  import opened PulseMatrix

  type Signal = c: seq<int> | |c| == L_SUBFRAME witness seq(L_SUBFRAME, _ => 0)
  type Track = t: nat | t < 5

  /** A 16-bit sum: that of four magnitudes of 2^13 wraps, its square does not notice. */
  function Add16(a: int, b: int): Word16 { Wrap16(a + b) }

  function Square(c: int): int { c * c }

  /** The quality C^2/E of a candidate does not exceed that of the best, cross-multiplied. */
  ghost predicate NotBetter(square: int, energy: int, bestSquare: int, bestEnergy: int) {
    bestEnergy * square <= energy * bestSquare
  }

  lemma NotBetterTransitive(s: int, e: int, s1: int, e1: int, s2: int, e2: int)
    requires e > 0 && e1 > 0 && e2 > 0
    requires NotBetter(s, e, s1, e1) && NotBetter(s1, e1, s2, e2)
    ensures NotBetter(s, e, s2, e2)
  {
    assert e2 * (e1 * s) <= e2 * (e * s1);
    assert e * (e2 * s1) <= e * (e1 * s2);
    assert e2 * (e1 * s) == e1 * (e2 * s) && e2 * (e * s1) == e * (e2 * s1) && e * (e1 * s2) == e1 * (e * s2);
    Cancel(e1, e2 * s, e * s2);
  }

  /** What the search knows: the filled matrix, a response that starts with 1.0, magnitudes of 13 bits. */
  ghost predicate Ready(Phi: array2<int>, h: Response, sign: seq<Sign>, c: Signal)
    reads Phi
  {
    && Phi.Length0 == Phi.Length1 == L_SUBFRAME == |sign|
    && FitsWord(h) && Tap(h, 0) == 4096
    && Filled(Phi, h, ScalingOf(h), sign)
    && forall i :: 0 <= i < L_SUBFRAME ==> 0 <= c[i] <= 8192
  }

  function At(sign: seq<Sign>, m: Position): Pulse
    requires |sign| == L_SUBFRAME
  {
    Pulse(m, sign[m])
  }

  ghost function Pair(sign: seq<Sign>, a: Position, b: Position): (ps: seq<Pulse>)
    requires |sign| == L_SUBFRAME
  {
    [At(sign, a), At(sign, b)]
  }

  ghost function Quad(sign: seq<Sign>, a: Position, b: Position, c: Position, d: Position): (ps: seq<Pulse>)
    requires |sign| == L_SUBFRAME
  {
    [At(sign, a), At(sign, b), At(sign, c), At(sign, d)]
  }

  ghost function KeptOf(h: Response, ps: seq<Pulse>): int
    requires FitsWord(h)
  {
    Kept(h, ScalingOf(h), ps)
  }

  /** Pulses on distinct positions keep a positive energy after scaling, which the comparison needs. */
  lemma KeptIsPositive(h: Response, ps: seq<Pulse>)
    requires FitsWord(h) && Tap(h, 0) == 4096 && 0 < |ps| <= 4
    requires forall i, j :: 0 <= i < j < |ps| ==> ps[i].pos != ps[j].pos
    ensures KeptOf(h, ps) > 0
  {
    hide Kept, Energy;
    var S := ScalingOf(h);
    EnergyIsPositive(h, ps);
    KeptRefinesEnergy(h, S, ps);
    assert TwoTo(0) == 1 && TwoTo(1) == 2 && TwoTo(2) == 4 && TwoTo(3) == 8;
    var P, n := TwoTo(S), |ps|;
    assert 1 <= P <= 8;
    assert Slack(n, P) <= 84 by {
      assert n * (n - 1) <= 12;
      MulNat(n * (n - 1), P - 1, 12, 7);
    }
    assert n * (2 * P - 1) <= 60 by { MulNat(n, 2 * P - 1, 4, 15); }
    if Kept(h, S, ps) <= 0 {
      MulNat(2 * P, -Kept(h, S, ps), 2 * P, -Kept(h, S, ps));
      MulSigns(2 * P, Kept(h, S, ps));
    }
  }

  lemma KeptPair(h: Response, S: nat, p: Pulse, q: Pulse)
    ensures Kept(h, S, [p, q]) == Diagonal(h, S, p.pos) + (Diagonal(h, S, q.pos) + Entry(h, S, p, q))
  {
    hide Diagonal, Entry;
    assert [p, q][..1] == [p] && [p][..0] == [];
    assert EntrySum(h, S, [p], q) == EntrySum(h, S, [], q) + Entry(h, S, p, q);
    assert Kept(h, S, [p]) == Kept(h, S, []) + Diagonal(h, S, p.pos) + EntrySum(h, S, [], p);
  }

  lemma KeptQuad(h: Response, S: nat, p: Pulse, q: Pulse, r: Pulse, s: Pulse)
    ensures Kept(h, S, [p, q, r, s]) == Kept(h, S, [p, q])
         + (Diagonal(h, S, r.pos) + Entry(h, S, p, r) + Entry(h, S, q, r))
         + (Diagonal(h, S, s.pos) + Entry(h, S, p, s) + Entry(h, S, q, s) + Entry(h, S, r, s))
  {
    hide Diagonal, Entry;
    assert [p, q, r, s][..3] == [p, q, r] && [p, q, r][..2] == [p, q] && [p, q][..1] == [p] && [p][..0] == [];
    assert EntrySum(h, S, [p], r) == EntrySum(h, S, [], r) + Entry(h, S, p, r);
    assert EntrySum(h, S, [p], s) == EntrySum(h, S, [], s) + Entry(h, S, p, s);
    assert EntrySum(h, S, [p, q], s) == EntrySum(h, S, [p], s) + Entry(h, S, q, s);
  }

  /** What the code reads for a pair of tracks, and that its sums fit 32 bits. */
  lemma PairFacts(Phi: array2<int>, h: Response, sign: seq<Sign>, c: Signal, a: Position, b: Position)
    requires Ready(Phi, h, sign, c) && a % 5 != b % 5
    ensures KeptOf(h, Pair(sign, a, b)) == Phi[a, a] + (Phi[a, b] + Phi[b, b])
    ensures 0 <= 2 * Phi[a, a] <= LIMIT && 0 <= 2 * Phi[b, b] <= LIMIT && -LIMIT <= Phi[a, b] <= LIMIT
    ensures KeptOf(h, Pair(sign, a, b)) > 0
    ensures Phi[a, b] == Phi[b, a] && 0 <= c[a] + c[b] <= 16384
  {
    hide Diagonal, Entry, Kept, ScalingOf;
    var S, p, q := ScalingOf(h), At(sign, a), At(sign, b);
    KeptPair(h, S, p, q);
    DiagonalRange(h, a);
    DiagonalRange(h, b);
    EntryRange(h, p, q);
    EntrySymmetric(h, S, p, q);
    KeptIsPositive(h, Pair(sign, a, b));
  }

  /** The same for all four tracks, in the grouping of the code. */
  lemma QuadFacts(Phi: array2<int>, h: Response, sign: seq<Sign>, c: Signal,
                  a: Position, b: Position, i: Position, j: Position)
    requires Ready(Phi, h, sign, c)
    requires a % 5 != b % 5 && a % 5 != i % 5 && a % 5 != j % 5 && b % 5 != i % 5 && b % 5 != j % 5 && i % 5 != j % 5
    ensures KeptOf(h, Quad(sign, a, b, i, j)) == KeptOf(h, Pair(sign, a, b))
         + (Phi[i, i] + (Phi[i, a] + Phi[i, b])) + (Phi[j, i] + (Phi[j, j] + (Phi[j, a] + Phi[j, b])))
    ensures KeptOf(h, Quad(sign, a, b, i, j)) > 0
  {
    hide Diagonal, Entry, Kept, ScalingOf;
    var S := ScalingOf(h);
    KeptQuad(h, S, At(sign, a), At(sign, b), At(sign, i), At(sign, j));
    EntrySymmetric(h, S, At(sign, a), At(sign, i));
    EntrySymmetric(h, S, At(sign, b), At(sign, i));
    EntrySymmetric(h, S, At(sign, a), At(sign, j));
    EntrySymmetric(h, S, At(sign, b), At(sign, j));
    EntrySymmetric(h, S, At(sign, i), At(sign, j));
    KeptIsPositive(h, Quad(sign, a, b, i, j));
  }

  lemma SumSquares(x: int)
    requires 0 <= x <= 32768
    ensures Square(Wrap16(x)) == Square(x) && 0 <= Square(x) <= 0x4000_0000
    ensures x <= MAX_16 ==> Wrap16(x) == x
  {
    MulNat(x, x, 32768, 32768);
  }

  /** The first largest magnitude on a track, one position excluded. */
  method LargestOnTrack(c: Signal, track: Track, exclude: Position) returns (m: Position, best: int)
    requires forall i :: 0 <= i < L_SUBFRAME ==> 0 <= c[i] <= 8192
    ensures m % 5 == track && m != exclude && best == c[m]
    ensures forall k: Position {:trigger c[k]} :: k % 5 == track && k != exclude ==> c[k] <= best
  {
    best, m := -1, 0;
    var j: int := track;
    while j < L_SUBFRAME
      invariant j % 5 == track && 0 <= j
      invariant best == -1 ==> j <= track + 5 && (j == track + 5 ==> exclude == track)
      invariant best >= 0 ==> m % 5 == track && m != exclude && best == c[m]
      invariant best >= -1
      invariant forall k: Position {:trigger c[k]} :: k % 5 == track && k != exclude && k < j ==> c[k] <= best
    {
      if c[j] > best && j != exclude {
        m, best := j, c[j];
      }
      j := j + 5;
    }
  }

  // ---- keeping the best of a row of candidates ----

  /** Up to three pulses on distinct positions, none on track t. */
  ghost predicate OffTrack(ps: seq<Pulse>, t: Track) {
    && |ps| <= 3
    && (forall i :: 0 <= i < |ps| ==> ps[i].pos % 5 != t)
    && forall i, j :: 0 <= i < j < |ps| ==> ps[i].pos != ps[j].pos
  }

  /** The pulses ps, whose magnitudes sum to corr, joined by a pulse at b, are no better than the best. */
  ghost predicate Beaten(h: Response, sign: seq<Sign>, c: Signal, ps: seq<Pulse>, corr: int, b: Position, square: int, energy: int)
    requires FitsWord(h) && |sign| == L_SUBFRAME
  {
    NotBetter(Square(corr + c[b]), KeptOf(h, ps + [At(sign, b)]), square, energy)
  }

  /** The same for every b of track t below `end`. */
  ghost predicate RowBeaten(h: Response, sign: seq<Sign>, c: Signal, ps: seq<Pulse>, corr: int, t: Track, end: int,
                            square: int, energy: int)
    requires FitsWord(h) && |sign| == L_SUBFRAME
  {
    forall b: Position :: b % 5 == t && b < end ==> Beaten(h, sign, c, ps, corr, b, square, energy)
  }

  lemma RowStart(h: Response, sign: seq<Sign>, c: Signal, ps: seq<Pulse>, corr: int, t: Track, square: int, energy: int)
    requires FitsWord(h) && |sign| == L_SUBFRAME
    ensures RowBeaten(h, sign, c, ps, corr, t, t, square, energy)
  {}

  lemma RowStep(h: Response, sign: seq<Sign>, c: Signal, ps: seq<Pulse>, corr: int, t: Track, j: Position, square: int, energy: int)
    requires FitsWord(h) && |sign| == L_SUBFRAME && j % 5 == t
    requires RowBeaten(h, sign, c, ps, corr, t, j, square, energy)
    requires energy * Square(corr + c[j]) <= KeptOf(h, ps + [At(sign, j)]) * square
    ensures RowBeaten(h, sign, c, ps, corr, t, j + 5, square, energy)
  {
    hide KeptOf;
  }

  lemma RowEnd(h: Response, sign: seq<Sign>, c: Signal, ps: seq<Pulse>, corr: int, t: Track, end: int, square: int, energy: int)
    requires FitsWord(h) && |sign| == L_SUBFRAME && end >= L_SUBFRAME
    requires RowBeaten(h, sign, c, ps, corr, t, end, square, energy)
    ensures RowBeaten(h, sign, c, ps, corr, t, L_SUBFRAME, square, energy)
  {
    hide Beaten;
  }

  /** What one best beats, a better best beats too. */
  lemma RowByBetter(h: Response, sign: seq<Sign>, c: Signal, ps: seq<Pulse>, corr: int, t: Track, end: int,
                    s: int, e: int, s1: int, e1: int)
    requires FitsWord(h) && Tap(h, 0) == 4096 && |sign| == L_SUBFRAME && OffTrack(ps, t)
    requires 0 < e && 0 < e1 && e1 * s <= e * s1
    requires RowBeaten(h, sign, c, ps, corr, t, end, s, e)
    ensures RowBeaten(h, sign, c, ps, corr, t, end, s1, e1)
  {
    hide KeptOf, Kept;
    forall b: Position | b % 5 == t && b < end
      ensures Beaten(h, sign, c, ps, corr, b, s1, e1)
    {
      assert Beaten(h, sign, c, ps, corr, b, s, e);
      KeptIsPositive(h, ps + [At(sign, b)]);
      NotBetterTransitive(Square(corr + c[b]), KeptOf(h, ps + [At(sign, b)]), s, e, s1, e1);
    }
  }

  // ---- the first two pulses ----

  /** The two largest magnitudes of a track, in this order. */
  ghost predicate TwoLargest(c: Signal, t: Track, first: Position, second: Position) {
    && first % 5 == second % 5 == t && first != second
    && forall k: Position {:trigger c[k]} :: k % 5 == t ==> c[k] <= c[first] && (k == first || c[k] <= c[second])
  }

  datatype Best = Best(m2: Position, m3: Position, square: int, energy: int, correlation: Word16)

  ghost predicate Valid(h: Response, sign: seq<Sign>, c: Signal, t2: Track, t3: Track, best: Best)
    requires FitsWord(h) && |sign| == L_SUBFRAME
  {
    && best.m2 % 5 == t2 && best.m3 % 5 == t3
    && best.correlation == c[best.m2] + c[best.m3]
    && best.square == Square(c[best.m2] + c[best.m3])
    && best.energy == KeptOf(h, Pair(sign, best.m2, best.m3)) && best.energy > 0
  }

  const NO_PAIR := Best(0, 0, -1, 1, 0)

  /** The pulses on the first two tracks: the two largest magnitudes against all eight partners. */
  method PairSearch(Phi: array2<int>, ghost h: Response, ghost sign: seq<Sign>, c: Signal, t2: Track, t3: Track)
    returns (best: Best, ghost first: Position, ghost second: Position)
    requires Ready(Phi, h, sign, c) && t2 != t3 && t2 != 0
    ensures Valid(h, sign, c, t2, t3, best) && TwoLargest(c, t2, first, second)
    ensures RowBeaten(h, sign, c, [At(sign, first)], c[first], t3, L_SUBFRAME, best.square, best.energy)
    ensures RowBeaten(h, sign, c, [At(sign, second)], c[second], t3, L_SUBFRAME, best.square, best.energy)
  {
    hide KeptOf, Pair, RowBeaten;
    var m, correlationM2 := LargestOnTrack(c, t2, 0);
    first := m;
    best := ThirdTrack(Phi, h, sign, c, m, t3, NO_PAIR);
    ghost var earlier := best;
    m, correlationM2 := LargestOnTrack(c, t2, m);
    second := m;
    best := ThirdTrack(Phi, h, sign, c, m, t3, best);
    RowByBetter(h, sign, c, [At(sign, first)], c[first], t3, L_SUBFRAME,
                earlier.square, earlier.energy, best.square, best.energy);
  }

  /** The inner loop of the pair search: one pulse on the first track, all partners on the second. */
  method ThirdTrack(Phi: array2<int>, ghost h: Response, ghost sign: seq<Sign>, c: Signal, currentM2: Position,
                    t3: Track, before: Best)
    returns (best: Best)
    requires Ready(Phi, h, sign, c) && Phi.Length0 == Phi.Length1 == L_SUBFRAME == |sign| && FitsWord(h)
    requires currentM2 % 5 != t3 && Tap(h, 0) == 4096
    requires before == NO_PAIR || Valid(h, sign, c, currentM2 % 5, t3, before)
    ensures Valid(h, sign, c, currentM2 % 5, t3, best)
    ensures before != NO_PAIR ==> best.energy * before.square <= before.energy * best.square
    ensures RowBeaten(h, sign, c, [At(sign, currentM2)], c[currentM2], t3, L_SUBFRAME, best.square, best.energy)
  {
    hide KeptOf, RowBeaten, Square, Ready, FitsWord, Tap, Wrap16;
    best := before;
    ghost var ps, corr := [At(sign, currentM2)], c[currentM2];
    var energyM2 := Phi[currentM2, currentM2];
    var j: int := t3;
    RowStart(h, sign, c, ps, corr, t3, best.square, best.energy);
    while j < L_SUBFRAME
      invariant 0 <= j && j % 5 == t3
      invariant (best == NO_PAIR && j == t3) || Valid(h, sign, c, currentM2 % 5, t3, best)
      invariant before != NO_PAIR ==> best != NO_PAIR && best.energy * before.square <= before.energy * best.square
      invariant RowBeaten(h, sign, c, ps, corr, t3, j, best.square, best.energy)
    {
      PairFacts(Phi, h, sign, c, currentM2, j);
      SumSquares(c[currentM2] + c[j]);
      assert Pair(sign, currentM2, j) == ps + [At(sign, j)];
      var correlation := Add16(c[currentM2], c[j]);
      var energy := Add32(energyM2, Add32(Phi[currentM2, j], Phi[j, j]));
      var square := Square(correlation);
      if best.energy * square > energy * best.square {
        Improve(h, sign, c, ps, corr, t3, j, before, best, square, energy);
        best := Best(currentM2, j, square, energy, correlation);
      }
      RowStep(h, sign, c, ps, corr, t3, j, best.square, best.energy);
      j := j + 5;
    }
    RowEnd(h, sign, c, ps, corr, t3, j, best.square, best.energy);
  }

  lemma Improve(h: Response, sign: seq<Sign>, c: Signal, ps: seq<Pulse>, corr: int, t: Track, j: Position,
                before: Best, last: Best, s: int, e: int)
    requires FitsWord(h) && Tap(h, 0) == 4096 && |sign| == L_SUBFRAME && OffTrack(ps, t) && e > 0
    requires last.energy * s > e * last.square && last.energy > 0
    requires RowBeaten(h, sign, c, ps, corr, t, j, last.square, last.energy)
    requires before != NO_PAIR ==> before.energy > 0 && last.energy * before.square <= before.energy * last.square
    ensures RowBeaten(h, sign, c, ps, corr, t, j, s, e)
    ensures before != NO_PAIR ==> e * before.square <= before.energy * s
  {
    hide KeptOf, RowBeaten;
    RowByBetter(h, sign, c, ps, corr, t, j, last.square, last.energy, s, e);
    if before != NO_PAIR {
      NotBetterTransitive(before.square, before.energy, last.square, last.energy, s, e);
    }
  }

  // ---- the last two pulses ----

  datatype Rest = Rest(m0: Position, m1: Position, square: int, energy: int)

  const NO_REST := Rest(0, 0, -1, 1)

  ghost predicate ValidRest(h: Response, sign: seq<Sign>, c: Signal, a: Position, b: Position, t0: Track, t1: Track, rest: Rest)
    requires FitsWord(h) && |sign| == L_SUBFRAME
  {
    && rest.m0 % 5 == t0 && rest.m1 % 5 == t1
    && rest.square == Square(c[a] + c[b] + c[rest.m0] + c[rest.m1])
    && rest.energy == KeptOf(h, Quad(sign, a, b, rest.m0, rest.m1)) && rest.energy > 0
  }

  ghost function Triple(sign: seq<Sign>, a: Position, b: Position, i: Position): (ps: seq<Pulse>)
    requires |sign| == L_SUBFRAME
    ensures |ps| == 3
  {
    [At(sign, a), At(sign, b), At(sign, i)]
  }

  /** No pair of last pulses, m0 on track t0 below `end` and m1 on track t1, is better. */
  ghost predicate RowsBeaten(h: Response, sign: seq<Sign>, c: Signal, a: Position, b: Position, t0: Track, t1: Track, end: int,
                             square: int, energy: int)
    requires FitsWord(h) && |sign| == L_SUBFRAME
  {
    forall i: Position :: i % 5 == t0 && i < end ==>
      RowBeaten(h, sign, c, Triple(sign, a, b, i), c[a] + c[b] + c[i], t1, L_SUBFRAME, square, energy)
  }

  ghost predicate Apart(a: int, b: int, t0: int, t1: int) {
    a % 5 != b % 5 && a % 5 != t0 && a % 5 != t1 && b % 5 != t0 && b % 5 != t1 && t0 != t1
  }

  lemma RowsByBetter(h: Response, sign: seq<Sign>, c: Signal, a: Position, b: Position, t0: Track, t1: Track, end: int,
                     s: int, e: int, s1: int, e1: int)
    requires FitsWord(h) && Tap(h, 0) == 4096 && |sign| == L_SUBFRAME && Apart(a, b, t0, t1)
    requires 0 < e && 0 < e1 && e1 * s <= e * s1
    requires RowsBeaten(h, sign, c, a, b, t0, t1, end, s, e)
    ensures RowsBeaten(h, sign, c, a, b, t0, t1, end, s1, e1)
  {
    hide RowBeaten;
    forall i: Position | i % 5 == t0 && i < end
      ensures RowBeaten(h, sign, c, Triple(sign, a, b, i), c[a] + c[b] + c[i], t1, L_SUBFRAME, s1, e1)
    {
      RowByBetter(h, sign, c, Triple(sign, a, b, i), c[a] + c[b] + c[i], t1, L_SUBFRAME, s, e, s1, e1);
    }
  }

  /** The last two tracks, all 64 combinations, on top of the pair already selected. */
  method RestSearch(Phi: array2<int>, ghost h: Response, ghost sign: seq<Sign>, c: Signal, pair: Best, t0: Track, t1: Track)
    returns (rest: Rest)
    requires Ready(Phi, h, sign, c) && Apart(pair.m2, pair.m3, t0, t1)
    requires Valid(h, sign, c, pair.m2 % 5, pair.m3 % 5, pair)
    ensures ValidRest(h, sign, c, pair.m2, pair.m3, t0, t1, rest)
    ensures RowsBeaten(h, sign, c, pair.m2, pair.m3, t0, t1, L_SUBFRAME, rest.square, rest.energy)
  {
    hide KeptOf, RowBeaten, RowsBeaten, Square, Filled, FitsWord, Tap, Wrap16, Pair, Quad, ValidRest, Apart, Triple;
    rest := NO_REST;
    RowsEnds(h, sign, c, pair.m2, pair.m3, t0, t1, t0, rest.square, rest.energy);
    var i: int := t0;
    while i < L_SUBFRAME
      invariant 0 <= i && i % 5 == t0
      invariant (rest == NO_REST && i == t0) || ValidRest(h, sign, c, pair.m2, pair.m3, t0, t1, rest)
      invariant RowsBeaten(h, sign, c, pair.m2, pair.m3, t0, t1, i, rest.square, rest.energy)
    {
      rest := LastTrack(Phi, h, sign, c, pair, i, t1, rest);
      i := i + 5;
    }
    RowsEnds(h, sign, c, pair.m2, pair.m3, t0, t1, i, rest.square, rest.energy);
  }

  /** Quality and energy of all four pulses, from the sums over the first three. */
  method FourthValues(Phi: array2<int>, ghost h: Response, ghost sign: seq<Sign>, c: Signal, pair: Best, i: Position, j: Position,
                      correlation3: int, energy3: int)
    returns (square: int, energy: int)
    requires Ready(Phi, h, sign, c) && Valid(h, sign, c, pair.m2 % 5, pair.m3 % 5, pair)
    requires Apart(pair.m2, pair.m3, i % 5, j % 5)
    requires correlation3 == c[pair.m2] + c[pair.m3] + c[i]
    requires energy3 == pair.energy + (Phi[i, i] + (Phi[i, pair.m2] + Phi[i, pair.m3]))
    ensures square == Square(c[pair.m2] + c[pair.m3] + c[i] + c[j]) && square >= 0
    ensures energy == KeptOf(h, Quad(sign, pair.m2, pair.m3, i, j)) && energy > 0
  {
    FirstThree(Phi, h, sign, c, pair, i);
    AllFour(Phi, h, sign, c, pair, i, j);
    SumSquares(c[pair.m2] + c[pair.m3] + c[i] + c[j]);
    hide KeptOf, Square, Ready, Valid, Quad, Wrap16, FitsWord, Apart;
    square := Square(Add16(correlation3, c[j]));
    energy := Add32(energy3, Add32(Phi[j, i], Add32(Phi[j, j], Add32(Phi[j, pair.m2], Phi[j, pair.m3]))));
  }

  /** A better candidate beats all that the last one beat. */
  lemma BetterRest(h: Response, sign: seq<Sign>, c: Signal, a: Position, b: Position, t1: Track, i: Position, j: Position,
                   last: Rest, square: int, energy: int)
    requires FitsWord(h) && Tap(h, 0) == 4096 && |sign| == L_SUBFRAME && Apart(a, b, i % 5, t1)
    requires energy > 0 && last.energy > 0 && last.energy * square > energy * last.square
    requires RowBeaten(h, sign, c, Triple(sign, a, b, i), c[a] + c[b] + c[i], t1, j, last.square, last.energy)
    requires RowsBeaten(h, sign, c, a, b, i % 5, t1, i, last.square, last.energy)
    ensures RowBeaten(h, sign, c, Triple(sign, a, b, i), c[a] + c[b] + c[i], t1, j, square, energy)
    ensures RowsBeaten(h, sign, c, a, b, i % 5, t1, i, square, energy)
  {
    hide RowBeaten, RowsBeaten;
    RowByBetter(h, sign, c, Triple(sign, a, b, i), c[a] + c[b] + c[i], t1, j, last.square, last.energy, square, energy);
    RowsByBetter(h, sign, c, a, b, i % 5, t1, i, last.square, last.energy, square, energy);
  }

  /** The innermost loop: one more pulse at i, all partners on the last track. */
  method LastTrack(Phi: array2<int>, ghost h: Response, ghost sign: seq<Sign>, c: Signal, pair: Best, i: Position, t1: Track,
                   before: Rest)
    returns (rest: Rest)
    requires Ready(Phi, h, sign, c) && Apart(pair.m2, pair.m3, i % 5, t1)
    requires Valid(h, sign, c, pair.m2 % 5, pair.m3 % 5, pair)
    requires before == NO_REST || ValidRest(h, sign, c, pair.m2, pair.m3, i % 5, t1, before)
    requires RowsBeaten(h, sign, c, pair.m2, pair.m3, i % 5, t1, i, before.square, before.energy)
    ensures ValidRest(h, sign, c, pair.m2, pair.m3, i % 5, t1, rest)
    ensures RowsBeaten(h, sign, c, pair.m2, pair.m3, i % 5, t1, i + 5, rest.square, rest.energy)
  {
    hide KeptOf, RowBeaten, RowsBeaten, Square, Filled, FitsWord, Tap, Wrap16, Pair, Valid;
    rest := before;
    ghost var a, b := pair.m2, pair.m3;
    ghost var ps, corr := Triple(sign, a, b, i), c[a] + c[b] + c[i];
    FirstThree(Phi, h, sign, c, pair, i);
    var correlationM2M3M0 := Add16(pair.correlation, c[i]);
    var energyM2M3M0 := Add32(pair.energy, Add32(Phi[i, i], Add32(Phi[i, pair.m2], Phi[i, pair.m3])));
    var j: int := t1;
    RowStart(h, sign, c, ps, corr, t1, rest.square, rest.energy);
    hide Add16, Add32;
    while j < L_SUBFRAME
      invariant 0 <= j && j % 5 == t1
      invariant (rest == NO_REST && j == t1) || ValidRest(h, sign, c, a, b, i % 5, t1, rest)
      invariant RowsBeaten(h, sign, c, a, b, i % 5, t1, i, rest.square, rest.energy)
      invariant RowBeaten(h, sign, c, ps, corr, t1, j, rest.square, rest.energy)
    {
      assert Quad(sign, a, b, i, j) == ps + [At(sign, j)];
      var square, energy := FourthValues(Phi, h, sign, c, pair, i, j, correlationM2M3M0, energyM2M3M0);
      if rest.energy * square > energy * rest.square {
        BetterRest(h, sign, c, a, b, t1, i, j, rest, square, energy);
        rest := Rest(i, j, square, energy);
      }
      RowStep(h, sign, c, ps, corr, t1, j, rest.square, rest.energy);
      j := j + 5;
    }
    RowEnd(h, sign, c, ps, corr, t1, j, rest.square, rest.energy);
    RowsStep(h, sign, c, a, b, t1, i, rest.square, rest.energy);
  }

  lemma RowsStep(h: Response, sign: seq<Sign>, c: Signal, a: Position, b: Position, t1: Track, i: Position, square: int, energy: int)
    requires FitsWord(h) && |sign| == L_SUBFRAME
    requires RowsBeaten(h, sign, c, a, b, i % 5, t1, i, square, energy)
    requires RowBeaten(h, sign, c, Triple(sign, a, b, i), c[a] + c[b] + c[i], t1, L_SUBFRAME, square, energy)
    ensures RowsBeaten(h, sign, c, a, b, i % 5, t1, i + 5, square, energy)
  {
    hide RowBeaten, Triple;
  }

  lemma RowsEnds(h: Response, sign: seq<Sign>, c: Signal, a: Position, b: Position, t0: Track, t1: Track, end: int,
                 square: int, energy: int)
    requires FitsWord(h) && |sign| == L_SUBFRAME
    ensures end == t0 ==> RowsBeaten(h, sign, c, a, b, t0, t1, end, square, energy)
    ensures end >= L_SUBFRAME && RowsBeaten(h, sign, c, a, b, t0, t1, end, square, energy)
        ==> RowsBeaten(h, sign, c, a, b, t0, t1, L_SUBFRAME, square, energy)
  {
    hide RowBeaten, Triple;
  }

  /** The sums of the first three pulses fit their words. */
  lemma FirstThree(Phi: array2<int>, h: Response, sign: seq<Sign>, c: Signal, pair: Best, i: Position)
    requires Ready(Phi, h, sign, c) && Valid(h, sign, c, pair.m2 % 5, pair.m3 % 5, pair)
    requires pair.m2 % 5 != pair.m3 % 5 && pair.m2 % 5 != i % 5 && pair.m3 % 5 != i % 5
    ensures 0 < pair.energy <= 2 * LIMIT && 0 <= 2 * Phi[i, i] <= LIMIT
    ensures -LIMIT <= Phi[i, pair.m2] <= LIMIT && -LIMIT <= Phi[i, pair.m3] <= LIMIT
    ensures Add16(pair.correlation, c[i]) == c[pair.m2] + c[pair.m3] + c[i]
  {
    hide KeptOf, Filled;
    PairFacts(Phi, h, sign, c, pair.m2, pair.m3);
    PairFacts(Phi, h, sign, c, i, pair.m2);
    PairFacts(Phi, h, sign, c, i, pair.m3);
  }

  lemma AllFour(Phi: array2<int>, h: Response, sign: seq<Sign>, c: Signal, pair: Best, i: Position, j: Position)
    requires Ready(Phi, h, sign, c) && Valid(h, sign, c, pair.m2 % 5, pair.m3 % 5, pair)
    requires Apart(pair.m2, pair.m3, i % 5, j % 5)
    ensures KeptOf(h, Quad(sign, pair.m2, pair.m3, i, j)) == pair.energy
         + (Phi[i, i] + (Phi[i, pair.m2] + Phi[i, pair.m3]))
         + (Phi[j, i] + (Phi[j, j] + (Phi[j, pair.m2] + Phi[j, pair.m3])))
    ensures KeptOf(h, Quad(sign, pair.m2, pair.m3, i, j)) > 0
    ensures 0 <= 2 * Phi[j, j] <= LIMIT && -LIMIT <= Phi[j, i] <= LIMIT
    ensures -LIMIT <= Phi[j, pair.m2] <= LIMIT && -LIMIT <= Phi[j, pair.m3] <= LIMIT
  {
    hide KeptOf, Filled;
    QuadFacts(Phi, h, sign, c, pair.m2, pair.m3, i, j);
    PairFacts(Phi, h, sign, c, j, i);
    PairFacts(Phi, h, sign, c, j, pair.m2);
    PairFacts(Phi, h, sign, c, j, pair.m3);
  }

  // ---- the whole search ----

  /** The tracks a configuration visits, in order: m2, m3, m0, m1 or rotated by one. */
  function Tracks(m3Base: Track, mIndex: nat): (Track, Track, Track, Track) {
    if mIndex == 0 then (2, m3Base, 0, 1) else (m3Base, 0, 1, 2)
  }

  datatype Pulses = Pulses(i0: Position, i1: Position, i2: Position, i3: Position, jx: nat, square: int, energy: int)

  const NO_PULSES := Pulses(0, 0, 0, 0, 0, -1, 1)

  /** One pulse on each of the tracks 0, 1, 2 and 3 + jx; their quality as the search measured it. */
  ghost predicate Selected(h: Response, sign: seq<Sign>, c: Signal, p: Pulses)
    requires FitsWord(h) && |sign| == L_SUBFRAME
  {
    && p.i0 % 5 == 0 && p.i1 % 5 == 1 && p.i2 % 5 == 2 && p.jx <= 1 && p.i3 % 5 == 3 + p.jx
    && p.square == Square(c[p.i0] + c[p.i1] + c[p.i2] + c[p.i3])
    && (p.energy == KeptOf(h, Quad(sign, p.i2, p.i3, p.i0, p.i1))
        || p.energy == KeptOf(h, Quad(sign, p.i3, p.i0, p.i1, p.i2)))
    && p.energy > 0
  }

  /** The pair is no worse than either of the two largest of the first track with any partner on the second. */
  ghost predicate BestPair(h: Response, sign: seq<Sign>, c: Signal, t2: Track, t3: Track, pair: Best)
    requires FitsWord(h) && |sign| == L_SUBFRAME
  {
    exists first: Position, second: Position ::
      && TwoLargest(c, t2, first, second)
      && RowBeaten(h, sign, c, [At(sign, first)], c[first], t3, L_SUBFRAME, pair.square, pair.energy)
      && RowBeaten(h, sign, c, [At(sign, second)], c[second], t3, L_SUBFRAME, pair.square, pair.energy)
  }

  /** A configuration that has been searched: its best pair, and no completion of it better than the best. */
  ghost predicate Searched(h: Response, sign: seq<Sign>, c: Signal, tracks: (Track, Track, Track, Track), pair: Best,
                           square: int, energy: int)
    requires FitsWord(h) && |sign| == L_SUBFRAME
  {
    && Valid(h, sign, c, tracks.0, tracks.1, pair) && BestPair(h, sign, c, tracks.0, tracks.1, pair)
    && RowsBeaten(h, sign, c, pair.m2, pair.m3, tracks.2, tracks.3, L_SUBFRAME, square, energy)
  }

  /** One configuration on its own: its best pair, and the best completion of that. */
  method SearchConfiguration(Phi: array2<int>, ghost h: Response, ghost sign: seq<Sign>, c: Signal,
                             tracks: (Track, Track, Track, Track))
    returns (pair: Best, rest: Rest)
    requires Ready(Phi, h, sign, c) && tracks.0 != 0
    requires tracks.0 != tracks.1 && Apart(tracks.0, tracks.1, tracks.2, tracks.3)
    ensures Valid(h, sign, c, tracks.0, tracks.1, pair) && ValidRest(h, sign, c, pair.m2, pair.m3, tracks.2, tracks.3, rest)
    ensures Searched(h, sign, c, tracks, pair, rest.square, rest.energy)
  {
    hide KeptOf, RowBeaten, RowsBeaten, Filled, FitsWord, Tap, Wrap16, Pair, Square, TwoLargest;
    ghost var first, second;
    pair, first, second := PairSearch(Phi, h, sign, c, tracks.0, tracks.1);
    assert BestPair(h, sign, c, tracks.0, tracks.1, pair);
    hide BestPair, ValidRest;
    rest := RestSearch(Phi, h, sign, c, pair, tracks.2, tracks.3);
  }

  /** The four pulses of a configuration, in the order of their tracks. */
  function FourPulses(m3Base: Track, mIndex: nat, pair: Best, rest: Rest): Pulses
    requires 3 <= m3Base
  {
    if mIndex == 0 then Pulses(rest.m0, rest.m1, pair.m2, pair.m3, m3Base - 3, rest.square, rest.energy)
    else Pulses(pair.m3, rest.m0, rest.m1, pair.m2, m3Base - 3, rest.square, rest.energy)
  }

  lemma FourSelected(h: Response, sign: seq<Sign>, c: Signal, m3Base: Track, mIndex: nat, pair: Best, rest: Rest)
    requires FitsWord(h) && |sign| == L_SUBFRAME && 3 <= m3Base <= 4 && mIndex < 2
    requires var t := Tracks(m3Base, mIndex);
      Valid(h, sign, c, t.0, t.1, pair) && ValidRest(h, sign, c, pair.m2, pair.m3, t.2, t.3, rest)
    ensures Selected(h, sign, c, FourPulses(m3Base, mIndex, pair, rest))
    ensures rest.square >= 0 && rest.energy > 0
  {
    hide KeptOf;
    SquareIsNatural(c[pair.m2] + c[pair.m3] + c[rest.m0] + c[rest.m1]);
  }

  /** One configuration, and the comparison with the best so far. */
  method TryConfiguration(Phi: array2<int>, ghost h: Response, ghost sign: seq<Sign>, c: Signal, m3Base: Track, mIndex: nat,
                          before: Pulses)
    returns (best: Pulses, pair: Best)
    requires Ready(Phi, h, sign, c) && 3 <= m3Base <= 4 && mIndex < 2
    requires before == NO_PULSES || Selected(h, sign, c, before)
    ensures Selected(h, sign, c, best)
    ensures Searched(h, sign, c, Tracks(m3Base, mIndex), pair, best.square, best.energy)
    ensures best.energy * before.square <= before.energy * best.square
  {
    hide KeptOf, RowBeaten, RowsBeaten, Filled, FitsWord, Tap, Square, Searched;
    var rest;
    pair, rest := SearchConfiguration(Phi, h, sign, c, Tracks(m3Base, mIndex));
    FourSelected(h, sign, c, m3Base, mIndex, pair, rest);
    assert before.energy > 0;
    hide Selected, Valid, ValidRest;
    best := before;
    if before.energy * rest.square > rest.energy * before.square {
      best := FourPulses(m3Base, mIndex, pair, rest);
    } else {
      SearchedByBetter(h, sign, c, m3Base, mIndex, pair, rest.square, rest.energy, best.square, best.energy);
    }
  }

  /** What a searched configuration says stays true for a better best. */
  lemma SearchedByBetter(h: Response, sign: seq<Sign>, c: Signal, m3Base: Track, mIndex: nat, pair: Best,
                         s: int, e: int, s1: int, e1: int)
    requires FitsWord(h) && Tap(h, 0) == 4096 && |sign| == L_SUBFRAME && 3 <= m3Base <= 4
    requires 0 < e && 0 < e1 && e1 * s <= e * s1
    requires Searched(h, sign, c, Tracks(m3Base, mIndex), pair, s, e)
    ensures Searched(h, sign, c, Tracks(m3Base, mIndex), pair, s1, e1)
  {
    hide RowsBeaten, KeptOf, BestPair;
    var t := Tracks(m3Base, mIndex);
    RowsByBetter(h, sign, c, pair.m2, pair.m3, t.2, t.3, L_SUBFRAME, s, e, s1, e1);
  }

  /**
   The search of fixedCodebookSearch: four configurations, each with the pair it selects. The result
   is no worse than any completion of any of the four pairs.
   */
  method Search(Phi: array2<int>, ghost h: Response, ghost sign: seq<Sign>, c: Signal)
    returns (best: Pulses, ghost pairs: seq<Best>)
    requires Ready(Phi, h, sign, c)
    ensures Selected(h, sign, c, best) && |pairs| == 4
    ensures forall k :: 0 <= k < 4 ==>
      Searched(h, sign, c, Tracks(3 + k / 2, k % 2), pairs[k], best.square, best.energy)
  {
    hide Searched, Filled, FitsWord, Tap, KeptOf, Square;
    best, pairs := NO_PULSES, [];
    for m3Base := 3 to 5
      invariant |pairs| == 2 * (m3Base - 3)
      invariant (best == NO_PULSES && |pairs| == 0) || Selected(h, sign, c, best)
      invariant forall k :: 0 <= k < |pairs| ==>
        Searched(h, sign, c, Tracks(3 + k / 2, k % 2), pairs[k], best.square, best.energy)
    {
      for mIndex := 0 to 2
        invariant |pairs| == 2 * (m3Base - 3) + mIndex
        invariant (best == NO_PULSES && |pairs| == 0) || Selected(h, sign, c, best)
        invariant forall k :: 0 <= k < |pairs| ==>
          Searched(h, sign, c, Tracks(3 + k / 2, k % 2), pairs[k], best.square, best.energy)
      {
        ghost var before, n := best, |pairs|;
        var pair;
        best, pair := TryConfiguration(Phi, h, sign, c, m3Base, mIndex, best);
        forall k | 0 <= k < n
          ensures Searched(h, sign, c, Tracks(3 + k / 2, k % 2), pairs[k], best.square, best.energy)
        {
          SearchedByBetter(h, sign, c, 3 + k / 2, k % 2, pairs[k], before.square, before.energy, best.square, best.energy);
        }
        pairs := pairs + [pair];
      }
    }
  }

  // ---- the kept energy against the direct definition ----

  lemma OutputOfFour(h: Response, p: Pulse, q: Pulse, r: Pulse, s: Pulse, t: nat)
    requires t < L_SUBFRAME
    ensures Output(h, [p, q, r, s], t)
         == p.sign * Echo(h, p.pos, t) + q.sign * Echo(h, q.pos, t) + r.sign * Echo(h, r.pos, t) + s.sign * Echo(h, s.pos, t)
  {
    hide Echo;
    assert [p, q, r, s][..3] == [p, q, r] && [p, q, r][..2] == [p, q] && [p, q][..1] == [p] && [p][..0] == [];
    assert Output(h, [p], t) == Output(h, [], t) + p.sign * Echo(h, p.pos, t);
    assert Output(h, [p, q], t) == Output(h, [p], t) + q.sign * Echo(h, q.pos, t);
    assert Output(h, [p, q, r], t) == Output(h, [p, q], t) + r.sign * Echo(h, r.pos, t);
  }

  lemma {:induction false} EnergyRotates(h: Response, p: Pulse, q: Pulse, r: Pulse, s: Pulse, n: nat)
    requires n <= L_SUBFRAME
    ensures Energy(h, [p, q, r, s], n) == Energy(h, [q, r, s, p], n)
  {
    hide Output, Echo;
    if n > 0 {
      EnergyRotates(h, p, q, r, s, n - 1);
      OutputOfFour(h, p, q, r, s, n - 1);
      OutputOfFour(h, q, r, s, p, n - 1);
    }
  }

  /**
   Main result: the energy kept with the selected pulses refines the energy of the signed four-pulse
   vector filtered by h. Without scaling, twice it is never above and at most 4 below.
   */
  lemma SelectedRefinesEnergy(h: Response, sign: seq<Sign>, c: Signal, p: Pulses)
    requires FitsWord(h) && |sign| == L_SUBFRAME && Selected(h, sign, c, p)
    ensures var P := TwoTo(ScalingOf(h));
      var e := Energy(h, Quad(sign, p.i0, p.i1, p.i2, p.i3), L_SUBFRAME) - 2 * P * p.energy;
      -12 * (P - 1) <= e <= 12 * (P - 1) + 4 * (2 * P - 1)
    ensures ScalingOf(h) == 0 ==>
      0 <= Energy(h, Quad(sign, p.i0, p.i1, p.i2, p.i3), L_SUBFRAME) - 2 * p.energy <= 4
  {
    hide Energy, Kept, Square;
    var a, b, d, e := At(sign, p.i0), At(sign, p.i1), At(sign, p.i2), At(sign, p.i3);
    EnergyRotates(h, a, b, d, e, L_SUBFRAME);
    EnergyRotates(h, b, d, e, a, L_SUBFRAME);
    EnergyRotates(h, d, e, a, b, L_SUBFRAME);
    KeptRefinesEnergy(h, ScalingOf(h), Quad(sign, p.i2, p.i3, p.i0, p.i1));
    KeptRefinesEnergy(h, ScalingOf(h), Quad(sign, p.i3, p.i0, p.i1, p.i2));
    assert Slack(4, TwoTo(ScalingOf(h))) == 12 * (TwoTo(ScalingOf(h)) - 1);
    assert TwoTo(0) == 1;
  }

  // ---- from the 32-bit correlation to the selected pulses ----

  function LeadingZeros(x: Word32): nat
    requires x >= 0
  {
    if x == 0 then 31 else NormL(x)
  }

  lemma PowersOf13And18()
    ensures TwoTo(13) == 8192 && TwoTo(18) == 0x4_0000
  {
    assert TwoTo(6) == 64 && TwoTo(12) == 4096 && TwoTo(16) == 0x1_0000;
  }

  lemma FloorWithin(x: int, P: int)
    requires P >= 1 && -(P * 8192) < x < P * 8192
    ensures -8192 <= x / P <= 8191
  {
    var q := x / P;
    assert x == P * q + x % P;
    if q < -8192 { MulNat(P, -8193 - q, P, -8193 - q); }
    if q > 8191 { MulNat(P, q - 8192, P, q - 8192); }
  }

  lemma NormalisedBelow(max: Word32)
    requires max > 0 && NormL(max) < 18
    ensures max < TwoTo(18 - NormL(max)) * 8192
  {
    var n := NormL(max);
    var P, Q := TwoTo(18 - n), TwoTo(n);
    PowersAdd(n, 18 - n);
    PowersOf13And18();
    hide TwoTo;
    if max >= P * 8192 {
      MulNat(P * 8192, Q, max, Q);
      MulAssoc3(P, 8192, Q);
    }
  }

  lemma MulAssoc3(p: int, k: int, q: int)
    ensures p * k * q == k * (q * p)
  {}

  /** A largest magnitude above 13 bits is shifted until it just fits them. */
  lemma ShiftIsLeast(max: Word32)
    requires max > 0
    ensures var n := LeadingZeros(max);
      if n < 18 then TwoTo(18 - n) * 4096 <= max < TwoTo(18 - n) * 8192 else max < 8192
  {
    var n := NormL(max);
    PowersOf13And18();
    if n < 18 {
      NormalisedBelow(max);
      var P, Q := TwoTo(18 - n), TwoTo(n);
      PowersAdd(n, 18 - n);
      hide TwoTo;
      if max < P * 4096 {
        MulNat(P * 4096 - max - 1, Q, P * 4096 - max - 1, Q);
        MulAssoc3(P, 4096, Q);
        Under(P * 4096, max, Q);
      }
    } else {
      PowersGrow(18, n);
      MulNat(TwoTo(18), max, TwoTo(n), max);
    }
  }

  lemma Under(x: int, y: int, q: int)
    ensures (x - y - 1) * q == x * q - y * q - q
  {}

  /** Normalised to 13 bits: the largest magnitude decides the shift. */
  lemma ShiftedRange(max: Word32, x: int)
    requires 0 <= max && 0 - max <= x <= max
    ensures var n := LeadingZeros(max);
      if n < 18 then -8192 <= x / TwoTo(18 - n) <= 8191 else -8192 <= x <= 8191
  {
    var n := LeadingZeros(max);
    if max == 0 {
    } else if n < 18 {
      NormalisedBelow(max);
      FloorWithin(x, TwoTo(18 - n));
    } else {
      PowersGrow(18, n);
      PowersOf13And18();
      MulNat(TwoTo(18), max, TwoTo(n), max);
    }
  }

  function Magnitude(x: Word32): Word32
    requires x > MIN_32
  {
    if x >= 0 then x else 0 - x
  }

  type Correlation = s: seq<Word32> | |s| == L_SUBFRAME && forall i :: 0 <= i < |s| ==> s[i] > MIN_32
    witness seq(L_SUBFRAME, _ => 0)

  /** The largest magnitude of the first n values. */
  function Largest(s: Correlation, n: nat): (max: Word32)
    requires n <= L_SUBFRAME
    ensures 0 <= max
  {
    if n == 0 then 0
    else if Magnitude(s[n - 1]) > Largest(s, n - 1) then Magnitude(s[n - 1]) else Largest(s, n - 1)
  }

  lemma {:induction false} LargestBounds(s: Correlation, n: nat)
    requires n <= L_SUBFRAME
    ensures forall k :: 0 <= k < n ==> 0 - Largest(s, n) <= s[k] <= Largest(s, n)
    ensures Largest(s, n) == 0 || exists k :: 0 <= k < n && Magnitude(s[k]) == Largest(s, n)
  {
    if n > 0 { LargestBounds(s, n - 1); }
  }

  /** The value that enters the search: shifted so that the largest magnitude fits 13 bits. */
  function Shifted(s: Correlation, k: nat): (v: int)
    requires k < L_SUBFRAME
  {
    var n := LeadingZeros(Largest(s, L_SUBFRAME));
    if n < 18 then s[k] / TwoTo(18 - n) else s[k]
  }

  lemma ShiftedFits(s: Correlation, k: nat)
    requires k < L_SUBFRAME
    ensures -8192 <= Shifted(s, k) <= 8191
  {
    LargestBounds(s, L_SUBFRAME);
    ShiftedRange(Largest(s, L_SUBFRAME), s[k]);
  }

  /** The correlation signal, shifted to 13 bits if it needs to be. */
  method NormaliseSignal(correlation: Correlation) returns (signal: array<Word16>)
    ensures fresh(signal) && signal.Length == L_SUBFRAME
    ensures forall i :: 0 <= i < L_SUBFRAME ==> signal[i] as int == Shifted(correlation, i) && -8192 <= signal[i] <= 8191
  {
    hide TwoTo;
    var max: Word32 := 0;
    for i := 0 to L_SUBFRAME
      invariant max == Largest(correlation, i)
    {
      var magnitude := if correlation[i] >= 0 then correlation[i] else 0 - correlation[i];
      if magnitude > max { max := magnitude; }
    }
    hide Largest;
    var n := LeadingZeros(max);
    signal := new Word16[L_SUBFRAME](_ => 0);
    for i := 0 to L_SUBFRAME
      modifies signal
      invariant forall k :: 0 <= k < i ==> signal[k] as int == Shifted(correlation, k) && -8192 <= signal[k] <= 8191
    {
      ShiftedFits(correlation, i);
      signal[i] := if n < 18 then correlation[i] / TwoTo(18 - n) else correlation[i];
    }
  }

  /**
   From impulse response and 32-bit correlation to the pulses: signs and magnitudes are those of the
   normalised correlation, no 32-bit word overflows on the way, every matrix element read was written,
   and the energy behind the choice is that of the pulses.
   */
  method SelectPulses(h: Response, correlation: Correlation)
    returns (best: Pulses, sign: array<Sign>, ghost c: Signal, ghost pairs: seq<Best>)
    requires FitsWord(h) && Tap(h, 0) == 4096
    ensures sign.Length == L_SUBFRAME
    ensures forall i :: 0 <= i < L_SUBFRAME ==>
      && sign[i] as int == (if Shifted(correlation, i) >= 0 then 1 else -1)
      && c[i] == (if Shifted(correlation, i) >= 0 then Shifted(correlation, i) else -Shifted(correlation, i))
    ensures Selected(h, sign[..], c, best) && |pairs| == 4
    ensures forall k :: 0 <= k < 4 ==>
      Searched(h, sign[..], c, Tracks(3 + k / 2, k % 2), pairs[k], best.square, best.energy)
    ensures ScalingOf(h) == 0 ==>
      0 <= Energy(h, Quad(sign[..], best.i0, best.i1, best.i2, best.i3), L_SUBFRAME) - 2 * best.energy <= 4
  {
    hide FitsWord, ScalingOf, Energy, Shifted;
    var signal := NormaliseSignal(correlation);
    var Phi;
    ghost var S;
    ghost var before := signal[..];
    sign, Phi, S := ComputeMatrix(h, signal);
    forall i | 0 <= i < L_SUBFRAME
      ensures sign[i] as int == (if Shifted(correlation, i) >= 0 then 1 else -1)
      ensures signal[i] as int == if Shifted(correlation, i) >= 0 then Shifted(correlation, i) else -Shifted(correlation, i)
      ensures 0 <= signal[i] <= 8192
    {
      assert before[i] as int == Shifted(correlation, i);
      assert signal[i] == sign[i] * before[i];
    }
    var magnitudes := signal[..];
    c := magnitudes;
    hide Searched, Selected;
    best, pairs := Search(Phi, h, sign[..], magnitudes);
    SelectedRefinesEnergy(h, sign[..], c, best);
  }
}
