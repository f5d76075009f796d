/** The split-codebook beam search of cb_search.c in its fixed-point form. */
module BeamSearch {
  import opened Arithmetic
  import opened NBestList

  function Add32(a: int, b: int): int { Wrap32(a + b) }

  /**
   What the search is given: N beams, nb sub-vectors of sub samples, size codewords, the impulse
   response, and the vector quantiser: N codeword indices for a target, and the distance of each.
   Indices of `size` and above stand for negated codewords.
   */
  datatype Codec = Codec(
    N: nat, sub: nat, nb: nat, size: nat, haveSign: bool, codebook: seq<int>, response: seq<int>,
    nearest: seq<int> -> seq<nat>, distance: (seq<int>, nat) -> int)

  function Limit(c: Codec): nat { if c.haveSign then 2 * c.size else c.size }

  ghost predicate WellFormed(c: Codec) {
    && c.N >= 2 && c.sub >= 1 && c.size >= 1
    && |c.codebook| == c.size * c.sub && |c.response| >= c.nb * c.sub
    && (forall x :: |c.nearest(x)| == c.N)
    && forall x, k :: 0 <= k < c.N ==> c.nearest(x)[k] < Limit(c)
  }

  /** Half the energy of a target sub-vector. */
  function Energy(x: seq<int>): int {
    if |x| == 0 then 0
    else Add32(Energy(x[..|x| - 1]), Wrap32(x[|x| - 1] * x[|x| - 1]))
  }

  function Tener(x: seq<int>): int { Energy(x) / 2 }

  /** Sample m of the signed codeword an index stands for. */
  function Sample(c: Codec, index: nat, m: nat): int
    requires WellFormed(c) && index < Limit(c) && m < c.sub
  {
    var rind := if index >= c.size then index - c.size else index;
    IndexInside(rind, c.size, m, c.sub);
    if index >= c.size then -c.codebook[rind * c.sub + m] else c.codebook[rind * c.sub + m]
  }

  lemma IndexInside(i: nat, n: nat, m: nat, s: nat)
    requires i < n && m < s
    ensures i * s + m < n * s
  {
    MulNat(i + 1, s, n, s);
    assert (i + 1) * s == i * s + s;
  }

  /** target_update: subtract the response to one sample from the rest of the target. */
  function TargetUpdate(t: seq<int>, g: int, r: seq<int>): (u: seq<int>)
    requires |t| <= |r|
    ensures |u| == |t|
    ensures forall n :: 0 <= n < |t| ==> u[n] == Wrap16(t[n] - (g * r[n] + 4096) / 8192)
  {
    seq(|t|, n requires 0 <= n < |t| => Wrap16(t[n] - (g * r[n] + 4096) / 8192))
  }

  /** The target after the first m samples of a codeword have been taken into account. */
  function UpdateTail(c: Codec, t: seq<int>, index: nat, m: nat): (u: seq<int>)
    requires WellFormed(c) && index < Limit(c) && m <= c.sub && |t| + c.sub <= |c.response|
    ensures |u| == |t|
  {
    if m == 0 then t
    else TargetUpdate(UpdateTail(c, t, index, m - 1), Sample(c, index, m - 1), c.response[c.sub - (m - 1)..])
  }

  ghost predicate InRange(c: Codec, path: seq<nat>) {
    |path| <= c.nb && forall s :: 0 <= s < |path| ==> path[s] < Limit(c)
  }

  lemma TailRoom(c: Codec, i: nat)
    requires i < c.nb
    ensures (c.nb - i) * c.sub == (c.nb - i - 1) * c.sub + c.sub
    ensures 0 <= (c.nb - i - 1) * c.sub && (c.nb - i) * c.sub <= c.nb * c.sub
  {
    MulNat(c.nb - i - 1, c.sub, c.nb - i - 1, c.sub);
    MulNat(c.nb - i, c.sub, c.nb, c.sub);
  }

  /** What is left of the target after following a path. */
  function Tail(c: Codec, target: seq<int>, path: seq<nat>): (t: seq<int>)
    requires WellFormed(c) && InRange(c, path) && |target| == c.nb * c.sub
    ensures |t| == (c.nb - |path|) * c.sub
    decreases |path|
  {
    if |path| == 0 then target
    else
      var i := |path| - 1;
      TailRoom(c, i);
      UpdateTail(c, Tail(c, target, path[..i])[c.sub..], path[i], c.sub)
  }

  /** The next target sub-vector on a path. */
  function Next(c: Codec, target: seq<int>, path: seq<nat>): (x: seq<int>)
    requires WellFormed(c) && InRange(c, path) && |path| < c.nb && |target| == c.nb * c.sub
    ensures |x| == c.sub
  {
    TailRoom(c, |path|);
    Tail(c, target, path)[..c.sub]
  }

  /** The error of choosing an index next, on top of an accumulated one. */
  function Step(c: Codec, x: seq<int>, total: int, index: nat): int {
    Add32(Add32(total, c.distance(x, index)), Tener(x))
  }

  /** The accumulated distortion of a path. */
  function Total(c: Codec, target: seq<int>, path: seq<nat>): int
    requires WellFormed(c) && InRange(c, path) && |target| == c.nb * c.sub
    decreases |path|
  {
    if |path| == 0 then 0
    else
      var rest := path[..|path| - 1];
      Step(c, Next(c, target, rest), Total(c, target, rest), path[|path| - 1])
  }

  // ---- one step on whole beams ----

  datatype Beams = Beams(dists: seq<int>, paths: seq<seq<nat>>)

  ghost predicate Shaped(c: Codec, b: Beams, i: nat) {
    && i <= c.nb && |b.dists| == |b.paths| == c.N
    && forall j :: 0 <= j < c.N ==> |b.paths[j]| == i && InRange(c, b.paths[j])
  }

  /** The first k candidates beam j offers. */
  function OffersOf(c: Codec, x: seq<int>, total: int, j: nat, k: nat): (o: seq<Entry>)
    requires WellFormed(c) && k <= c.N
    ensures |o| == k
    ensures forall m :: 0 <= m < k ==> o[m] == Entry(Step(c, x, total, c.nearest(x)[m]), c.nearest(x)[m], j)
  {
    if k == 0 then []
    else OffersOf(c, x, total, j, k - 1) + [Entry(Step(c, x, total, c.nearest(x)[k - 1]), c.nearest(x)[k - 1], j)]
  }

  /** All candidates of the first j beams. */
  function Offers(c: Codec, target: seq<int>, b: Beams, i: nat, j: nat): seq<Entry>
    requires WellFormed(c) && Shaped(c, b, i) && i < c.nb && j <= c.N && |target| == c.nb * c.sub
  {
    if j == 0 then []
    else Offers(c, target, b, i, j - 1) + OffersOf(c, Next(c, target, b.paths[j - 1]), b.dists[j - 1], j - 1, c.N)
  }

  /** At the first sub-vector all beams are the same, and only one is asked. */
  function Asked(c: Codec, i: nat): nat { if i == 0 then 1 else c.N }

  function Kept(c: Codec, target: seq<int>, b: Beams, i: nat): (l: seq<Entry>)
    requires WellFormed(c) && Shaped(c, b, i) && i < c.nb && |target| == c.nb * c.sub
    ensures |l| == c.N
  {
    InsertAll(Padding(c.N), Offers(c, target, b, i, Asked(c, i)))
  }

  lemma {:induction false} OfferedSound(c: Codec, target: seq<int>, b: Beams, i: nat, j: nat, e: Entry)
    requires WellFormed(c) && Shaped(c, b, i) && i < c.nb && j <= c.N && |target| == c.nb * c.sub
    requires e in Offers(c, target, b, i, j)
    ensures e.source < j && e.index < Limit(c)
    ensures e.dist == Step(c, Next(c, target, b.paths[e.source]), b.dists[e.source], e.index)
    ensures e.index in c.nearest(Next(c, target, b.paths[e.source]))
  {
    var x := Next(c, target, b.paths[j - 1]);
    if e in OffersOf(c, x, b.dists[j - 1], j - 1, c.N) {
    } else {
      OfferedSound(c, target, b, i, j - 1, e);
    }
  }

  lemma KeptSound(c: Codec, target: seq<int>, b: Beams, i: nat, j: nat)
    requires WellFormed(c) && Shaped(c, b, i) && i < c.nb && |target| == c.nb * c.sub && j < c.N
    ensures Kept(c, target, b, i)[j].source < c.N && Kept(c, target, b, i)[j].index < Limit(c)
    ensures var e := Kept(c, target, b, i)[j];
      e == PADDING || e in Offers(c, target, b, i, Asked(c, i))
  {
    var e := Kept(c, target, b, i)[j];
    KeptWasOffered(c.N, Offers(c, target, b, i, Asked(c, i)), e);
    if e != PADDING { OfferedSound(c, target, b, i, Asked(c, i), e); }
  }

  function Advance(c: Codec, target: seq<int>, b: Beams, i: nat): (r: Beams)
    requires WellFormed(c) && Shaped(c, b, i) && i < c.nb && |target| == c.nb * c.sub
    ensures Shaped(c, r, i + 1)
    ensures forall j :: 0 <= j < c.N ==> r.dists[j] == Kept(c, target, b, i)[j].dist
  {
    var l := Kept(c, target, b, i);
    assert forall j :: 0 <= j < c.N ==> l[j].source < c.N && l[j].index < Limit(c) by {
      forall j | 0 <= j < c.N ensures l[j].source < c.N && l[j].index < Limit(c) { KeptSound(c, target, b, i, j); }
    }
    Beams(seq(c.N, j requires 0 <= j < c.N => l[j].dist),
          seq(c.N, j requires 0 <= j < c.N => b.paths[l[j].source] + [l[j].index]))
  }

  /** The beams after i sub-vectors. */
  function Run(c: Codec, target: seq<int>, i: nat): (b: Beams)
    requires WellFormed(c) && i <= c.nb && |target| == c.nb * c.sub
    ensures Shaped(c, b, i)
  {
    if i == 0 then Beams(seq(c.N, _ => 0), seq(c.N, _ => []))
    else Advance(c, target, Run(c, target, i - 1), i - 1)
  }

  /**
   Main result of one sub-vector: the distances are sorted, and every distance offered by the
   previous beams is either kept or no smaller than all that are; the rest is padding.
   */
  lemma StepKeepsSmallest(c: Codec, target: seq<int>, i: nat) returns (dropped: seq<Entry>)
    requires WellFormed(c) && i < c.nb && |target| == c.nb * c.sub
    ensures var b, r := Run(c, target, i), Run(c, target, i + 1);
      var offers, kept := Offers(c, target, b, i, Asked(c, i)), Kept(c, target, b, i);
      && (forall j :: 0 <= j < c.N ==> r.dists[j] == kept[j].dist)
      && (forall j, k :: 0 <= j < k < c.N ==> r.dists[j] <= r.dists[k])
      && multiset(kept) + multiset(dropped) == multiset(Padding(c.N)) + multiset(offers)
      && forall x, y :: x in kept && y in dropped ==> x.dist <= y.dist
  {
    var b := Run(c, target, i);
    dropped := KeepsSmallest(c.N, Offers(c, target, b, i, Asked(c, i)));
  }

  /** Entry j after i sub-vectors goes back, step by step, to offered candidates. */
  ghost predicate Offered(c: Codec, target: seq<int>, i: nat, j: nat)
    requires WellFormed(c) && i <= c.nb && |target| == c.nb * c.sub && j < c.N
    decreases i
  {
    i == 0
    || (Run(c, target, i).dists[j] < VERY_LARGE32 && Offered(c, target, i - 1, Source(c, target, i - 1, j)))
  }

  /** The beam that entry j of the next step comes from. */
  function Source(c: Codec, target: seq<int>, i: nat, j: nat): (s: nat)
    requires WellFormed(c) && i < c.nb && |target| == c.nb * c.sub && j < c.N
    ensures s < c.N
  {
    KeptSound(c, target, Run(c, target, i), i, j);
    Kept(c, target, Run(c, target, i), i)[j].source
  }

  /** A path of indices the quantiser offered, with its own distortion beside it. */
  ghost predicate Genuine(c: Codec, target: seq<int>, path: seq<nat>, total: int)
    requires WellFormed(c) && InRange(c, path) && |target| == c.nb * c.sub
  {
    && total == Total(c, target, path)
    && forall s :: 0 <= s < |path| ==> path[s] in c.nearest(Next(c, target, path[..s]))
  }

  /**
   Main result over the whole search, entry by entry: a history that goes back to offered candidates is
   a path of them, and the distance beside it is the distortion of that path.
   */
  lemma {:induction false} HistoriesMatch(c: Codec, target: seq<int>, i: nat, j: nat)
    requires WellFormed(c) && i <= c.nb && |target| == c.nb * c.sub && j < c.N && Offered(c, target, i, j)
    ensures Genuine(c, target, Run(c, target, i).paths[j], Run(c, target, i).dists[j])
    decreases i
  {
    hide Offered, Step, Genuine, Next, WellFormed, Source;
    if i > 0 {
      OfferedBefore(c, target, i, j);
      var e := HistoryStep(c, target, i - 1, j);
      HistoriesMatch(c, target, i - 1, e.source);
      RunShape(c, target, i - 1, e.source);
      hide Run, Shaped;
      ExtendPath(c, target, Run(c, target, i - 1).paths[e.source], e.index, Run(c, target, i - 1).dists[e.source]);
    } else {
      StartIsGenuine(c, target, j);
    }
  }

  lemma StartIsGenuine(c: Codec, target: seq<int>, j: nat)
    requires WellFormed(c) && |target| == c.nb * c.sub && j < c.N
    ensures Genuine(c, target, Run(c, target, 0).paths[j], Run(c, target, 0).dists[j])
  {}

  lemma RunShape(c: Codec, target: seq<int>, i: nat, j: nat)
    requires WellFormed(c) && i <= c.nb && |target| == c.nb * c.sub && j < c.N
    ensures var b := Run(c, target, i);
      |b.dists| == |b.paths| == c.N && |b.paths[j]| == i && InRange(c, b.paths[j])
  {
    hide Run, WellFormed;
  }

  lemma OfferedBefore(c: Codec, target: seq<int>, i: nat, j: nat)
    requires WellFormed(c) && 0 < i <= c.nb && |target| == c.nb * c.sub && j < c.N && Offered(c, target, i, j)
    ensures Run(c, target, i).dists[j] < VERY_LARGE32
    ensures Offered(c, target, i - 1, Source(c, target, i - 1, j))
  {
    hide Run, WellFormed, Source;
  }

  /** Where the history of beam j came from, when its own entry is not padding. */
  lemma HistoryStep(c: Codec, target: seq<int>, i: nat, j: nat) returns (e: Entry)
    requires WellFormed(c) && i < c.nb && |target| == c.nb * c.sub && j < c.N
    requires Run(c, target, i + 1).dists[j] < VERY_LARGE32
    ensures e.source < c.N && e.index < Limit(c) && e.source == Source(c, target, i, j)
    ensures var b, r := Run(c, target, i), Run(c, target, i + 1);
      && r.paths[j] == b.paths[e.source] + [e.index]
      && r.dists[j] == Step(c, Next(c, target, b.paths[e.source]), b.dists[e.source], e.index)
      && e.index in c.nearest(Next(c, target, b.paths[e.source]))
  {
    hide Next, Step, Offers;
    var b := Run(c, target, i);
    e := Kept(c, target, b, i)[j];
    KeptSound(c, target, b, i, j);
    OfferedSound(c, target, b, i, Asked(c, i), e);
  }

  // ---- when no padding remains ----

  lemma OffersLength(c: Codec, target: seq<int>, b: Beams, i: nat, j: nat)
    requires WellFormed(c) && Shaped(c, b, i) && i < c.nb && j <= c.N && |target| == c.nb * c.sub
    ensures |Offers(c, target, b, i, j)| == j * c.N
  {
    hide Next, Step;
    if j > 0 {
      OffersLength(c, target, b, i, j - 1);
      assert j * c.N == (j - 1) * c.N + c.N;
    }
  }

  lemma Inhabited(c: Codec)
    requires WellFormed(c)
    ensures c.N >= 2 && c.sub >= 1 && c.size >= 1
  {}

  /** The candidates offered at sub-vector i of the search. */
  function OffersAt(c: Codec, target: seq<int>, i: nat): seq<Entry>
    requires WellFormed(c) && i < c.nb && |target| == c.nb * c.sub
  {
    Offers(c, target, Run(c, target, i), i, Asked(c, i))
  }

  lemma ListAt(c: Codec, target: seq<int>, i: nat, j: nat)
    requires WellFormed(c) && i < c.nb && |target| == c.nb * c.sub && j < c.N
    ensures |Run(c, target, i + 1).dists| == c.N
    ensures Run(c, target, i + 1).dists[j] == InsertAll(Padding(c.N), OffersAt(c, target, i))[j].dist
  {
    hide Offers, InsertAll, WellFormed;
  }

  /** The list after a sub-vector is full exactly when N of the candidates offered were below padding. */
  lemma FullStep(c: Codec, target: seq<int>, i: nat)
    requires WellFormed(c) && i < c.nb && |target| == c.nb * c.sub
    ensures |Run(c, target, i + 1).dists| == c.N >= 2
    ensures Run(c, target, i + 1).dists[c.N - 1] < VERY_LARGE32 <==> Below(OffersAt(c, target, i)) >= c.N
  {
    Inhabited(c);
    hide OffersAt, InsertAll, Below, Run, Shaped, WellFormed;
    ListAt(c, target, i, c.N - 1);
    FullWhenEnough(c.N, OffersAt(c, target, i));
  }

  /** The distortion of a candidate is a 32-bit word, so it is refused by a padded list only at one value. */
  ghost predicate NoneAtLimit(c: Codec, target: seq<int>, i: nat)
    requires WellFormed(c) && i < c.nb && |target| == c.nb * c.sub
  {
    forall x :: x in OffersAt(c, target, i) ==> x.dist != VERY_LARGE32
  }

  lemma OffersBelow(c: Codec, target: seq<int>, i: nat)
    requires WellFormed(c) && i < c.nb && |target| == c.nb * c.sub && NoneAtLimit(c, target, i)
    ensures Below(OffersAt(c, target, i)) >= c.N
  {
    var b := Run(c, target, i);
    hide Run, Offers, WellFormed, Below;
    forall x | x in OffersAt(c, target, i)
      ensures x.dist < VERY_LARGE32
    {
      OfferedSound(c, target, b, i, Asked(c, i), x);
    }
    AllBelow(OffersAt(c, target, i));
    OffersLength(c, target, b, i, Asked(c, i));
    EnoughAsked(c, i);
  }

  lemma EnoughAsked(c: Codec, i: nat)
    requires WellFormed(c)
    ensures Asked(c, i) * c.N >= c.N
  {
    MulNat(1, c.N, Asked(c, i), c.N);
  }

  lemma KeptInOrder(n: nat, offers: seq<Entry>, j: nat)
    requires j < n
    ensures InsertAll(Padding(n), offers)[j].dist <= InsertAll(Padding(n), offers)[n - 1].dist
  {
    var dropped := KeepsSmallest(n, offers);
  }

  lemma InOrder(c: Codec, target: seq<int>, i: nat, j: nat)
    requires WellFormed(c) && i < c.nb && |target| == c.nb * c.sub && j < c.N
    ensures |Run(c, target, i + 1).dists| == c.N
    ensures Run(c, target, i + 1).dists[j] <= Run(c, target, i + 1).dists[c.N - 1]
  {
    Inhabited(c);
    hide OffersAt, InsertAll, Run, Shaped, WellFormed, Sorted, Padding;
    ListAt(c, target, i, j);
    ListAt(c, target, i, c.N - 1);
    KeptInOrder(c.N, OffersAt(c, target, i), j);
  }

  /** Then every entry of the list is an offered candidate. */
  lemma FullUnlessAtLimit(c: Codec, target: seq<int>, i: nat, j: nat)
    requires WellFormed(c) && i < c.nb && |target| == c.nb * c.sub && j < c.N && NoneAtLimit(c, target, i)
    ensures |Run(c, target, i + 1).dists| == c.N && Run(c, target, i + 1).dists[j] < VERY_LARGE32
  {
    hide Run, OffersAt, WellFormed, NoneAtLimit, Below, Shaped;
    OffersBelow(c, target, i);
    FullStep(c, target, i);
    InOrder(c, target, i, j);
  }

  /** So when no candidate so far had the largest distortion, all histories go back to offered candidates. */
  lemma {:induction false} AllOffered(c: Codec, target: seq<int>, i: nat, j: nat)
    requires WellFormed(c) && i <= c.nb && |target| == c.nb * c.sub && j < c.N
    requires forall s: nat :: s < i ==> NoneAtLimit(c, target, s)
    ensures Offered(c, target, i, j)
    decreases i
  {
    hide NoneAtLimit, Run, WellFormed, Shaped, Source;
    if i > 0 {
      FullUnlessAtLimit(c, target, i - 1, j);
      AllOffered(c, target, i - 1, Source(c, target, i - 1, j));
    }
  }

  lemma ExtendPath(c: Codec, target: seq<int>, p: seq<nat>, index: nat, total: int)
    requires WellFormed(c) && InRange(c, p) && |p| < c.nb && |target| == c.nb * c.sub && index < Limit(c)
    requires Genuine(c, target, p, total) && index in c.nearest(Next(c, target, p))
    ensures Genuine(c, target, p + [index], Step(c, Next(c, target, p), total, index))
  {
    hide Next, Step;
    var q := p + [index];
    assert q[..|p|] == p;
    forall s | 0 <= s < |q|
      ensures q[s] in c.nearest(Next(c, target, q[..s]))
    {
      if s < |p| {
        assert q[..s] == p[..s] && q[s] == p[s];
      }
    }
  }
}
