/** No history is kept twice: cb_search.c, lines 357-415. */
module BeamDistinct {
  import opened Arithmetic
  import opened NBestList
  import opened BeamSearch
  import Vq = VqSearch
  import opened BeamDistance

  ghost predicate Distinct<T>(s: seq<T>) {
    forall i, j :: 0 <= i < j < |s| ==> s[i] != s[j]
  }

  lemma {:induction false} OnceEach<T>(s: seq<T>, x: T)
    requires Distinct(s)
    ensures multiset(s)[x] <= 1
  {
    if |s| > 0 {
      var n := |s| - 1;
      assert s == s[..n] + [s[n]];
      OnceEach(s[..n], x);
      if x == s[n] { assert x !in s[..n]; }
    }
  }

  lemma Twice<T>(s: seq<T>, i: nat, j: nat)
    requires i < j < |s| && s[i] == s[j]
    ensures multiset(s)[s[i]] >= 2
  {
    assert s == s[..j] + [s[j]] + s[j + 1..];
    assert s[..j][i] == s[i];
  }

  /** What is taken from a sequence without repetition, and from elsewhere, is taken once. */
  lemma TakenOnce<T>(kept: seq<T>, out: multiset<T>, other: multiset<T>, s: seq<T>, i: nat, j: nat)
    requires multiset(kept) + out == other + multiset(s) && Distinct(s)
    requires i < j < |kept| && other[kept[i]] == 0
    ensures kept[i] != kept[j]
  {
    OnceEach(s, kept[i]);
    assert multiset(kept)[kept[i]] <= (multiset(kept) + out)[kept[i]] == (other + multiset(s))[kept[i]] <= 1;
    if kept[i] == kept[j] { Twice(kept, i, j); }
  }

  // ---- the offers of one step ----

  /** The quantiser names no index twice. */
  ghost predicate Choosy(c: Codec) {
    forall x: seq<int> :: |x| == c.sub ==> Distinct(c.nearest(x))
  }

  /** No two offers come from the same beam with the same index. */
  lemma {:induction false} OffersDistinct(c: Codec, target: seq<int>, b: Beams, i: nat, j: nat)
    requires WellFormed(c) && Choosy(c) && Shaped(c, b, i) && i < c.nb && j <= c.N && |target| == c.nb * c.sub
    ensures Distinct(Offers(c, target, b, i, j))
  {
    hide WellFormed, Shaped, Choosy, Distinct, Offers, MoreOffers, Next, OffersOf;
    if j == 0 {
      NoOffers(c, target, b, i);
    } else {
      OffersDistinct(c, target, b, i, j - 1);
      OneMoreBeam(c, target, b, i, j - 1);
      SourcesBelow(c, target, b, i, j - 1);
      Together(Offers(c, target, b, i, j - 1), MoreOffers(c, target, b, i, j - 1));
    }
  }

  lemma NoOffers(c: Codec, target: seq<int>, b: Beams, i: nat)
    requires WellFormed(c) && Shaped(c, b, i) && i < c.nb && |target| == c.nb * c.sub
    ensures Distinct(Offers(c, target, b, i, 0))
  {}

  lemma SourcesBelow(c: Codec, target: seq<int>, b: Beams, i: nat, j: nat)
    requires WellFormed(c) && Shaped(c, b, i) && i < c.nb && j <= c.N && |target| == c.nb * c.sub
    ensures forall e :: e in Offers(c, target, b, i, j) ==> e.source < j
  {
    hide WellFormed, Shaped, Offers, Next, Step;
    forall e | e in Offers(c, target, b, i, j)
      ensures e.source < j
    {
      OfferedSound(c, target, b, i, j, e);
    }
  }

  /** What beam j offers. */
  function MoreOffers(c: Codec, target: seq<int>, b: Beams, i: nat, j: nat): seq<Entry>
    requires WellFormed(c) && Shaped(c, b, i) && i < c.nb && j < c.N && |target| == c.nb * c.sub
  {
    OffersOf(c, Next(c, target, b.paths[j]), b.dists[j], j, c.N)
  }

  lemma OneMoreBeam(c: Codec, target: seq<int>, b: Beams, i: nat, j: nat)
    requires WellFormed(c) && Choosy(c) && Shaped(c, b, i) && i < c.nb && j < c.N && |target| == c.nb * c.sub
    ensures Offers(c, target, b, i, j + 1) == Offers(c, target, b, i, j) + MoreOffers(c, target, b, i, j)
    ensures Distinct(MoreOffers(c, target, b, i, j)) && forall e :: e in MoreOffers(c, target, b, i, j) ==> e.source == j
  {
    var x := Next(c, target, b.paths[j]);
    assert Distinct(c.nearest(x));
    hide Distinct, OffersOf, Next;
    MoreDistinct(c, x, b.dists[j], j);
  }

  lemma MoreDistinct(c: Codec, x: seq<int>, total: int, j: nat)
    requires WellFormed(c) && Distinct(c.nearest(x))
    ensures Distinct(OffersOf(c, x, total, j, c.N)) && forall e :: e in OffersOf(c, x, total, j, c.N) ==> e.source == j
  {
    hide Step;
  }

  lemma Together(a: seq<Entry>, b: seq<Entry>)
    requires Distinct(a) && Distinct(b) && forall x, y :: x in a && y in b ==> x.source < y.source
    ensures Distinct(a + b)
  {
    var s := a + b;
    forall i, j | 0 <= i < j < |s|
      ensures s[i] != s[j]
    {
      if i < |a| <= j { assert s[i] in a && s[j] in b; }
    }
  }

  /** An entry of the list that is not padding is there once. */
  lemma KeptOnce(c: Codec, target: seq<int>, i: nat, j: nat, k: nat)
    requires WellFormed(c) && Choosy(c) && i < c.nb && |target| == c.nb * c.sub && j < k < c.N
    requires Kept(c, target, Run(c, target, i), i)[j].dist < VERY_LARGE32
    ensures Kept(c, target, Run(c, target, i), i)[j] != Kept(c, target, Run(c, target, i), i)[k]
  {
    hide WellFormed, Choosy, Offers;
    var b := Run(c, target, i);
    var offers, kept := Offers(c, target, b, i, Asked(c, i)), Kept(c, target, b, i);
    var dropped := StepKeepsSmallest(c, target, i);
    hide Kept, Run, Distinct, Asked;
    AskedAtMost(c, i);
    OffersDistinct(c, target, b, i, Asked(c, i));
    NotPadding(c.N, kept[j]);
    TakenOnce(kept, multiset(dropped), multiset(Padding(c.N)), offers, j, k);
  }

  lemma AskedAtMost(c: Codec, i: nat)
    requires WellFormed(c)
    ensures Asked(c, i) <= c.N
  {}

  lemma NotPadding(n: nat, e: Entry)
    requires e.dist < VERY_LARGE32
    ensures multiset(Padding(n))[e] == 0
  {
    assert e !in Padding(n);
  }

  // ---- whole histories ----

  /** Main result: two entries whose histories go back to offered candidates never have the same history. */
  lemma {:induction false} HistoriesDistinct(c: Codec, target: seq<int>, i: nat, j: nat, k: nat)
    requires WellFormed(c) && Choosy(c) && 0 < i <= c.nb && |target| == c.nb * c.sub && j < c.N && k < c.N && j != k
    requires Offered(c, target, i, j) && Offered(c, target, i, k)
    ensures Run(c, target, i).paths[j] != Run(c, target, i).paths[k]
    decreases i
  {
    hide WellFormed, Choosy, Offered, Next, Step, Source, Kept, Run, Shaped, Asked;
    OfferedBefore(c, target, i, j);
    OfferedBefore(c, target, i, k);
    var s := i - 1;
    FromOffers(c, target, s, j);
    FromOffers(c, target, s, k);
    var b := Run(c, target, s);
    RunShape(c, target, s, 0);
    var l := Kept(c, target, b, s);
    KeptOnce(c, target, s, if j < k then j else k, if j < k then k else j);
    var e, f := l[j], l[k];
    Appended(b.paths[e.source], e.index, b.paths[f.source], f.index);
    OneAsked(c);
    if e.source != f.source && s > 0 { HistoriesDistinct(c, target, s, e.source, f.source); }
  }

  lemma OneAsked(c: Codec)
    ensures Asked(c, 0) == 1
  {}

  lemma Appended(p: seq<nat>, x: nat, q: seq<nat>, y: nat)
    ensures p + [x] == q + [y] <==> p == q && x == y
  {
    if p + [x] == q + [y] {
      assert (p + [x])[..|p|] == p && (q + [y])[..|q|] == q;
      assert (p + [x])[|p|] == x && (q + [y])[|q|] == y;
    }
  }

  /** What an entry that is not padding is made of. */
  lemma FromOffers(c: Codec, target: seq<int>, i: nat, j: nat)
    requires WellFormed(c) && i < c.nb && |target| == c.nb * c.sub && j < c.N
    requires Run(c, target, i + 1).dists[j] < VERY_LARGE32
    ensures var b := Run(c, target, i);
      var e := Kept(c, target, b, i)[j];
      && e.dist < VERY_LARGE32 && e.source < c.N && e.source < Asked(c, i) && e.source == Source(c, target, i, j)
      && e.dist == Step(c, Next(c, target, b.paths[e.source]), b.dists[e.source], e.index)
      && Run(c, target, i + 1).paths[j] == b.paths[e.source] + [e.index]
  {
    hide Next, Step, Offers;
    var b := Run(c, target, i);
    var e := Kept(c, target, b, i)[j];
    KeptSound(c, target, b, i, j);
    AskedAtMost(c, i);
    OfferedSound(c, target, b, i, Asked(c, i), e);
  }

  // ---- the quantiser of vq.c ----

  /** The codeword an index stands for, whatever its sign. */
  function Codeword(entries: nat, index: nat): nat { if index >= entries then index - entries else index }

  lemma CandidateOf(x: seq<int>, codebook: seq<int>, entries: nat, E: seq<int>, sign: bool, i: nat)
    requires Vq.Fits(x, codebook, entries, E) && i < entries
    ensures Codeword(entries, Vq.Candidate(x, codebook, entries, E, sign, i).index) == i
  {
    hide Vq.Dot;
  }

  /** It names no codeword twice, with or without signs. */
  lemma QuantiserIsChoosy(c: Codec, filtered: seq<int>, E: seq<int>)
    requires 0 < c.N <= c.size && |filtered| == c.size * c.sub && |E| == c.size
    ensures Choosy(WithQuantiser(c, filtered, E))
  {
    var d := WithQuantiser(c, filtered, E);
    forall x: seq<int> | |x| == c.sub
      ensures Distinct(d.nearest(x))
    {
      RankedDistinct(c, filtered, E, x);
    }
  }

  lemma RankedDistinct(c: Codec, filtered: seq<int>, E: seq<int>, x: seq<int>)
    requires 0 < c.N && |x| == c.sub && Vq.Fits(x, filtered, c.size, E)
    ensures forall j, k :: 0 <= j < k < |Ranked(c, filtered, E, x)| ==>
      Ranked(c, filtered, E, x)[j].index != Ranked(c, filtered, E, x)[k].index
  {
    hide Vq.Candidate, Vq.Nearest, Vq.Fits;
    var r, ds := Ranked(c, filtered, E, x), Vq.Candidates(x, filtered, c.size, E, c.haveSign, c.size);
    var out := Vq.KeepsNearest(ds, c.N);
    forall i, j | 0 <= i < j < |ds|
      ensures ds[i] != ds[j]
    {
      CandidateOf(x, filtered, c.size, E, c.haveSign, i);
      CandidateOf(x, filtered, c.size, E, c.haveSign, j);
    }
    forall j, k | 0 <= j < k < |r|
      ensures r[j].index != r[k].index
    {
      var a := RankedIsCandidate(c, filtered, E, x, j);
      var b := RankedIsCandidate(c, filtered, E, x, k);
      CandidateOf(x, filtered, c.size, E, c.haveSign, a);
      CandidateOf(x, filtered, c.size, E, c.haveSign, b);
      assert r[j].index == r[k].index ==> r[j] == r[k];
      TakenOnce(r, out, multiset{}, ds, j, k);
    }
  }
}
