/** The N nearest codewords of a target, with and without a sign: vq.c, lines 83-147. */
module VqSearch {
  import opened Arithmetic

  datatype Found = Found(dist: int, index: nat)

  ghost predicate Ascends(l: seq<Found>) {
    forall i, j :: 0 <= i < j < |l| ==> l[i].dist <= l[j].dist
  }

  // ---- the list ----

  /** Put e behind the last entry that is no farther. */
  function Placed(l: seq<Found>, e: Found): (r: seq<Found>)
    ensures |r| == |l| + 1
  {
    if |l| == 0 || l[|l| - 1].dist <= e.dist then l + [e] else Placed(l[..|l| - 1], e) + [l[|l| - 1]]
  }

  /** A list of at most N entries takes in one more; the last one falls out when there is no room. */
  function Kept(l: seq<Found>, e: Found, N: nat): (r: seq<Found>)
    requires |l| <= N && N > 0
    ensures |r| == if |l| < N then |l| + 1 else N
  {
    if |l| < N then Placed(l, e)
    else if e.dist < l[N - 1].dist then Placed(l[..N - 1], e)
    else l
  }

  function Nearest(ds: seq<Found>, N: nat): (r: seq<Found>)
    requires N > 0
    ensures |r| == if |ds| < N then |ds| else N
  {
    if |ds| == 0 then [] else Kept(Nearest(ds[..|ds| - 1], N), ds[|ds| - 1], N)
  }

  lemma AscendsAppend(l: seq<Found>, e: Found)
    requires Ascends(l) && (|l| > 0 ==> l[|l| - 1].dist <= e.dist)
    ensures Ascends(l + [e])
  {
    var r := l + [e];
    forall i, j | 0 <= i < j < |r|
      ensures r[i].dist <= r[j].dist
    {
      if j == |l| && i < |l| - 1 { assert l[i].dist <= l[|l| - 1].dist; }
    }
  }

  /** A placement keeps the order and all entries; the last one is the farther of e and the last before. */
  lemma {:induction false} PlacedKeeps(l: seq<Found>, e: Found)
    requires Ascends(l)
    ensures Ascends(Placed(l, e)) && multiset(Placed(l, e)) == multiset(l) + multiset{e}
    ensures Placed(l, e)[|l|].dist == if |l| == 0 || l[|l| - 1].dist <= e.dist then e.dist else l[|l| - 1].dist
  {
    if |l| == 0 || l[|l| - 1].dist <= e.dist {
      AscendsAppend(l, e);
    } else {
      var n := |l| - 1;
      PlacedKeeps(l[..n], e);
      assert l == l[..n] + [l[n]];
      if n > 0 { assert l[n - 1].dist <= l[n].dist; }
      AscendsAppend(Placed(l[..n], e), l[n]);
    }
  }

  lemma SplitLast(l: seq<Found>)
    requires |l| > 0
    ensures multiset(l) == multiset(l[..|l| - 1]) + multiset{l[|l| - 1]}
  {
    assert l == l[..|l| - 1] + [l[|l| - 1]];
  }

  /** One step: the order is kept, the last entry does not move away, and what falls out is no nearer than it. */
  lemma KeptKeeps(l: seq<Found>, e: Found, N: nat) returns (out: multiset<Found>)
    requires Ascends(l) && |l| <= N && N > 0
    ensures Ascends(Kept(l, e, N)) && multiset(Kept(l, e, N)) + out == multiset(l) + multiset{e}
    ensures forall y :: y in out ==> |l| == N && Kept(l, e, N)[N - 1].dist <= y.dist
    ensures |l| == N ==> Kept(l, e, N)[N - 1].dist <= l[N - 1].dist
  {
    hide Placed, Ascends, Kept;
    KeptCases(l, e, N);
    assert l[..|l|] == l;
    if |l| < N {
      PlacedKeeps(l, e);
      out := multiset{};
    } else if e.dist < l[N - 1].dist {
      FrontAscends(l);
      PlacedKeeps(l[..N - 1], e);
      SplitLast(l);
      out := multiset{l[N - 1]};
    } else {
      out := multiset{e};
    }
  }

  lemma FrontAscends(l: seq<Found>)
    requires Ascends(l) && |l| > 0
    ensures Ascends(l[..|l| - 1]) && (|l| > 1 ==> l[..|l| - 1][|l| - 2].dist <= l[|l| - 1].dist)
  {}

  lemma Exchange(a: multiset<Found>, b: multiset<Found>, l: multiset<Found>, e: multiset<Found>, before: multiset<Found>, ds: multiset<Found>)
    requires a + b == l + e && l + before == ds
    ensures a + (before + b) == ds + e
  {
    assert a + (before + b) == (a + b) + before;
    assert (l + e) + before == (l + before) + e;
  }

  /**
   Main result on the list: it ascends, and with what fell out it is all candidates; nothing that fell out
   is nearer than the last entry, and nothing falls out while there is room.
   */
  lemma {:induction false} KeepsNearest(ds: seq<Found>, N: nat) returns (out: multiset<Found>)
    requires N > 0
    ensures Ascends(Nearest(ds, N)) && multiset(Nearest(ds, N)) + out == multiset(ds)
    ensures forall y :: y in out ==> |ds| > N && Nearest(ds, N)[N - 1].dist <= y.dist
  {
    hide Ascends, Kept, Placed;
    if |ds| == 0 {
      out := multiset{};
      NoneAscends();
    } else {
      var n := |ds| - 1;
      var l, e := Nearest(ds[..n], N), ds[n];
      var before := KeepsNearest(ds[..n], N);
      var more := KeptKeeps(l, e, N);
      SplitLast(ds);
      out := before + more;
      Exchange(multiset(Kept(l, e, N)), more, multiset(l), multiset{e}, before, multiset(ds[..n]));
    }
  }

  lemma NoneAscends()
    ensures Ascends([])
  {}

  // ---- the candidates ----

  /** The first k products of a target and a codeword, on 32 bits. */
  function Dot(x: seq<int>, codebook: seq<int>, base: nat, k: nat): int
    requires k <= |x| && base + k <= |codebook|
  {
    if k == 0 then 0 else Wrap32(Dot(x, codebook, base, k - 1) + x[k - 1] * codebook[base + k - 1])
  }

  lemma Inside(i: nat, entries: nat, len: nat)
    requires i < entries
    ensures i * len + len <= entries * len && (i + 1) * len == i * len + len
  {
    MulNat(i + 1, len, entries, len);
    assert (i + 1) * len == i * len + len;
  }

  ghost predicate Fits(x: seq<int>, codebook: seq<int>, entries: nat, E: seq<int>) {
    |codebook| == entries * |x| && |E| == entries
  }

  /** Codeword i with its distance: half its energy less its product with the target. */
  function Plain(x: seq<int>, codebook: seq<int>, entries: nat, E: seq<int>, i: nat): Found
    requires Fits(x, codebook, entries, E) && i < entries
  {
    Inside(i, entries, |x|);
    Found(Wrap32(E[i] / 2 - Dot(x, codebook, i * |x|, |x|)), i)
  }

  /** The same for codeword i with the sign that brings it nearer; a minus is an index of entries and above. */
  function Signed(x: seq<int>, codebook: seq<int>, entries: nat, E: seq<int>, i: nat): Found
    requires Fits(x, codebook, entries, E) && i < entries
  {
    Inside(i, entries, |x|);
    var dot := Dot(x, codebook, i * |x|, |x|);
    Found(Wrap32((if dot > 0 then Wrap32(0 - dot) else dot) + E[i] / 2), if dot > 0 then i else i + entries)
  }

  function Candidate(x: seq<int>, codebook: seq<int>, entries: nat, E: seq<int>, sign: bool, i: nat): Found
    requires Fits(x, codebook, entries, E) && i < entries
  {
    if sign then Signed(x, codebook, entries, E, i) else Plain(x, codebook, entries, E, i)
  }

  function Candidates(x: seq<int>, codebook: seq<int>, entries: nat, E: seq<int>, sign: bool, n: nat): (ds: seq<Found>)
    requires Fits(x, codebook, entries, E) && n <= entries
    ensures |ds| == n && forall i :: 0 <= i < n ==> ds[i] == Candidate(x, codebook, entries, E, sign, i)
  {
    seq(n, i requires 0 <= i < n => Candidate(x, codebook, entries, E, sign, i))
  }

  /** The sign is the better one: with the other the distance would be no smaller. */
  lemma SignIsBetter(x: seq<int>, codebook: seq<int>, entries: nat, E: seq<int>, i: nat)
    requires Fits(x, codebook, entries, E) && i < entries
    ensures i * |x| + |x| <= |codebook|
    ensures var dot := Dot(x, codebook, i * |x|, |x|);
      -0x4000_0000 <= dot <= 0x4000_0000 && 0 <= E[i] < 0x7fff_ffff ==>
        Signed(x, codebook, entries, E, i).dist == (if dot > 0 then E[i] / 2 - dot else E[i] / 2 + dot)
        && Signed(x, codebook, entries, E, i).dist <= E[i] / 2 - dot && Signed(x, codebook, entries, E, i).dist <= E[i] / 2 + dot
  {
    Inside(i, entries, |x|);
    hide Dot;
  }

  // ---- the loops ----

  function Zip(bestDist: array<int>, nbest: array<nat>, n: nat): (l: seq<Found>)
    requires n <= bestDist.Length == nbest.Length
    reads bestDist, nbest
    ensures |l| == n && forall k :: 0 <= k < n ==> l[k] == Found(bestDist[k], nbest[k])
  {
    seq(n, k requires 0 <= k < n && n <= bestDist.Length == nbest.Length reads bestDist, nbest => Found(bestDist[k], nbest[k]))
  }

  /** Where a placement lands. */
  lemma {:induction false} PlacedAt(l: seq<Found>, e: Found, k: nat)
    requires k <= |l| && (k > 0 ==> l[k - 1].dist <= e.dist)
    requires forall j :: k <= j < |l| ==> e.dist < l[j].dist
    ensures Placed(l, e) == l[..k] + [e] + l[k..]
  {
    if k == |l| {
    } else {
      var n := |l| - 1;
      PlacedAt(l[..n], e, k);
      assert l[..n][..k] == l[..k] && l[..n][k..] + [l[n]] == l[k..];
    }
  }

  function Least(a: nat, b: nat): nat { if a < b then a else b }

  /** The arrays while a gap at k moves down: the list below it, and what has been shifted above it. */
  ghost predicate GapAt(bestDist: array<int>, nbest: array<nat>, l: seq<Found>, k: nat)
    requires |l| < bestDist.Length == nbest.Length
    reads bestDist, nbest
  {
    && (forall j :: 0 <= j < k && j < |l| ==> bestDist[j] == l[j].dist && nbest[j] == l[j].index)
    && (forall j :: k < j <= |l| ==> bestDist[j] == l[j - 1].dist && nbest[j] == l[j - 1].index)
  }

  lemma GapFilled(bestDist: array<int>, nbest: array<nat>, l: seq<Found>, k: nat, e: Found)
    requires |l| < bestDist.Length == nbest.Length && k <= |l| && GapAt(bestDist, nbest, l, k)
    requires bestDist[k] == e.dist && nbest[k] == e.index
    ensures Zip(bestDist, nbest, |l| + 1) == l[..k] + [e] + l[k..]
  {
    var r := l[..k] + [e] + l[k..];
    assert |r| == |l| + 1;
    forall j | 0 <= j <= |l|
      ensures Zip(bestDist, nbest, |l| + 1)[j] == r[j]
    {
      if j > k { assert r[j] == l[j - 1]; }
    }
  }

  /** Shift up what is farther, and put the candidate into the gap; `used` slots are in use, at most all. */
  method Put(bestDist: array<int>, nbest: array<nat>, used: nat, d: int, index: nat)
    requires bestDist.Length == nbest.Length > 0
    requires used < bestDist.Length || d < bestDist[bestDist.Length - 1]
    modifies bestDist, nbest
    ensures var N := bestDist.Length;
      Zip(bestDist, nbest, Least(used + 1, N)) == Placed(old(Zip(bestDist, nbest, Least(used, N - 1))), Found(d, index))
  {
    hide Placed;
    var N := bestDist.Length;
    ghost var l := Zip(bestDist, nbest, Least(used, N - 1));
    var k := N - 1;
    while k >= 1 && (k > used || d < bestDist[k - 1])
      invariant 0 <= k < N && GapAt(bestDist, nbest, l, k)
      invariant forall j :: k <= j < |l| ==> d < l[j].dist
    {
      bestDist[k] := bestDist[k - 1];
      nbest[k] := nbest[k - 1];
      k := k - 1;
    }
    bestDist[k] := d;
    nbest[k] := index;
    hide Zip;
    PlacedAt(l, Found(d, index), k);
    GapFilled(bestDist, nbest, l, k, Found(d, index));
  }

  method Product(x: seq<int>, codebook: seq<int>, base: nat) returns (dot: int)
    requires base + |x| <= |codebook|
    ensures dot == Dot(x, codebook, base, |x|)
  {
    dot := 0;
    for j := 0 to |x|
      invariant dot == Dot(x, codebook, base, j)
    {
      dot := Wrap32(dot + x[j] * codebook[base + j]);
    }
  }

  /** Distance and index of one codeword. */
  method Measure(x: seq<int>, codebook: seq<int>, entries: nat, E: seq<int>, sign: bool, i: nat) returns (d: int, index: nat)
    requires Fits(x, codebook, entries, E) && i < entries
    ensures Candidate(x, codebook, entries, E, sign, i) == Found(d, index)
  {
    hide Dot;
    Inside(i, entries, |x|);
    var dot := Product(x, codebook, i * |x|);
    index := i;
    if sign {
      if dot > 0 { d := Wrap32(0 - dot); } else { d, index := dot, i + entries; }
      d := Wrap32(d + E[i] / 2);
    } else {
      d := Wrap32(E[i] / 2 - dot);
    }
  }

  /** What the arrays hold when the first i codewords have been looked at. */
  lemma NextNearest(ds: seq<Found>, i: nat, N: nat)
    requires i < |ds| && N > 0
    ensures Nearest(ds[..i + 1], N) == Kept(Nearest(ds[..i], N), ds[i], N)
  {
    assert ds[..i + 1][..i] == ds[..i];
  }

  /**
   vq_nbest and vq_nbest_sign: indices and distances of the N nearest codewords, nearest first; slots
   that no codeword has reached keep what they held.
   */
  method VqNbest(x: seq<int>, codebook: seq<int>, entries: nat, E: seq<int>, sign: bool, nbest: array<nat>, bestDist: array<int>)
    requires Fits(x, codebook, entries, E) && bestDist.Length == nbest.Length > 0
    modifies nbest, bestDist
    ensures var N := bestDist.Length;
      Zip(bestDist, nbest, Least(entries, N)) == Nearest(Candidates(x, codebook, entries, E, sign, entries), N)
  {
    hide Kept, Nearest, Placed, Candidate, Fits;
    var N := bestDist.Length;
    ghost var ds := Candidates(x, codebook, entries, E, sign, entries);
    var used := 0;
    NothingYet(N);
    for i := 0 to entries
      invariant Least(used, N) == Least(i, N) && (i < N ==> used == i) && (i >= N ==> used >= N)
      invariant Zip(bestDist, nbest, Least(i, N)) == Nearest(ds[..i], N)
    {
      var d, index := Measure(x, codebook, entries, E, sign, i);
      assert ds[i] == Found(d, index);
      NextNearest(ds, i, N);
      ghost var l := Zip(bestDist, nbest, Least(i, N));
      KeptCases(l, ds[i], N);
      if i < N || d < bestDist[N - 1] {
        assert Zip(bestDist, nbest, Least(used, N - 1)) == l[..Least(used, N - 1)];
        Put(bestDist, nbest, used, d, index);
        used := used + 1;
      }
    }
    assert ds[..entries] == ds;
  }

  lemma NothingYet(N: nat)
    requires N > 0
    ensures Nearest([], N) == []
  {}

  lemma KeptCases(l: seq<Found>, e: Found, N: nat)
    requires |l| <= N && N > 0
    ensures |l| < N ==> Kept(l, e, N) == Placed(l[..|l|], e)
    ensures |l| == N && e.dist < l[N - 1].dist ==> Kept(l, e, N) == Placed(l[..N - 1], e)
    ensures |l| == N && e.dist >= l[N - 1].dist ==> Kept(l, e, N) == l
  {
    assert l[..|l|] == l;
  }
}
