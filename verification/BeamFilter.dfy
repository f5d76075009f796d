/** What is left of the target after a path of codewords: cb_search.c, lines 90-95 and 423-442. */
module BeamFilter {
  import opened Arithmetic
  import opened BeamSearch

  /** What sample m of a codeword takes out of the target lag places behind it. */
  function Contribution(c: Codec, index: nat, m: nat, lag: nat): int
    requires WellFormed(c) && index < Limit(c) && m < c.sub && lag < |c.response|
  {
    (Sample(c, index, m) * c.response[lag] + 4096) / 8192
  }

  /** What the first m samples of a codeword take out of the target lag places behind its start. */
  function CodewordAt(c: Codec, index: nat, m: nat, lag: nat): int
    requires WellFormed(c) && index < Limit(c) && m <= c.sub <= lag < |c.response|
  {
    if m == 0 then 0 else CodewordAt(c, index, m - 1, lag) + Contribution(c, index, m - 1, lag - (m - 1))
  }

  lemma Places(c: Codec, s: nat, n: nat, p: nat)
    requires s < n && n * c.sub <= p
    ensures s * c.sub + c.sub <= p
  {
    MulNat(s + 1, c.sub, n, c.sub);
    assert (s + 1) * c.sub == s * c.sub + c.sub;
  }

  /** What a path of codewords, filtered by the response, takes out of the target at place p behind it. */
  function FilteredAt(c: Codec, path: seq<nat>, n: nat, p: nat): int
    requires WellFormed(c) && InRange(c, path) && n <= |path| && n * c.sub <= p < |c.response|
  {
    if n == 0 then 0
    else
      Places(c, n - 1, n, p);
      FilteredAt(c, path, n - 1, p) + CodewordAt(c, path[n - 1], c.sub, p - (n - 1) * c.sub)
  }

  lemma WrapOnce(a: int, b: int)
    ensures Wrap16(Wrap16(a) - b) == Wrap16(a - b)
  {
    var q := a / 0x1_0000;
    assert Wrap16(a) == a - 0x1_0000 * q || Wrap16(a) == a - 0x1_0000 * (q + 1);
    SameResidue(a - b, q);
    SameResidue(a - b, q + 1);
  }

  lemma SameResidue(x: int, q: int)
    ensures Wrap16(x - 0x1_0000 * q) == Wrap16(x)
  {
    var k, r := x / 0x1_0000, x % 0x1_0000;
    assert x - 0x1_0000 * q == 0x1_0000 * (k - q) + r;
    Residue(k - q, r);
    Residue(k, r);
  }

  lemma Residue(k: int, r: int)
    requires 0 <= r < 0x1_0000
    ensures (0x1_0000 * k + r) % 0x1_0000 == r
  {}

  lemma SampleOut(c: Codec, t: seq<int>, index: nat, m: nat, n: nat)
    requires WellFormed(c) && index < Limit(c) && m < c.sub && |t| + c.sub <= |c.response| && n < |t|
    ensures UpdateTail(c, t, index, m + 1)[n] == Wrap16(UpdateTail(c, t, index, m)[n] - Contribution(c, index, m, c.sub + n - m))
  {
    hide WellFormed, Sample, Limit, Wrap16, TargetUpdate;
    var r, g := c.response[c.sub - m..], Sample(c, index, m);
    assert r[n] == c.response[c.sub + n - m];
    assert UpdateTail(c, t, index, m + 1) == TargetUpdate(UpdateTail(c, t, index, m), g, r);
  }

  /** The samples of one codeword, taken out one after the other, from a tail that starts behind it. */
  lemma {:induction false} TailLess(c: Codec, t: seq<int>, index: nat, m: nat, n: nat)
    requires WellFormed(c) && index < Limit(c) && 0 < m <= c.sub && |t| + c.sub <= |c.response| && n < |t|
    ensures UpdateTail(c, t, index, m)[n] == Wrap16(t[n] - CodewordAt(c, index, m, c.sub + n))
  {
    hide WellFormed, Wrap16, Contribution, UpdateTail;
    SampleOut(c, t, index, m - 1, n);
    FirstSample(c, t, index, c.sub + n);
    if m > 1 {
      TailLess(c, t, index, m - 1, n);
      WrapOnce(t[n] - CodewordAt(c, index, m - 1, c.sub + n), Contribution(c, index, m - 1, c.sub + n - (m - 1)));
    }
  }

  lemma FirstSample(c: Codec, t: seq<int>, index: nat, lag: nat)
    requires WellFormed(c) && index < Limit(c) && |t| + c.sub <= |c.response| && c.sub <= lag < |c.response|
    ensures UpdateTail(c, t, index, 0) == t && CodewordAt(c, index, 0, lag) == 0
  {}

  lemma Offsets(sub: nat, i: nat, p: nat)
    requires (i + 1) * sub <= p
    ensures i * sub <= p && p - i * sub == sub + (p - (i + 1) * sub)
  {
    assert (i + 1) * sub == i * sub + sub;
  }

  lemma InsideTarget(c: Codec, i: nat, p: nat)
    requires i < c.nb && (i + 1) * c.sub <= p < c.nb * c.sub
    ensures p - (i + 1) * c.sub < (c.nb - i - 1) * c.sub
  {
    assert (c.nb - i - 1) * c.sub == c.nb * c.sub - (i + 1) * c.sub;
  }

  /** One more codeword on a path. */
  lemma TailStep(c: Codec, target: seq<int>, path: seq<nat>, p: nat)
    requires WellFormed(c) && InRange(c, path) && 0 < |path| && |target| == c.nb * c.sub
    requires |path| * c.sub <= p < |target|
    ensures var i, rest := |path| - 1, path[..|path| - 1];
      && i * c.sub + c.sub <= p && p - i * c.sub < |Tail(c, target, rest)| && p - |path| * c.sub < |Tail(c, target, path)|
      && Tail(c, target, path)[p - |path| * c.sub]
         == Wrap16(Tail(c, target, rest)[p - i * c.sub] - CodewordAt(c, path[i], c.sub, p - i * c.sub))
  {
    hide UpdateTail, Wrap16, CodewordAt;
    var i, index, k := |path| - 1, path[|path| - 1], p - |path| * c.sub;
    Offsets(c.sub, i, p);
    InsideTarget(c, i, p);
    TailRoom(c, i);
    Places(c, i, i + 1, p);
    var before := Tail(c, target, path[..i]);
    assert before[c.sub..][k] == before[p - i * c.sub];
    assert Tail(c, target, path) == UpdateTail(c, before[c.sub..], index, c.sub);
    TailLess(c, before[c.sub..], index, c.sub, k);
  }

  /**
   Main result: what is left of the target on a path is the target less the codewords of the path filtered
   by the response, each sample at its true distance, on 16 bits.
   */
  lemma {:induction false} TailIsResidual(c: Codec, target: seq<int>, path: seq<nat>, p: nat)
    requires WellFormed(c) && InRange(c, path) && 0 < |path| && |target| == c.nb * c.sub
    requires |path| * c.sub <= p < |target|
    ensures p - |path| * c.sub < |Tail(c, target, path)|
    ensures Tail(c, target, path)[p - |path| * c.sub] == Wrap16(target[p] - FilteredAt(c, path, |path|, p))
    decreases |path|
  {
    hide UpdateTail, Wrap16, CodewordAt;
    TailStep(c, target, path, p);
    var i, rest := |path| - 1, path[..|path| - 1];
    SamePath(c, rest, path, i, p);
    if i > 0 {
      TailIsResidual(c, target, rest, p);
      WrapOnce(target[p] - FilteredAt(c, rest, i, p), CodewordAt(c, path[i], c.sub, p - i * c.sub));
    }
  }

  lemma {:induction false} SamePath(c: Codec, a: seq<nat>, b: seq<nat>, n: nat, p: nat)
    requires WellFormed(c) && InRange(c, a) && InRange(c, b) && n <= |a| <= |b| && a == b[..|a|]
    requires n * c.sub <= p < |c.response|
    ensures FilteredAt(c, a, n, p) == FilteredAt(c, b, n, p)
  {
    if n > 0 {
      Places(c, n - 1, n, p);
      SamePath(c, a, b, n - 1, p);
      hide WellFormed, CodewordAt;
    }
  }
}
