/** The loops of the beam search over its buffers: cb_search.c, lines 90-95 and 345-469. */
module BeamLoops {
  import opened Arithmetic
  import opened NBestList
  import opened BeamSearch

  /** Row j of a two-dimensional buffer from column `from` on. */
  function Row<T>(a: array2<T>, j: nat, from: nat): (s: seq<T>)
    requires j < a.Length0 && from <= a.Length1
    reads a
    ensures |s| == a.Length1 - from
    ensures forall m :: 0 <= m < |s| ==> s[m] == a[j, from + m]
  {
    seq(a.Length1 - from, m requires 0 <= m < a.Length1 - from && j < a.Length0 && from <= a.Length1 reads a => a[j, from + m])
  }

  /** Only row j may have changed. */
  twostate predicate OnlyRow<T>(a: array2<T>, j: nat)
    reads a
  {
    forall k, m :: 0 <= k < a.Length0 && 0 <= m < a.Length1 && k != j ==> a[k, m] == old(a[k, m])
  }

  lemma RowFrom<T>(a: array2<T>, j: nat, from: nat)
    requires j < a.Length0 && from <= a.Length1
    ensures Row(a, j, from) == Row(a, j, 0)[from..]
  {}

  method HalfEnergy(x: seq<int>) returns (tener: int)
    ensures tener == Tener(x)
  {
    tener := 0;
    for m := 0 to |x|
      invariant tener == Energy(x[..m])
    {
      assert x[..m + 1][..m] == x[..m];
      tener := Add32(tener, Wrap32(x[m] * x[m]));
    }
    assert x[..|x|] == x;
    tener := tener / 2;
  }

  lemma InsertOneMore(l: seq<Entry>, a: seq<Entry>, e: Entry)
    ensures InsertAll(l, a + [e]) == Insert(InsertAll(l, a), e)
  {
    assert (a + [e])[..|a|] == a;
  }

  /** One beam offers its N candidates. */
  method OfferBeam(c: Codec, x: seq<int>, total: int, j: nat, ndist: array<int>, nind: array<nat>, ntarget: array<nat>,
                   ghost before: seq<Entry>)
    requires WellFormed(c) && nind != ntarget
    requires ndist.Length == nind.Length == ntarget.Length == c.N
    requires Zip(ndist, nind, ntarget) == InsertAll(Padding(c.N), before) && Sorted(Zip(ndist, nind, ntarget))
    modifies ndist, nind, ntarget
    ensures Zip(ndist, nind, ntarget) == InsertAll(Padding(c.N), before + OffersOf(c, x, total, j, c.N))
    ensures Sorted(Zip(ndist, nind, ntarget))
  {
    hide Insert, InsertAll, Zip, Sorted, Tener, Add32;
    var tener := HalfEnergy(x);
    var candidates := c.nearest(x);
    assert before + OffersOf(c, x, total, j, 0) == before;
    for k := 0 to c.N
      invariant Zip(ndist, nind, ntarget) == InsertAll(Padding(c.N), before + OffersOf(c, x, total, j, k))
      invariant Sorted(Zip(ndist, nind, ntarget))
    {
      var err := Add32(Add32(total, c.distance(x, candidates[k])), tener);
      var index := candidates[k];
      Offer(ndist, nind, ntarget, err, index, j);
      ghost var a, e := before + OffersOf(c, x, total, j, k), Entry(err, index, j);
      InsertOneMore(Padding(c.N), a, e);
      assert before + OffersOf(c, x, total, j, k + 1) == a + [e];
    }
  }

  /** The buffers have the sizes the source allocates. */
  ghost predicate Sized(c: Codec, target: seq<int>, t: array2<int>, ind: array2<nat>) {
    && |target| == c.nb * c.sub
    && t.Length0 == ind.Length0 == c.N && t.Length1 == |target| && ind.Length1 == c.nb
  }

  /** One row of the targets and one of the histories belong to a path of i indices. */
  ghost predicate RowHolds(c: Codec, target: seq<int>, path: seq<nat>, i: nat, t: seq<int>, ind: seq<nat>)
    requires WellFormed(c) && |target| == c.nb * c.sub
  {
    && |path| == i && InRange(c, path)
    && i * c.sub <= |t| && i <= |ind|
    && t[i * c.sub..] == Tail(c, target, path)
    && ind[..i] == path
  }

  /** What the buffers hold before sub-vector i. */
  ghost predicate Holds(c: Codec, target: seq<int>, b: Beams, i: nat, t: array2<int>, ind: array2<nat>)
    requires WellFormed(c) && Shaped(c, b, i) && Sized(c, target, t, ind)
    reads t, ind
  {
    forall j :: 0 <= j < c.N ==> RowHolds(c, target, b.paths[j], i, Row(t, j, 0), Row(ind, j, 0))
  }

  lemma NextIsSlice(c: Codec, target: seq<int>, b: Beams, i: nat, t: array2<int>, ind: array2<nat>, j: nat)
    requires WellFormed(c) && Shaped(c, b, i) && Sized(c, target, t, ind) && i < c.nb && j < c.N
    requires Holds(c, target, b, i, t, ind)
    ensures i * c.sub + c.sub <= t.Length1
    ensures Row(t, j, i * c.sub)[..c.sub] == Next(c, target, b.paths[j])
  {
    hide Tail;
    TailRoom(c, i);
    assert i * c.sub + (c.nb - i) * c.sub == c.nb * c.sub;
    assert RowHolds(c, target, b.paths[j], i, Row(t, j, 0), Row(ind, j, 0));
  }

  /** The target sub-vector of beam j. */
  method SubVector(t: array2<int>, j: nat, from: nat, len: nat) returns (x: seq<int>)
    requires j < t.Length0 && from + len <= t.Length1
    ensures x == Row(t, j, from)[..len]
  {
    x := [];
    for m := 0 to len
      invariant x == Row(t, j, from)[..m]
    {
      x := x + [t[j, from + m]];
    }
  }

  lemma PaddingSorted(n: nat)
    ensures Sorted(Padding(n)) && InsertAll(Padding(n), []) == Padding(n)
  {}

  /** Erase the n-best list. */
  method Erase(n: nat) returns (ndist: array<int>, nind: array<nat>, ntarget: array<nat>)
    ensures fresh(ndist) && fresh(nind) && fresh(ntarget) && nind != ntarget
    ensures ndist.Length == nind.Length == ntarget.Length == n
    ensures Zip(ndist, nind, ntarget) == Padding(n)
  {
    ndist, nind, ntarget := new int[n](_ => VERY_LARGE32), new nat[n](_ => 0), new nat[n](_ => 0);
  }

  /** All beams offer their candidates; at the first sub-vector only the first one does. */
  method OfferAll(c: Codec, ghost target: seq<int>, ghost b: Beams, i: nat, t: array2<int>, oind: array2<nat>, odist: array<int>)
    returns (ndist: array<int>, nind: array<nat>, ntarget: array<nat>)
    requires WellFormed(c) && Shaped(c, b, i) && i < c.nb && Sized(c, target, t, oind)
    requires odist.Length == c.N && odist[..] == b.dists
    requires Holds(c, target, b, i, t, oind)
    ensures fresh(ndist) && fresh(nind) && fresh(ntarget)
    ensures ndist.Length == nind.Length == ntarget.Length == c.N
    ensures Zip(ndist, nind, ntarget) == Kept(c, target, b, i)
  {
    hide InsertAll, Sorted, Tail, Next, Zip, Holds, WellFormed, Shaped, OffersOf;
    ndist, nind, ntarget := Erase(c.N);
    PaddingSorted(c.N);
    ghost var offers := [];
    var j := 0;
    assert c.N >= 2 by { Inhabited(c); }
    while j < (if i == 0 then 1 else c.N)
      invariant 0 <= j <= Asked(c, i)
      invariant offers == Offers(c, target, b, i, j)
      invariant Zip(ndist, nind, ntarget) == InsertAll(Padding(c.N), offers) && Sorted(Zip(ndist, nind, ntarget))
      modifies ndist, nind, ntarget
    {
      NextIsSlice(c, target, b, i, t, oind, j);
      var x := SubVector(t, j, i * c.sub, c.sub);
      assert odist[j] == b.dists[j];
      OfferBeam(c, x, odist[j], j, ndist, nind, ntarget, offers);
      offers := offers + OffersOf(c, x, b.dists[j], j, c.N);
      OffersOneMore(c, target, b, i, j);
      j := j + 1;
    }
  }

  lemma OffersOneMore(c: Codec, target: seq<int>, b: Beams, i: nat, j: nat)
    requires WellFormed(c) && Shaped(c, b, i) && i < c.nb && j < c.N && |target| == c.nb * c.sub
    ensures Offers(c, target, b, i, j + 1)
         == Offers(c, target, b, i, j) + OffersOf(c, Next(c, target, b.paths[j]), b.dists[j], j, c.N)
  {}

  /** target_update on the rest of one row. */
  method TargetUpdateRow(t: array2<int>, j: nat, from: nat, g: int, r: seq<int>)
    requires j < t.Length0 && from <= t.Length1 && t.Length1 - from <= |r|
    modifies t
    ensures Row(t, j, from) == TargetUpdate(old(Row(t, j, from)), g, r)
    ensures OnlyRow(t, j)
  {
    for n := 0 to t.Length1 - from
      invariant forall m :: from <= m < from + n ==> t[j, m] == Wrap16(old(t[j, m]) - (g * r[m - from] + 4096) / 8192)
      invariant forall m :: from + n <= m < t.Length1 ==> t[j, m] == old(t[j, m])
      invariant OnlyRow(t, j)
    {
      t[j, from + n] := Wrap16(t[j, from + n] - (g * r[n] + 4096) / 8192);
    }
  }

  /** Copy the rest of one row. */
  method CopyRow(ot: array2<int>, source: nat, nt: array2<int>, j: nat, from: nat)
    requires source < ot.Length0 && j < nt.Length0 && ot.Length1 == nt.Length1 && from <= ot.Length1 && ot != nt
    modifies nt
    ensures Row(nt, j, from) == Row(ot, source, from)
    ensures OnlyRow(nt, j)
  {
    for m := from to ot.Length1
      invariant forall k :: from <= k < m ==> nt[j, k] == ot[source, k]
      invariant OnlyRow(nt, j)
    {
      nt[j, m] := ot[source, m];
    }
  }

  /** Take a codeword, sample by sample, out of the rest of one row. */
  method UpdateRow(c: Codec, nt: array2<int>, j: nat, from: nat, index: nat)
    requires WellFormed(c) && index < Limit(c) && j < nt.Length0 && from <= nt.Length1
    requires nt.Length1 - from + c.sub <= |c.response|
    modifies nt
    ensures Row(nt, j, from) == UpdateTail(c, old(Row(nt, j, from)), index, c.sub)
    ensures OnlyRow(nt, j)
  {
    hide WellFormed, TargetUpdate, Sample, Limit;
    for m := 0 to c.sub
      invariant Row(nt, j, from) == UpdateTail(c, old(Row(nt, j, from)), index, m)
      invariant OnlyRow(nt, j)
    {
      var q := c.sub - m;
      var g := SampleOf(c, index, m);
      TargetUpdateRow(nt, j, from, g, c.response[q..]);
    }
  }

  method SampleOf(c: Codec, index: nat, m: nat) returns (g: int)
    requires WellFormed(c) && index < Limit(c) && m < c.sub
    ensures g == Sample(c, index, m)
  {
    var rind, sign := index, 1;
    if rind >= c.size {
      sign := -1;
      rind := rind - c.size;
    }
    IndexInside(rind, c.size, m, c.sub);
    g := sign * c.codebook[rind * c.sub + m];
  }

  /** The history of the beam that survives, and its new last index. */
  method UpdateHistory(oind: array2<nat>, source: nat, nind: array2<nat>, j: nat, i: nat, index: nat)
    requires source < oind.Length0 && j < nind.Length0 && oind.Length1 == nind.Length1 && i < nind.Length1 && oind != nind
    modifies nind
    ensures Row(nind, j, 0)[..i + 1] == Row(oind, source, 0)[..i] + [index]
    ensures OnlyRow(nind, j)
  {
    for q := 0 to nind.Length1
      invariant forall k :: 0 <= k < q ==> nind[j, k] == oind[source, k]
      invariant OnlyRow(nind, j)
    {
      nind[j, q] := oind[source, q];
    }
    nind[j, i] := index;
    var l, r := Row(nind, j, 0)[..i + 1], Row(oind, source, 0)[..i] + [index];
    assert forall k :: 0 <= k <= i ==> l[k] == r[k];
  }

  /** The target of one beam: the rest of its source's row, less the codeword. */
  method NextTarget(c: Codec, ot: array2<int>, source: nat, nt: array2<int>, j: nat, next: nat, index: nat)
    requires WellFormed(c) && index < Limit(c) && source < ot.Length0 && j < nt.Length0 && ot != nt
    requires ot.Length1 == nt.Length1 && next <= nt.Length1 && nt.Length1 - next + c.sub <= |c.response|
    modifies nt
    ensures Row(nt, j, 0)[next..] == UpdateTail(c, Row(ot, source, 0)[next..], index, c.sub)
    ensures OnlyRow(nt, j)
  {
    hide WellFormed, UpdateTail, Limit;
    RowFrom(ot, source, next);
    CopyRow(ot, source, nt, j, next);
    UpdateRow(c, nt, j, next, index);
    RowFrom(nt, j, next);
  }

  /** Beam j of the next step takes over what the beam it came from holds. */
  method NextBeam(c: Codec, ghost target: seq<int>, ghost path: seq<nat>, i: nat, ot: array2<int>, oind: array2<nat>,
                  nt: array2<int>, nind: array2<nat>, j: nat, source: nat, index: nat)
    requires WellFormed(c) && Sized(c, target, ot, oind) && Sized(c, target, nt, nind) && ot != nt && oind != nind
    requires i < c.nb && j < c.N && source < c.N && index < Limit(c)
    requires RowHolds(c, target, path, i, Row(ot, source, 0), Row(oind, source, 0))
    modifies nt, nind
    ensures RowHolds(c, target, path + [index], i + 1, Row(nt, j, 0), Row(nind, j, 0))
    ensures forall k :: 0 <= k < c.N && k != j ==> Row(nt, k, 0) == old(Row(nt, k, 0)) && Row(nind, k, 0) == old(Row(nind, k, 0))
  {
    hide WellFormed, RowHolds, Tail, UpdateTail, InRange, Limit;
    RoomAfter(c, i);
    var a := i * c.sub;
    var next := a + c.sub;
    HeldRow(c, target, path, i, Row(ot, source, 0), Row(oind, source, 0), a);
    TailStep(c, target, path, Row(ot, source, 0), index, a);
    NextTarget(c, ot, source, nt, j, next, index);
    UpdateHistory(oind, source, nind, j, i, index);
    HoldRow(c, target, path + [index], i + 1, Row(nt, j, 0), Row(nind, j, 0), next);
  }

  lemma HeldRow(c: Codec, target: seq<int>, path: seq<nat>, i: nat, t: seq<int>, ind: seq<nat>, a: nat)
    requires WellFormed(c) && |target| == c.nb * c.sub && RowHolds(c, target, path, i, t, ind) && a == i * c.sub
    ensures |path| == i && InRange(c, path) && i <= |ind| && ind[..i] == path
    ensures a <= |t| && t[a..] == Tail(c, target, path)
  {
    hide Tail, InRange, WellFormed;
  }

  lemma HoldRow(c: Codec, target: seq<int>, path: seq<nat>, i: nat, t: seq<int>, ind: seq<nat>, next: nat)
    requires WellFormed(c) && |target| == c.nb * c.sub && next == i * c.sub
    requires |path| == i && InRange(c, path) && i <= |ind| && ind[..i] == path
    requires next <= |t| && t[next..] == Tail(c, target, path)
    ensures RowHolds(c, target, path, i, t, ind)
  {
    hide Tail, InRange;
  }

  lemma RoomAfter(c: Codec, i: nat)
    requires WellFormed(c) && i < c.nb
    ensures (i + 1) * c.sub == i * c.sub + c.sub <= c.nb * c.sub <= |c.response|
  {
    MulNat(i + 1, c.sub, c.nb, c.sub);
    assert (i + 1) * c.sub == i * c.sub + c.sub;
  }

  lemma DropTwice(s: seq<int>, a: nat, b: nat)
    requires a + b <= |s|
    ensures s[a..][b..] == s[a + b..]
  {}

  lemma RangeExtends(c: Codec, path: seq<nat>, index: nat)
    requires |path| < c.nb && InRange(c, path) && index < Limit(c)
    ensures InRange(c, path + [index])
  {}

  lemma TailExtends(c: Codec, target: seq<int>, path: seq<nat>, index: nat)
    requires WellFormed(c) && |target| == c.nb * c.sub && |path| < c.nb && index < Limit(c)
    requires InRange(c, path) && InRange(c, path + [index])
    ensures c.sub <= |Tail(c, target, path)| <= |c.response|
    ensures Tail(c, target, path + [index]) == UpdateTail(c, Tail(c, target, path)[c.sub..], index, c.sub)
  {
    hide UpdateTail, WellFormed, InRange;
    TailRoom(c, |path|);
    RoomAfter(c, |path|);
    assert (path + [index])[..|path|] == path;
  }

  /** `a` is where the row's rest starts before the step. */
  lemma TailStep(c: Codec, target: seq<int>, path: seq<nat>, row: seq<int>, index: nat, a: nat)
    requires WellFormed(c) && |target| == c.nb * c.sub && |path| < c.nb && index < Limit(c) && InRange(c, path)
    requires a + c.sub <= |row| <= |c.response| && row[a..] == Tail(c, target, path)
    ensures InRange(c, path + [index])
    ensures Tail(c, target, path + [index]) == UpdateTail(c, row[a + c.sub..], index, c.sub)
  {
    hide UpdateTail, Tail, WellFormed, InRange, Limit;
    RangeExtends(c, path, index);
    TailExtends(c, target, path, index);
    DropTwice(row, a, c.sub);
  }

  /** The first n rows hold the beams of a step. */
  ghost predicate HoldsUpTo(c: Codec, target: seq<int>, b: Beams, i: nat, t: array2<int>, ind: array2<nat>, n: nat)
    requires WellFormed(c) && Shaped(c, b, i) && Sized(c, target, t, ind) && n <= c.N
    reads t, ind
  {
    forall j :: 0 <= j < n ==> RowHolds(c, target, b.paths[j], i, Row(t, j, 0), Row(ind, j, 0))
  }

  /** The path of beam j after the step is that of its source and its new index. */
  lemma AdvancedPath(c: Codec, target: seq<int>, b: Beams, i: nat, j: nat)
    requires WellFormed(c) && Shaped(c, b, i) && i < c.nb && |target| == c.nb * c.sub && j < c.N
    ensures var e := Kept(c, target, b, i)[j];
      && e.source < c.N && e.index < Limit(c)
      && Advance(c, target, b, i).paths[j] == b.paths[e.source] + [e.index]
  {
    KeptSound(c, target, b, i, j);
  }

  /** All beams of the next step, from the n-best list. */
  method NextBeams(c: Codec, ghost target: seq<int>, ghost b: Beams, i: nat, ot: array2<int>, oind: array2<nat>,
                   nt: array2<int>, nind: array2<nat>, best: array<nat>, source: array<nat>, ghost dists: array<int>)
    requires WellFormed(c) && Shaped(c, b, i) && i < c.nb
    requires Sized(c, target, ot, oind) && Sized(c, target, nt, nind) && ot != nt && oind != nind
    requires dists.Length == best.Length == source.Length == c.N
    requires Zip(dists, best, source) == Kept(c, target, b, i)
    requires Holds(c, target, b, i, ot, oind)
    modifies nt, nind
    ensures Holds(c, target, Advance(c, target, b, i), i + 1, nt, nind)
  {
    ghost var r := Advance(c, target, b, i);
    ghost var l := Kept(c, target, b, i);
    hide WellFormed, Shaped, Advance, Kept, RowHolds;
    for j := 0 to c.N
      invariant HoldsUpTo(c, target, r, i + 1, nt, nind, j)
      invariant Zip(dists, best, source) == l
      modifies nt, nind
    {
      AdvancedPath(c, target, b, i, j);
      assert Entry(dists[j], best[j], source[j]) == l[j];
      assert RowHolds(c, target, b.paths[source[j]], i, Row(ot, source[j], 0), Row(oind, source[j], 0));
      NextBeam(c, target, b.paths[source[j]], i, ot, oind, nt, nind, j, source[j], best[j]);
    }
  }

  /** Copy the new histories over the old ones. */
  method CopyHistories(nind: array2<nat>, oind: array2<nat>)
    requires nind != oind && nind.Length0 == oind.Length0 && nind.Length1 == oind.Length1
    modifies oind
    ensures forall j, m :: 0 <= j < oind.Length0 && 0 <= m < oind.Length1 ==> oind[j, m] == nind[j, m]
  {
    for j := 0 to oind.Length0
      invariant forall k, m :: 0 <= k < j && 0 <= m < oind.Length1 ==> oind[k, m] == nind[k, m]
    {
      for m := 0 to oind.Length1
        invariant forall k, n :: 0 <= k < j && 0 <= n < oind.Length1 ==> oind[k, n] == nind[k, n]
        invariant forall n :: 0 <= n < m ==> oind[j, n] == nind[j, n]
      {
        oind[j, m] := nind[j, m];
      }
    }
  }

  lemma CopyHolds(c: Codec, target: seq<int>, b: Beams, i: nat, t: array2<int>, nind: array2<nat>, oind: array2<nat>)
    requires WellFormed(c) && Shaped(c, b, i) && Sized(c, target, t, nind) && Sized(c, target, t, oind)
    requires Holds(c, target, b, i, t, nind)
    requires forall j, m :: 0 <= j < c.N && 0 <= m < c.nb ==> oind[j, m] == nind[j, m]
    ensures Holds(c, target, b, i, t, oind)
  {
    forall j | 0 <= j < c.N
      ensures RowHolds(c, target, b.paths[j], i, Row(t, j, 0), Row(oind, j, 0))
    {
      assert RowHolds(c, target, b.paths[j], i, Row(t, j, 0), Row(nind, j, 0));
      assert Row(oind, j, 0) == Row(nind, j, 0);
    }
  }

  lemma AdvancedDists(c: Codec, target: seq<int>, b: Beams, i: nat, ndist: array<int>, nind: array<nat>, ntarget: array<nat>)
    requires WellFormed(c) && Shaped(c, b, i) && i < c.nb && |target| == c.nb * c.sub
    requires ndist.Length == nind.Length == ntarget.Length == c.N
    requires Zip(ndist, nind, ntarget) == Kept(c, target, b, i)
    ensures ndist[..] == Advance(c, target, b, i).dists
  {
    hide WellFormed, Kept;
    var l := Zip(ndist, nind, ntarget);
    assert forall j :: 0 <= j < c.N ==> ndist[..][j] == l[j].dist;
  }

  method CopyDistances(ndist: array<int>, odist: array<int>)
    requires ndist.Length == odist.Length && ndist != odist
    modifies odist
    ensures odist[..] == ndist[..]
  {
    for j := 0 to odist.Length
      invariant odist[..j] == ndist[..j]
    {
      odist[j] := ndist[j];
    }
  }

  /** One sub-vector: the new targets are in nt, the new histories in both index buffers. */
  method SearchSubVector(c: Codec, ghost target: seq<int>, ghost b: Beams, i: nat, ot: array2<int>, oind: array2<nat>,
                         odist: array<int>, nt: array2<int>, nind: array2<nat>)
    requires WellFormed(c) && Shaped(c, b, i) && i < c.nb
    requires Sized(c, target, ot, oind) && Sized(c, target, nt, nind) && ot != nt && oind != nind
    requires odist.Length == c.N && odist[..] == b.dists
    requires Holds(c, target, b, i, ot, oind)
    modifies odist, oind, nt, nind
    ensures Holds(c, target, Advance(c, target, b, i), i + 1, nt, nind)
    ensures Holds(c, target, Advance(c, target, b, i), i + 1, nt, oind)
    ensures odist[..] == Advance(c, target, b, i).dists
  {
    hide Advance, Kept, WellFormed, Shaped, Holds, Zip;
    ghost var r := Advance(c, target, b, i);
    var ndist, bestNind, bestNtarget := OfferAll(c, target, b, i, ot, oind, odist);
    AdvancedDists(c, target, b, i, ndist, bestNind, bestNtarget);
    NextBeams(c, target, b, i, ot, oind, nt, nind, bestNind, bestNtarget, ndist);
    CopyHistories(nind, oind);
    CopyHolds(c, target, r, i + 1, nt, nind, oind);
    CopyDistances(ndist, odist);
  }

  lemma StartHolds(c: Codec, target: seq<int>, t: array2<int>, ind: array2<nat>)
    requires WellFormed(c) && Sized(c, target, t, ind)
    requires forall j, m :: 0 <= j < c.N && 0 <= m < |target| ==> t[j, m] == target[m]
    ensures Holds(c, target, Run(c, target, 0), 0, t, ind)
  {
    forall j | 0 <= j < c.N
      ensures RowHolds(c, target, Run(c, target, 0).paths[j], 0, Row(t, j, 0), Row(ind, j, 0))
    {
      assert Row(t, j, 0) == target;
    }
  }

  lemma RunStep(c: Codec, target: seq<int>, i: nat)
    requires WellFormed(c) && i < c.nb && |target| == c.nb * c.sub
    ensures Run(c, target, i + 1) == Advance(c, target, Run(c, target, i), i)
  {}

  /** Every old target starts as a copy of the target, every distance as zero. */
  method StartBuffers(c: Codec, target: array<int>)
    returns (ot: array2<int>, nt: array2<int>, oind: array2<nat>, nind: array2<nat>, odist: array<int>)
    requires WellFormed(c) && target.Length == c.nb * c.sub
    ensures fresh(ot) && fresh(nt) && fresh(oind) && fresh(nind) && fresh(odist) && ot != nt && oind != nind
    ensures Sized(c, target[..], ot, oind) && Sized(c, target[..], nt, nind)
    ensures odist[..] == Run(c, target[..], 0).dists
    ensures Holds(c, target[..], Run(c, target[..], 0), 0, ot, oind)
    ensures Holds(c, target[..], Run(c, target[..], 0), 0, ot, nind)
  {
    ot := new int[c.N, target.Length]((j, m) requires 0 <= m < target.Length reads target => target[m]);
    nt := new int[c.N, target.Length]((j, m) => 0);
    oind, nind := new nat[c.N, c.nb]((j, m) => 0), new nat[c.N, c.nb]((j, m) => 0);
    odist := new int[c.N](_ => 0);
    StartHolds(c, target[..], ot, oind);
    StartHolds(c, target[..], ot, nind);
  }

  /**
   Main result: whatever the search is given, the indices it saves are the first history of the
   beams kept, with the buffers swapped and copied as the source does it.
   */
  method SplitCbSearchShapeSign(c: Codec, target: array<int>) returns (ind: seq<nat>)
    requires WellFormed(c) && target.Length == c.nb * c.sub
    ensures ind == Run(c, target[..], c.nb).paths[0]
  {
    ghost var s := target[..];
    hide Holds, WellFormed, Shaped, Run, Advance;
    assert c.N >= 2 by { Inhabited(c); }
    var ot, nt, oind, nind, odist := StartBuffers(c, target);
    for i := 0 to c.nb
      invariant Sized(c, s, ot, oind) && Sized(c, s, nt, nind) && ot != nt
      invariant fresh(ot) && fresh(nt)
      invariant Holds(c, s, Run(c, s, i), i, ot, oind) && Holds(c, s, Run(c, s, i), i, ot, nind)
      invariant odist[..] == Run(c, s, i).dists
    {
      SearchSubVector(c, s, Run(c, s, i), i, ot, oind, odist, nt, nind);
      RunStep(c, s, i);
      ot, nt := nt, ot;
    }
    ind := SaveIndices(c, s, Run(c, s, c.nb), ot, nind);
  }

  method SaveIndices(c: Codec, ghost target: seq<int>, ghost b: Beams, ghost t: array2<int>, nind: array2<nat>) returns (ind: seq<nat>)
    requires WellFormed(c) && Shaped(c, b, c.nb) && Sized(c, target, t, nind)
    requires Holds(c, target, b, c.nb, t, nind)
    ensures ind == b.paths[0]
  {
    assert RowHolds(c, target, b.paths[0], c.nb, Row(t, 0, 0), Row(nind, 0, 0));
    ind := [];
    for i := 0 to c.nb
      invariant ind == Row(nind, 0, 0)[..i]
    {
      ind := ind + [nind[0, i]];
    }
  }
}
