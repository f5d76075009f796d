/** The list of the N best candidates that the beam search keeps: cb_search.c, lines 389-411. */
module NBestList {
  const VERY_LARGE32 := 0x7fff_ffff

  datatype Entry = Entry(dist: int, index: nat, source: nat)

  const PADDING := Entry(VERY_LARGE32, 0, 0)

  function Padding(n: nat): (l: seq<Entry>)
    ensures |l| == n && forall i :: 0 <= i < n ==> l[i] == PADDING
  {
    seq(n, _ => PADDING)
  }

  ghost predicate Sorted(l: seq<Entry>) {
    forall i, j :: 0 <= i < j < |l| ==> l[i].dist <= l[j].dist
  }

  /** Put e before the first strictly worse entry and drop the last one. */
  function Insert(l: seq<Entry>, e: Entry): (r: seq<Entry>)
    ensures |r| == |l|
  {
    if |l| == 0 then []
    else if e.dist < l[0].dist then [e] + l[..|l| - 1]
    else [l[0]] + Insert(l[1..], e)
  }

  function InsertAll(l: seq<Entry>, offers: seq<Entry>): (r: seq<Entry>)
    ensures |r| == |l|
  {
    if |offers| == 0 then l else Insert(InsertAll(l, offers[..|offers| - 1]), offers[|offers| - 1])
  }

  /** Where an insertion lands. */
  lemma {:induction false} InsertAt(l: seq<Entry>, e: Entry, m: nat)
    requires m <= |l|
    requires forall i :: 0 <= i < m ==> l[i].dist <= e.dist
    requires m < |l| ==> e.dist < l[m].dist
    ensures Insert(l, e) == if m < |l| then l[..m] + [e] + l[m..|l| - 1] else l
  {
    if m > 0 {
      InsertAt(l[1..], e, m - 1);
      assert Insert(l, e) == [l[0]] + Insert(l[1..], e);
      hide Insert;
      if m < |l| { PutBehindFirst(l, e, m); }
    }
  }

  lemma PutBehindFirst(l: seq<Entry>, e: Entry, m: nat)
    requires 0 < m < |l|
    ensures [l[0]] + (l[1..][..m - 1] + [e] + l[1..][m - 1..|l| - 2]) == l[..m] + [e] + l[m..|l| - 1]
  {}

  lemma SortedCons(x: Entry, s: seq<Entry>)
    requires Sorted(s) && forall y :: y in s ==> x.dist <= y.dist
    ensures Sorted([x] + s)
  {
    var l := [x] + s;
    forall i, j | 0 <= i < j < |l|
      ensures l[i].dist <= l[j].dist
    {
      assert l[j] == s[j - 1] && s[j - 1] in s;
      if i > 0 { assert l[i] == s[i - 1]; }
    }
  }

  lemma HeadIsLeast(l: seq<Entry>, x: Entry)
    requires Sorted(l) && x in l
    ensures l[0].dist <= x.dist <= l[|l| - 1].dist
  {}

  /** The insertion keeps the list sorted and drops an entry no better than any that stays. */
  lemma {:induction false} InsertKeepsBest(l: seq<Entry>, e: Entry) returns (dropped: Entry)
    requires Sorted(l) && |l| > 0
    ensures Sorted(Insert(l, e))
    ensures multiset(Insert(l, e)) + multiset{dropped} == multiset(l) + multiset{e}
    ensures forall x :: x in Insert(l, e) ==> x.dist <= dropped.dist
  {
    var n := |l|;
    if e.dist < l[0].dist {
      dropped := l[n - 1];
      forall x | x in l
        ensures l[0].dist <= x.dist <= dropped.dist
      {
        HeadIsLeast(l, x);
      }
      SortedCons(e, l[..n - 1]);
      MultisetOfLast(l);
      MultisetOfFirst(e, l[..n - 1]);
    } else if n == 1 {
      dropped := e;
      assert Insert(l, e) == l;
    } else {
      dropped := InsertKeepsBest(l[1..], e);
      PutBehindHead(l, e, Insert(l[1..], e), dropped);
    }
  }

  lemma PutBehindHead(l: seq<Entry>, e: Entry, r: seq<Entry>, dropped: Entry)
    requires Sorted(l) && |l| > 1 && l[0].dist <= e.dist && r == Insert(l[1..], e)
    requires Sorted(r) && multiset(r) + multiset{dropped} == multiset(l[1..]) + multiset{e}
    requires forall x :: x in r ==> x.dist <= dropped.dist
    ensures Sorted([l[0]] + r)
    ensures multiset([l[0]] + r) + multiset{dropped} == multiset(l) + multiset{e}
    ensures forall x :: x in [l[0]] + r ==> x.dist <= dropped.dist
  {
    forall x | x in r
      ensures l[0].dist <= x.dist
    {
      InsertMembers(l[1..], e, x);
      if x in l[1..] { HeadIsLeast(l, x); }
    }
    SortedCons(l[0], r);
    MultisetOfFirst(l[0], r);
    MultisetOfFirst(l[0], l[1..]);
    AddToBoth(multiset{l[0]}, multiset(r), multiset{dropped}, multiset(l[1..]), multiset{e});
    assert l == [l[0]] + l[1..];
    assert r[0] in r && l[0].dist <= r[0].dist <= dropped.dist;
    hide Insert, Sorted;
  }

  lemma AddToBoth(x: multiset<Entry>, a: multiset<Entry>, b: multiset<Entry>, c: multiset<Entry>, d: multiset<Entry>)
    requires a + b == c + d
    ensures (x + a) + b == (x + c) + d
  {
    assert (x + a) + b == x + (a + b);
    assert (x + c) + d == x + (c + d);
  }

  lemma Exchange(i: multiset<Entry>, d: multiset<Entry>, l: multiset<Entry>, e: multiset<Entry>,
                 b: multiset<Entry>, p: multiset<Entry>, r: multiset<Entry>)
    requires i + d == l + e && l + b == p + r
    ensures i + (b + d) == p + (r + e)
  {
    assert i + (b + d) == (i + d) + b;
    assert (l + e) + b == (l + b) + e;
    assert p + (r + e) == (p + r) + e;
  }

  lemma MultisetOfFirst(x: Entry, s: seq<Entry>)
    ensures multiset([x] + s) == multiset{x} + multiset(s)
  {}

  lemma MultisetOfLast(s: seq<Entry>)
    requires |s| > 0
    ensures multiset(s) == multiset(s[..|s| - 1]) + multiset{s[|s| - 1]}
  {
    assert s == s[..|s| - 1] + [s[|s| - 1]];
  }

  /**
   Main result on the list: after any offers, starting from padding, it is sorted, and together with
   what was dropped it is the padding and the offers; nothing dropped is better than anything kept.
   */
  lemma {:induction false} KeepsSmallest(n: nat, offers: seq<Entry>) returns (dropped: seq<Entry>)
    requires n > 0
    ensures Sorted(InsertAll(Padding(n), offers))
    ensures multiset(InsertAll(Padding(n), offers)) + multiset(dropped) == multiset(Padding(n)) + multiset(offers)
    ensures forall x, y :: x in InsertAll(Padding(n), offers) && y in dropped ==> x.dist <= y.dist
    decreases |offers|
  {
    if |offers| == 0 {
      dropped := [];
    } else {
      var rest, e := offers[..|offers| - 1], offers[|offers| - 1];
      var before := KeepsSmallest(n, rest);
      var l := InsertAll(Padding(n), rest);
      var d := InsertKeepsBest(l, e);
      dropped := before + [d];
      MultisetOfLast(offers);
      MultisetOfLast(dropped);
      assert dropped[..|before|] == before;
      Exchange(multiset(Insert(l, e)), multiset{d}, multiset(l), multiset{e},
               multiset(before), multiset(Padding(n)), multiset(rest));
      hide Insert, InsertAll, Sorted;
      StillWorse(l, e, before, d);
    }
  }

  lemma StillWorse(l: seq<Entry>, e: Entry, before: seq<Entry>, d: Entry)
    requires Sorted(l) && |l| > 0
    requires forall x, y :: x in l && y in before ==> x.dist <= y.dist
    requires forall x :: x in Insert(l, e) ==> x.dist <= d.dist
    ensures forall x, y :: x in Insert(l, e) && y in before + [d] ==> x.dist <= y.dist
  {
    hide Insert, Sorted;
    forall x, y | x in Insert(l, e) && y in before + [d]
      ensures x.dist <= y.dist
    {
      if y in before {
        WorseThanBefore(l, e, x, y);
      } else {
        assert y == d;
      }
    }
  }

  lemma WorseThanBefore(l: seq<Entry>, e: Entry, x: Entry, y: Entry)
    requires Sorted(l) && |l| > 0 && x in Insert(l, e)
    requires forall z :: z in l ==> z.dist <= y.dist
    ensures x.dist <= y.dist
  {
    LastBounds(l, e);
    assert l[|l| - 1] in l;
  }

  lemma {:induction false} LastBounds(l: seq<Entry>, e: Entry)
    requires Sorted(l) && |l| > 0
    ensures forall x :: x in Insert(l, e) ==> x.dist <= l[|l| - 1].dist
  {
    if |l| > 1 && e.dist >= l[0].dist {
      LastBounds(l[1..], e);
    }
  }

  /** Entries below the padding were offered. */
  lemma {:induction false} KeptWasOffered(n: nat, offers: seq<Entry>, x: Entry)
    requires x in InsertAll(Padding(n), offers)
    ensures x == PADDING || x in offers
    decreases |offers|
  {
    if |offers| > 0 {
      var rest, e := offers[..|offers| - 1], offers[|offers| - 1];
      InsertMembers(InsertAll(Padding(n), rest), e, x);
      if x != e { KeptWasOffered(n, rest, x); }
    }
  }

  lemma {:induction false} InsertMembers(l: seq<Entry>, e: Entry, x: Entry)
    requires x in Insert(l, e)
    ensures x == e || x in l
  {
    if |l| > 0 && e.dist >= l[0].dist {
      if x != l[0] { InsertMembers(l[1..], e, x); }
    }
  }

  // ---- when padding remains ----

  /** The number of entries better than padding. */
  function Below(l: seq<Entry>): (n: nat)
    ensures n <= |l|
  {
    if |l| == 0 then 0 else (if l[0].dist < VERY_LARGE32 then 1 else 0) + Below(l[1..])
  }

  function Least(a: nat, b: nat): nat { if a < b then a else b }

  lemma {:induction false} BelowAppend(l: seq<Entry>, e: Entry)
    ensures Below(l + [e]) == Below(l) + if e.dist < VERY_LARGE32 then 1 else 0
  {
    if |l| > 0 {
      BelowAppend(l[1..], e);
      assert (l + [e])[1..] == l[1..] + [e];
    }
  }

  /** In a sorted list the last entry tells whether all are below. */
  lemma {:induction false} BelowSorted(l: seq<Entry>)
    requires Sorted(l) && |l| > 0
    ensures Below(l) == |l| <==> l[|l| - 1].dist < VERY_LARGE32
    ensures Below(l[..|l| - 1]) == if l[|l| - 1].dist < VERY_LARGE32 then |l| - 1 else Below(l)
  {
    var front, last := l[..|l| - 1], l[|l| - 1];
    assert l == front + [last];
    BelowAppend(front, last);
    if |front| > 0 { BelowSorted(front); }
  }

  /** An insertion adds one entry below padding, as long as there is room. */
  lemma {:induction false} BelowInsert(l: seq<Entry>, e: Entry)
    requires Sorted(l)
    ensures Below(Insert(l, e)) == Least(|l|, Below(l) + if e.dist < VERY_LARGE32 then 1 else 0)
  {
    if |l| > 0 {
      if e.dist < l[0].dist {
        BelowSorted(l);
        var front := l[..|l| - 1];
        assert ([e] + front)[1..] == front;
        if e.dist >= VERY_LARGE32 { NoneBelow(l); }
      } else {
        BelowInsert(l[1..], e);
        assert ([l[0]] + Insert(l[1..], e))[1..] == Insert(l[1..], e);
        if l[0].dist >= VERY_LARGE32 { NoneBelow(l); }
      }
    }
  }

  lemma {:induction false} NoneBelow(l: seq<Entry>)
    requires Sorted(l) && |l| > 0 && l[0].dist >= VERY_LARGE32
    ensures Below(l) == 0
  {
    if |l| > 1 { NoneBelow(l[1..]); }
  }

  lemma {:induction false} BelowPadding(n: nat)
    ensures Below(Padding(n)) == 0
  {
    if n > 0 {
      BelowPadding(n - 1);
      assert Padding(n)[1..] == Padding(n - 1);
    }
  }

  /** Main result on padding: the list is full exactly when enough offers were below it. */
  lemma {:induction false} FullWhenEnough(n: nat, offers: seq<Entry>)
    requires n > 0
    ensures Below(InsertAll(Padding(n), offers)) == Least(n, Below(offers))
    ensures InsertAll(Padding(n), offers)[n - 1].dist < VERY_LARGE32 <==> Below(offers) >= n
    decreases |offers|
  {
    hide Insert, Sorted, Below;
    var l := InsertAll(Padding(n), offers);
    var dropped := KeepsSmallest(n, offers);
    if |offers| == 0 {
      BelowPadding(n);
      assert Below(offers) == 0 by { AllBelow(offers); }
    } else {
      var rest, e := offers[..|offers| - 1], offers[|offers| - 1];
      var before := KeepsSmallest(n, rest);
      FullWhenEnough(n, rest);
      BelowInsert(InsertAll(Padding(n), rest), e);
      BelowAppend(rest, e);
      assert offers == rest + [e];
      assert l == Insert(InsertAll(Padding(n), rest), e);
    }
    hide Insert, InsertAll, Below;
    BelowSorted(l);
  }

  lemma {:induction false} AllBelow(offers: seq<Entry>)
    requires forall x :: x in offers ==> x.dist < VERY_LARGE32
    ensures Below(offers) == |offers|
  {
    if |offers| > 0 { AllBelow(offers[1..]); }
  }

  // ---- the three arrays ----

  function Zipped(dists: seq<int>, indices: seq<nat>, sources: seq<nat>): (l: seq<Entry>)
    requires |dists| == |indices| == |sources|
    ensures |l| == |dists|
    ensures forall i :: 0 <= i < |l| ==> l[i] == Entry(dists[i], indices[i], sources[i])
  {
    seq(|dists|, i requires 0 <= i < |dists| => Entry(dists[i], indices[i], sources[i]))
  }

  function Zip(ndist: array<int>, nind: array<nat>, ntarget: array<nat>): (l: seq<Entry>)
    requires ndist.Length == nind.Length == ntarget.Length
    reads ndist, nind, ntarget
    ensures |l| == ndist.Length
    ensures forall i :: 0 <= i < |l| ==> l[i] == Entry(ndist[i], nind[i], ntarget[i])
  {
    Zipped(ndist[..], nind[..], ntarget[..])
  }

  /** What one array becomes when place m is made free for x and the last element falls off. */
  ghost predicate Shifted<T>(before: seq<T>, after: seq<T>, m: nat, x: T)
    requires m < |before|
  {
    after == before[..m] + [x] + before[m..|before| - 1]
  }

  /** One array on its way there: what lay between m and n has not moved yet. */
  ghost predicate Moved<T>(before: seq<T>, now: seq<T>, n: nat) {
    && n < |before| == |now|
    && now == before[..n + 1] + before[n..|before| - 1]
  }

  lemma MoveOne<T>(before: seq<T>, now: seq<T>, n: nat)
    requires 0 < n && Moved(before, now, n)
    ensures Moved(before, now[n := now[n - 1]], n - 1)
  {}

  lemma MoveNone<T>(before: seq<T>)
    requires |before| > 0
    ensures Moved(before, before, |before| - 1)
  {}

  lemma PutFree<T>(before: seq<T>, now: seq<T>, m: nat, x: T)
    requires m < |before| && Moved(before, now, m)
    ensures Shifted(before, now[m := x], m, x)
  {}

  /** The shift of the n-best arrays that makes place m free for a candidate. */
  method ShiftIn(ndist: array<int>, nind: array<nat>, ntarget: array<nat>, m: nat, err: int, index: nat, j: nat)
    requires ndist.Length == nind.Length == ntarget.Length && nind != ntarget && m < ndist.Length
    modifies ndist, nind, ntarget
    ensures Shifted(old(ndist[..]), ndist[..], m, err)
    ensures Shifted(old(nind[..]), nind[..], m, index)
    ensures Shifted(old(ntarget[..]), ntarget[..], m, j)
  {
    hide Moved, Shifted;
    MoveNone(ndist[..]);
    MoveNone(nind[..]);
    MoveNone(ntarget[..]);
    var n := ndist.Length - 1;
    while n > m
      invariant m <= n < ndist.Length
      invariant Moved(old(ndist[..]), ndist[..], n)
      invariant Moved(old(nind[..]), nind[..], n)
      invariant Moved(old(ntarget[..]), ntarget[..], n)
    {
      MoveOne(old(ndist[..]), ndist[..], n);
      MoveOne(old(nind[..]), nind[..], n);
      MoveOne(old(ntarget[..]), ntarget[..], n);
      ndist[n] := ndist[n - 1];
      nind[n] := nind[n - 1];
      ntarget[n] := ntarget[n - 1];
      n := n - 1;
    }
    PutFree(old(ndist[..]), ndist[..], m, err);
    PutFree(old(nind[..]), nind[..], m, index);
    PutFree(old(ntarget[..]), ntarget[..], m, j);
    ndist[m] := err;
    nind[n] := index;
    ntarget[n] := j;
  }

  lemma ZipShifted(d: seq<int>, n: seq<nat>, t: seq<nat>, d': seq<int>, n': seq<nat>, t': seq<nat>, m: nat, e: Entry)
    requires |d| == |n| == |t| && m < |d|
    requires Shifted(d, d', m, e.dist) && Shifted(n, n', m, e.index) && Shifted(t, t', m, e.source)
    ensures |d'| == |n'| == |t'| && Shifted(Zipped(d, n, t), Zipped(d', n', t'), m, e)
  {
    var l, r := Zipped(d, n, t), Zipped(d', n', t');
    forall i | 0 <= i < |r|
      ensures r[i] == (l[..m] + [e] + l[m..|l| - 1])[i]
    {
      ShiftedAt(d, d', m, e.dist, i);
      ShiftedAt(n, n', m, e.index, i);
      ShiftedAt(t, t', m, e.source, i);
      hide Shifted;
    }
  }

  lemma ShiftedAt<T>(before: seq<T>, after: seq<T>, m: nat, x: T, i: nat)
    requires m < |before| && Shifted(before, after, m, x) && i < |before|
    ensures |after| == |before| && after[i] == if i < m then before[i] else if i == m then x else before[i - 1]
  {}

  /** The update of the n-best list with one candidate. */
  method Offer(ndist: array<int>, nind: array<nat>, ntarget: array<nat>, err: int, index: nat, j: nat)
    requires ndist.Length == nind.Length == ntarget.Length > 0 && nind != ntarget
    requires Sorted(Zip(ndist, nind, ntarget))
    modifies ndist, nind, ntarget
    ensures Zip(ndist, nind, ntarget) == Insert(old(Zip(ndist, nind, ntarget)), Entry(err, index, j))
    ensures Sorted(Zip(ndist, nind, ntarget))
  {
    hide Insert, Sorted;
    ghost var l := Zip(ndist, nind, ntarget);
    ghost var e := Entry(err, index, j);
    ghost var d, n, t := ndist[..], nind[..], ntarget[..];
    ghost var dropped := InsertKeepsBest(l, e);
    if err < ndist[ndist.Length - 1] {
      var m := 0;
      while ndist[m] <= err
        invariant m < ndist.Length && forall i :: 0 <= i < m ==> l[i].dist <= err
        decreases ndist.Length - m
      {
        m := m + 1;
      }
      InsertAt(l, e, m);
      ShiftIn(ndist, nind, ntarget, m, err, index, j);
      ZipShifted(d, n, t, ndist[..], nind[..], ntarget[..], m, e);
    } else {
      LastIsLargest(l);
      InsertAt(l, e, |l|);
    }
  }

  lemma LastIsLargest(l: seq<Entry>)
    requires Sorted(l)
    ensures forall i :: 0 <= i < |l| ==> l[i].dist <= l[|l| - 1].dist
  {}
}
