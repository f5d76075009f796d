/** Sorted sequences, and the insertion sort of utils.c, lines 33-51. */
module Sorting {

  ghost predicate Ascending(s: seq<int>) {
    forall i, j :: 0 <= i <= j < |s| ==> s[i] <= s[j]
  }

  /** Put x behind the elements no larger than it. */
  function Insert(s: seq<int>, x: int): (r: seq<int>)
    ensures |r| == |s| + 1
  {
    if |s| == 0 then [x]
    else if s[|s| - 1] <= x then s + [x]
    else Insert(s[..|s| - 1], x) + [s[|s| - 1]]
  }

  function Sort(s: seq<int>): (r: seq<int>)
    ensures |r| == |s|
  {
    if |s| == 0 then [] else Insert(Sort(s[..|s| - 1]), s[|s| - 1])
  }

  lemma {:induction false} InsertKeepsAscending(s: seq<int>, x: int)
    requires Ascending(s)
    ensures Ascending(Insert(s, x)) && multiset(Insert(s, x)) == multiset(s) + multiset{x}
    ensures forall y :: y in Insert(s, x) ==> y == x || y in s
  {
    if |s| > 0 && x < s[|s| - 1] {
      var front, last := s[..|s| - 1], s[|s| - 1];
      InsertKeepsAscending(front, x);
      assert s == front + [last];
      AppendLargest(Insert(front, x), last);
    }
  }

  lemma AppendLargest(s: seq<int>, x: int)
    requires Ascending(s) && forall y :: y in s ==> y <= x
    ensures Ascending(s + [x])
  {
    forall i, j | 0 <= i <= j < |s| + 1
      ensures (s + [x])[i] <= (s + [x])[j]
    {
      if j == |s| && i < j { assert s[i] in s; }
    }
  }

  /** Sorting gives an ascending permutation. */
  lemma {:induction false} SortIsSorted(s: seq<int>)
    ensures Ascending(Sort(s)) && multiset(Sort(s)) == multiset(s)
  {
    if |s| > 0 {
      SortIsSorted(s[..|s| - 1]);
      InsertKeepsAscending(Sort(s[..|s| - 1]), s[|s| - 1]);
      assert s == s[..|s| - 1] + [s[|s| - 1]];
    }
  }

  /** An ascending permutation is unique, so any sorting method computes Sort. */
  lemma {:induction false} AscendingIsUnique(a: seq<int>, b: seq<int>)
    requires Ascending(a) && Ascending(b) && multiset(a) == multiset(b)
    ensures a == b
  {
    assert |a| == |multiset(a)| == |multiset(b)| == |b|;
    if |a| > 0 {
      var n := |a| - 1;
      SameLast(a, b);
      LastApart(a);
      LastApart(b);
      AscendingIsUnique(a[..n], b[..n]);
    }
  }

  lemma SameLast(a: seq<int>, b: seq<int>)
    requires Ascending(a) && Ascending(b) && multiset(a) == multiset(b) && |a| == |b| > 0
    ensures a[|a| - 1] == b[|b| - 1]
  {
    LastIsLargest(a, b[|b| - 1]);
    LastIsLargest(b, a[|a| - 1]);
  }

  lemma LastIsLargest(a: seq<int>, x: int)
    requires Ascending(a) && |a| > 0
    ensures a[|a| - 1] in multiset(a)
    ensures x in multiset(a) ==> x <= a[|a| - 1]
  {
    if x in multiset(a) { assert x in a; }
  }

  lemma LastApart(a: seq<int>)
    requires Ascending(a) && |a| > 0
    ensures Ascending(a[..|a| - 1])
    ensures multiset(a[..|a| - 1]) == multiset(a) - multiset{a[|a| - 1]}
  {
    assert a == a[..|a| - 1] + [a[|a| - 1]];
  }

  lemma SortOfAscending(s: seq<int>)
    requires Ascending(s)
    ensures Sort(s) == s
  {
    SortIsSorted(s);
    AscendingIsUnique(s, Sort(s));
  }

  /** The sorted sequence starts with the least element. */
  lemma SortStartsLeast(s: seq<int>, i: nat)
    requires i < |s|
    ensures Sort(s)[0] <= s[i]
  {
    SortIsSorted(s);
    assert s[i] in multiset(s);
    assert s[i] in Sort(s);
  }

  /** Where the insertion of x ends, with the larger elements moved up by one. */
  lemma {:induction false} InsertMoves(s: seq<int>, x: int, j: nat)
    requires j <= |s| && (j > 0 ==> s[j - 1] <= x) && forall k :: j <= k < |s| ==> x < s[k]
    ensures Insert(s, x) == s[..j] + [x] + s[j..]
    decreases |s|
  {
    if j < |s| {
      var front, last := s[..|s| - 1], s[|s| - 1];
      InsertMoves(front, x, j);
      assert front[..j] == s[..j];
      assert s[j..] == front[j..] + [last];
    } else {
      assert s[..j] == s && s[j..] == [];
    }
  }

  /** The inner loop: bring x[i] to its place among the sorted elements before it. */
  method InsertAt(x: array<int>, i: nat)
    requires i < x.Length
    modifies x
    ensures x[..i + 1] == Insert(old(x[..i]), old(x[i])) && x[i + 1..] == old(x[i + 1..])
  {
    ghost var s := x[..i];
    var currentValue := x[i];
    var j := i - 1;
    while j >= 0 && x[j] > currentValue
      invariant -1 <= j < i
      invariant x[..j + 1] == s[..j + 1]
      invariant forall k :: j + 2 <= k <= i ==> x[k] == s[k - 1]
      invariant forall k :: j < k < i ==> currentValue < s[k]
      invariant x[i + 1..] == old(x[i + 1..])
      invariant j == i - 1 ==> x[i] == currentValue
    {
      assert x[j] == x[..j + 1][j];
      x[j + 1] := x[j];
      j := j - 1;
    }
    if j >= 0 { assert x[j] == x[..j + 1][j]; }
    x[j + 1] := currentValue;
    InsertMoves(s, currentValue, j + 1);
    Placed(x[..i + 1], s, currentValue, j + 1);
  }

  lemma Placed(now: seq<int>, s: seq<int>, x: int, j: nat)
    requires j <= |s| && |now| == |s| + 1 && now[..j] == s[..j] && now[j] == x
    requires forall k :: j < k < |now| ==> now[k] == s[k - 1]
    ensures now == s[..j] + [x] + s[j..]
  {
    assert forall k :: 0 <= k < j ==> now[k] == now[..j][k];
  }

  /** insertionSort. */
  method InsertionSort(x: array<int>)
    modifies x
    ensures x[..] == Sort(old(x[..]))
  {
    if x.Length == 0 { return; }
    ghost var s := x[..];
    OneSorted(s);
    var i := 1;
    while i < x.Length
      invariant 1 <= i <= x.Length
      invariant x[..i] == Sort(s[..i]) && x[i..] == s[i..]
    {
      assert x[i] == x[i..][0] == s[i];
      assert s[..i + 1][..i] == s[..i];
      assert x[i..][1..] == x[i + 1..] && s[i..][1..] == s[i + 1..];
      InsertAt(x, i);
      i := i + 1;
    }
    assert s[..i] == s && x[..i] == x[..];
  }

  lemma OneSorted(s: seq<int>)
    requires |s| >= 1
    ensures s[..1] == Sort(s[..1])
  {
    SortOfAscending(s[..1]);
  }
}
