/** stblz_lsp and stblchck: bx16_fixedp/bvcommon/stblzlsp.c, lines 32-98. */
module StabilizeLsp {
  import opened BasicOps
  import opened Sorting

  const LSPMIN := 49
  const LSPMAX := 32694
  const DLSPMIN := 410

  // ---- ordering ----

  function CountGreater(s: seq<int>, x: int): nat {
    if |s| == 0 then 0 else CountGreater(s[..|s| - 1], x) + if s[|s| - 1] > x then 1 else 0
  }

  /** The number of pairs out of order. */
  function Inversions(s: seq<int>): nat {
    if |s| == 0 then 0 else Inversions(s[..|s| - 1]) + CountGreater(s[..|s| - 1], s[|s| - 1])
  }

  lemma CountAppend(s: seq<int>, y: int, x: int)
    ensures CountGreater(s + [y], x) == CountGreater(s, x) + if y > x then 1 else 0
    ensures Inversions(s + [y]) == Inversions(s) + CountGreater(s, y)
  {
    assert (s + [y])[..|s|] == s;
  }

  /** Counting does not depend on the order of two neighbours. */
  lemma {:induction false} CountSwap(a: seq<int>, x: int, y: int, b: seq<int>, z: int)
    ensures CountGreater(a + [x] + [y] + b, z) == CountGreater(a + [y] + [x] + b, z)
  {
    if |b| == 0 {
      CountAppend(a, x, z);
      CountAppend(a + [x], y, z);
      CountAppend(a, y, z);
      CountAppend(a + [y], x, z);
      assert a + [x] + [y] + b == a + [x] + [y] && a + [y] + [x] + b == a + [y] + [x];
    } else {
      var c, d := b[..|b| - 1], b[|b| - 1];
      CountSwap(a, x, y, c, z);
      LastOut(a + [x] + [y], b);
      LastOut(a + [y] + [x], b);
      CountAppend(a + [x] + [y] + c, d, z);
      CountAppend(a + [y] + [x] + c, d, z);
    }
  }

  lemma LastOut(a: seq<int>, b: seq<int>)
    requires |b| > 0
    ensures a + b == a + b[..|b| - 1] + [b[|b| - 1]]
  {}

  /** Swapping two neighbours out of order removes exactly one inversion. */
  lemma {:induction false} SwapRemovesOne(a: seq<int>, x: int, y: int, b: seq<int>)
    requires x > y
    ensures Inversions(a + [y] + [x] + b) == Inversions(a + [x] + [y] + b) - 1
  {
    if |b| == 0 {
      CountAppend(a, x, y);
      CountAppend(a, y, x);
      CountAppend(a + [x], y, 0);
      CountAppend(a + [y], x, 0);
      assert a + [x] + [y] + b == a + [x] + [y] && a + [y] + [x] + b == a + [y] + [x];
    } else {
      var c, d := b[..|b| - 1], b[|b| - 1];
      SwapRemovesOne(a, x, y, c);
      CountSwap(a, x, y, c, d);
      LastOut(a + [x] + [y], b);
      LastOut(a + [y] + [x], b);
      CountAppend(a + [x] + [y] + c, d, 0);
      CountAppend(a + [y] + [x] + c, d, 0);
    }
  }

  lemma SwapNeighbours(s: seq<int>, i: nat)
    requires i + 1 < |s| && s[i] > s[i + 1]
    ensures var t := s[i := s[i + 1]][i + 1 := s[i]];
      Inversions(t) == Inversions(s) - 1 && multiset(t) == multiset(s)
  {
    var t, a, b := s[i := s[i + 1]][i + 1 := s[i]], s[..i], s[i + 2..];
    assert s == a + [s[i]] + [s[i + 1]] + b;
    assert t == a + [s[i + 1]] + [s[i]] + b;
    SwapRemovesOne(a, s[i], s[i + 1], b);
  }

  lemma {:induction false} NeighboursSuffice(s: seq<int>)
    requires forall i :: 0 <= i < |s| - 1 ==> s[i] <= s[i + 1]
    ensures Ascending(s)
  {
    if |s| > 1 {
      var n := |s| - 1;
      NeighboursSuffice(s[..n]);
      forall i, j | 0 <= i <= j < |s|
        ensures s[i] <= s[j]
      {
        if j == n && i < n {
          assert s[..n][i] <= s[..n][n - 1];
          assert s[n - 1] <= s[n - 1 + 1];
        } else if j < n {
          assert s[..n][i] <= s[..n][j];
        }
      }
    }
  }

  method SwapWithNext(lsp: array<int>, i: nat)
    requires i + 1 < lsp.Length && lsp[i] > lsp[i + 1]
    modifies lsp
    ensures lsp[i] == old(lsp[i + 1]) && lsp[i + 1] == old(lsp[i])
    ensures forall j :: 0 <= j < i ==> lsp[j] == old(lsp[j])
    ensures multiset(lsp[..]) == multiset(old(lsp[..])) && Inversions(lsp[..]) == Inversions(old(lsp[..])) - 1
  {
    SwapNeighbours(lsp[..], i);
    ghost var t := lsp[..][i := lsp[i + 1]][i + 1 := lsp[i]];
    var a0 := lsp[i + 1];
    lsp[i + 1] := lsp[i];
    lsp[i] := a0;
    assert lsp[..] == t;
  }

  /** One pass over the array: it reports whether anything was out of order. */
  method OrderPass(lsp: array<int>) returns (k: bool)
    modifies lsp
    ensures multiset(lsp[..]) == multiset(old(lsp[..]))
    ensures if k then Inversions(lsp[..]) < Inversions(old(lsp[..])) else Ascending(lsp[..])
  {
    hide Inversions;
    k := false;
    var i := 0;
    while i < lsp.Length - 1
      invariant 0 <= i && (i < lsp.Length || i == 0)
      invariant multiset(lsp[..]) == multiset(old(lsp[..]))
      invariant Inversions(lsp[..]) <= Inversions(old(lsp[..]))
      invariant if k then Inversions(lsp[..]) < Inversions(old(lsp[..])) else forall j :: 0 <= j < i ==> lsp[j] <= lsp[j + 1]
    {
      if lsp[i] > lsp[i + 1] {
        SwapWithNext(lsp, i);
        k := true;
      }
      i := i + 1;
    }
    if !k { NeighboursSuffice(lsp[..]); }
  }

  /** The passes end, because each one that repeats removes an inversion. */
  method Order(lsp: array<int>)
    modifies lsp
    ensures lsp[..] == Sort(old(lsp[..]))
  {
    hide Inversions;
    var k := true;
    while k
      invariant multiset(lsp[..]) == multiset(old(lsp[..]))
      invariant !k ==> Ascending(lsp[..])
      decreases k, Inversions(lsp[..])
    {
      k := OrderPass(lsp);
    }
    SortIsSorted(old(lsp[..]));
    AscendingIsUnique(lsp[..], Sort(old(lsp[..])));
  }

  // ---- spacing and range ----

  /** Orders for which the required spacings fit between the limits. */
  ghost predicate Fits(order: nat) {
    order >= 1 && LSPMIN + (order - 1) * DLSPMIN <= LSPMAX
  }

  /** The largest value at i that leaves room for the rest. */
  function Ceiling(order: nat, i: nat): int {
    LSPMAX - (order - 1 - i) * DLSPMIN
  }

  function Clamp(x: int, low: int, high: int): int {
    if x < low then low else if x > high then high else x
  }

  /** Element i of the stabilised vector: the closest value to s[i] that is allowed behind its predecessor. */
  function Settled(s: seq<int>, i: nat): int
    requires i < |s|
  {
    Clamp(s[i], if i == 0 then LSPMIN else Settled(s, i - 1) + DLSPMIN, Ceiling(|s|, i))
  }

  function Stabilized(s: seq<int>): (r: seq<int>)
    ensures |r| == |s|
  {
    seq(|s|, i requires 0 <= i < |s| => Settled(Sort(s), i))
  }

  /** What a stable filter needs: limits, and a joint spacing. */
  ghost predicate WellSpaced(s: seq<int>) {
    && (forall i :: 0 <= i < |s| ==> LSPMIN <= s[i] <= LSPMAX)
    && forall i :: 0 < i < |s| ==> s[i] - s[i - 1] >= DLSPMIN
  }

  lemma {:induction false} SettledRange(s: seq<int>, i: nat)
    requires Fits(|s|) && i < |s|
    ensures LSPMIN + i * DLSPMIN <= Settled(s, i) <= Ceiling(|s|, i)
    ensures i > 0 ==> Settled(s, i) - Settled(s, i - 1) >= DLSPMIN
  {
    if i > 0 { SettledRange(s, i - 1); }
  }

  /** Main result: for any input the output keeps the limits and the spacing. */
  lemma StabilizedIsWellSpaced(s: seq<int>)
    requires Fits(|s|)
    ensures WellSpaced(Stabilized(s))
  {
    forall i | 0 <= i < |s|
      ensures LSPMIN <= Stabilized(s)[i] <= LSPMAX && (i > 0 ==> Stabilized(s)[i] - Stabilized(s)[i - 1] >= DLSPMIN)
    {
      SettledRange(Sort(s), i);
    }
  }

  lemma {:induction false} RoomAbove(s: seq<int>, i: nat, j: nat)
    requires WellSpaced(s) && i <= j < |s|
    ensures s[j] >= s[i] + (j - i) * DLSPMIN
    decreases j - i
  {
    if i < j { RoomAbove(s, i, j - 1); }
  }

  lemma {:induction false} SettledKeeps(s: seq<int>, i: nat)
    requires WellSpaced(s) && i < |s|
    ensures Settled(s, i) == s[i]
  {
    if i > 0 { SettledKeeps(s, i - 1); }
    RoomAbove(s, i, |s| - 1);
  }

  /** Main result: an input that is well spaced already comes back as it was. */
  lemma WellSpacedIsKept(s: seq<int>)
    requires WellSpaced(s)
    ensures Stabilized(s) == s
  {
    NeighboursSuffice(s);
    SortOfAscending(s);
    forall i | 0 <= i < |s|
      ensures Stabilized(s)[i] == s[i]
    {
      SettledKeeps(s, i);
    }
  }

  /** The order of the input does not matter. */
  lemma OrderIsIrrelevant(s: seq<int>, t: seq<int>)
    requires multiset(s) == multiset(t)
    ensures Stabilized(s) == Stabilized(t)
  {
    SortIsSorted(s);
    SortIsSorted(t);
    AscendingIsUnique(Sort(s), Sort(t));
  }

  /** Stabilising twice is stabilising once. */
  lemma StabilizedTwice(s: seq<int>)
    requires Fits(|s|)
    ensures Stabilized(Stabilized(s)) == Stabilized(s)
  {
    StabilizedIsWellSpaced(s);
    WellSpacedIsKept(Stabilized(s));
  }

  /** Every value of t reaches the one of s, or all the height the values behind it leave. */
  ghost predicate AtOrAbove(t: seq<int>, s: seq<int>)
    requires |t| == |s|
  {
    forall j :: 0 <= j < |s| ==> t[j] >= s[j] || t[j] >= Ceiling(|s|, j)
  }

  lemma {:induction false} SettledIsLeast(s: seq<int>, t: seq<int>, i: nat)
    requires |t| == |s| && i < |s| && WellSpaced(t) && AtOrAbove(t, s)
    ensures Settled(s, i) <= t[i]
  {
    if i > 0 { SettledIsLeast(s, t, i - 1); }
    RoomAbove(t, i, |s| - 1);
  }

  lemma SettledReaches(s: seq<int>, i: nat)
    requires Fits(|s|) && i < |s|
    ensures Settled(s, i) >= s[i] || Settled(s, i) >= Ceiling(|s|, i)
  {
    if i > 0 { SettledRange(s, i - 1); }
  }

  ghost predicate Below(r: seq<int>, t: seq<int>)
    requires |r| == |t|
  {
    forall i :: 0 <= i < |r| ==> r[i] <= t[i]
  }

  /**
   Main result: the output is the least of all well-spaced vectors that reach the sorted input, or as
   much of it as there is room for; and it is the only vector that is one of these and below all others.
   */
  lemma StabilizedIsLeast(s: seq<int>, t: seq<int>)
    requires Fits(|s|) && |t| == |s|
    ensures AtOrAbove(Stabilized(s), Sort(s))
    ensures WellSpaced(t) && AtOrAbove(t, Sort(s)) ==> Below(Stabilized(s), t)
    ensures WellSpaced(t) && AtOrAbove(t, Sort(s)) && Below(t, Stabilized(s)) ==> t == Stabilized(s)
  {
    hide Settled, WellSpaced, Sort;
    forall i | 0 <= i < |s|
      ensures Stabilized(s)[i] >= Sort(s)[i] || Stabilized(s)[i] >= Ceiling(|s|, i)
      ensures WellSpaced(t) && AtOrAbove(t, Sort(s)) ==> Stabilized(s)[i] <= t[i]
    {
      SettledReaches(Sort(s), i);
      if WellSpaced(t) && AtOrAbove(t, Sort(s)) { SettledIsLeast(Sort(s), t, i); }
    }
  }

  lemma SettledFirst(s: seq<int>)
    requires Fits(|s|)
    ensures Settled(s, 0) == Clamp(s[0], LSPMIN, Ceiling(|s|, 0)) && LSPMIN <= Ceiling(|s|, 0)
  {}

  lemma SettledNext(s: seq<int>, i: nat)
    requires Fits(|s|) && i + 1 < |s|
    ensures Settled(s, i + 1) == Clamp(s[i + 1], Settled(s, i) + DLSPMIN, Ceiling(|s|, i + 1))
    ensures LSPMIN <= Settled(s, i) && Settled(s, i) + DLSPMIN <= Ceiling(|s|, i + 1) == Ceiling(|s|, i) + DLSPMIN <= LSPMAX
  {
    SettledRange(s, i);
  }

  /** The second half: every element between a spacing to the left and room to the right. */
  method Space(lsp: array<int>)
    requires Fits(lsp.Length)
    modifies lsp
    ensures forall i :: 0 <= i < lsp.Length ==> lsp[i] == Settled(old(lsp[..]), i)
  {
    hide Settled;
    ghost var s := lsp[..];
    var order := lsp.Length;
    SettledFirst(s);
    var maxtmp: int := Sat16(LSPMAX - (order - 1) * DLSPMIN);
    if lsp[0] < LSPMIN { lsp[0] := LSPMIN; } else if lsp[0] > maxtmp { lsp[0] := maxtmp; }
    for i := 0 to order - 1
      invariant maxtmp == Ceiling(order, i)
      invariant forall j :: 0 <= j <= i ==> lsp[j] == Settled(s, j)
      invariant forall j :: i < j < order ==> lsp[j] == s[j]
    {
      SettledNext(s, i);
      var mintmp: int := Sat16(lsp[i] + DLSPMIN);
      maxtmp := Sat16(maxtmp + DLSPMIN);
      if lsp[i + 1] < mintmp { lsp[i + 1] := mintmp; } else if lsp[i + 1] > maxtmp { lsp[i + 1] := maxtmp; }
    }
  }

  /** stblz_lsp. */
  method StblzLsp(lsp: array<int>)
    requires Fits(lsp.Length)
    modifies lsp
    ensures lsp[..] == Stabilized(old(lsp[..]))
    ensures WellSpaced(lsp[..])
  {
    ghost var s := lsp[..];
    Order(lsp);
    Space(lsp);
    StabilizedIsWellSpaced(s);
  }

  /** stblchck: a non-negative first element and no reversal among the first vdim. */
  method Stblchck(x: seq<int>, vdim: nat) returns (stbl: bool)
    requires 1 <= vdim <= |x|
    ensures stbl <==> OrderedFront(x, vdim)
  {
    if x[0] < 0 { return false; }
    stbl := true;
    for k := 1 to vdim
      invariant stbl <==> forall i :: 1 <= i < k ==> x[i - 1] <= x[i]
    {
      if x[k] < x[k - 1] { stbl := false; }
    }
  }

  predicate OrderedFront(x: seq<int>, vdim: nat)
    requires 1 <= vdim <= |x|
  {
    x[0] >= 0 && forall i :: 1 <= i < vdim ==> x[i - 1] <= x[i]
  }
}
