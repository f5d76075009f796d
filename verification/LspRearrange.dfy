/** What the rearrangement of a codeword does: utils.c, lines 102-116, and LSPQuantization.c, lines 412-422. */
module LspRearrange {
  import opened Arithmetic
  import opened LspLockstep

  // ---- one step ----

  /** Two neighbours for which no operation of a step wraps. */
  ghost predicate NoWrap(a: int, b: int, J: int) {
    && -0x8000 <= a - b && a - b + J <= 0x7fff
    && -0x8000 + J <= a <= 0x7fff && -0x8000 <= b <= 0x7fff - J
  }

  /** A step leaves the distance J, up to one, between its neighbours, and moves them by equal amounts. */
  lemma StepApart(v: Vector, J: int, i: nat)
    requires 1 <= i < NB && 0 < J <= 100 && NoWrap(v[i - 1], v[i], J)
    ensures var w := Apart(v, J, i);
      && (forall k :: 0 <= k < NB && k != i - 1 && k != i ==> w[k] == v[k])
      && (w[i - 1] as int) + w[i] == (v[i - 1] as int) + v[i] && (w[i] as int) - w[i - 1] >= J - 1
      && if (v[i] as int) - v[i - 1] >= J - 1 then w == v else w[i - 1] < v[i - 1] && (w[i] as int) - w[i - 1] <= J
  {
    var a: int, b: int := v[i - 1], v[i];
    assert Missing(a, b, J) == HalfTowardsZero(a - b + J);
  }

  // ---- prefix sums ----

  /** The sum of the first k values. */
  function Prefix(v: Vector, k: nat): int
    requires k <= NB
  {
    if k == 0 then 0 else Prefix(v, k - 1) + v[k - 1]
  }

  lemma {:induction false} PrefixSame(v: Vector, w: Vector, k: nat)
    requires k <= NB && forall n :: 0 <= n < k ==> v[n] == w[n]
    ensures Prefix(v, k) == Prefix(w, k)
  {
    if k > 0 { PrefixSame(v, w, k - 1); }
  }

  /** Two neighbours exchange an amount: only the sum that ends between them changes. */
  lemma {:induction false} PrefixExchange(v: Vector, w: Vector, i: nat, k: nat)
    requires 1 <= i < NB && k <= NB
    requires forall n :: 0 <= n < NB && n != i - 1 && n != i ==> w[n] == v[n]
    requires (w[i - 1] as int) + w[i] == (v[i - 1] as int) + v[i]
    ensures Prefix(w, k) == if k == i then Prefix(v, k) + w[i - 1] - v[i - 1] else Prefix(v, k)
  {
    if k <= i - 1 {
      PrefixSame(v, w, k);
    } else {
      PrefixExchange(v, w, i, k - 1);
      if k == i + 1 { PrefixExchange(v, w, i, i - 1); }
    }
  }

  // ---- one pass ----

  ghost predicate Inside(v: Vector, lo: int, hi: int) {
    forall k :: 0 <= k < NB ==> lo <= v[k] <= hi
  }

  /** Values between lo and hi leave room for a whole pass with distance J. */
  ghost predicate Room(lo: int, hi: int, J: int) {
    -0x8000 + 10 * J <= lo <= hi <= 0x7fff - 10 * J && hi - lo + 20 * J <= 0x7fff
  }

  /** What n steps may widen the range by. */
  function Slack(n: nat, J: nat): nat { n * J }

  lemma SlackStep(n: nat, J: nat)
    ensures Slack(0, J) == 0 && Slack(n + 1, J) == Slack(n, J) + J
    ensures n <= 9 ==> Slack(n, J) <= 9 * J
  {
    if n <= 9 { MulNat(n, J, 9, J); }
  }

  lemma InsideNoWrap(v: Vector, J: int, i: nat, lo: int, hi: int, slack: nat)
    requires 1 <= i < NB && 0 < J <= 100 && Room(lo, hi, J) && slack <= 9 * J && Inside(v, lo - slack, hi + slack)
    ensures NoWrap(v[i - 1], v[i], J)
  {}

  lemma StepInside(u: Vector, J: int, i: nat, lo: int, hi: int)
    requires 1 <= i < NB && 0 < J <= 100 && NoWrap(u[i - 1], u[i], J) && Inside(u, lo, hi)
    ensures Inside(Apart(u, J, i), lo - J, hi + J)
  {
    StepApart(u, J, i);
    hide Apart, NoWrap;
  }

  lemma {:induction false} PassInside(v: Vector, J: int, i: nat, lo: int, hi: int)
    requires 1 <= i <= NB && 0 < J <= 100 && Room(lo, hi, J) && Inside(v, lo, hi)
    ensures Inside(Rearranged(v, J, i), lo - Slack(i - 1, J), hi + Slack(i - 1, J))
  {
    hide Apart, Rearranged, NoWrap, Room, Inside, Slack;
    if i == 1 {
      RearrangedFirst(v, J);
      SlackStep(0, J);
    } else {
      PassInside(v, J, i - 1, lo, hi);
      SlackStep(i - 2, J);
      var u, slack := Rearranged(v, J, i - 1), Slack(i - 2, J);
      InsideNoWrap(u, J, i - 1, lo, hi, slack);
      StepInside(u, J, i - 1, lo - slack, hi + slack);
      RearrangedNext(v, J, i - 1);
    }
  }

  /** What one step of a pass does to the prefix sums and to its own pair. */
  lemma PassStep(v: Vector, J: int, i: nat, lo: int, hi: int)
    requires 1 <= i < NB && 0 < J <= 100 && Room(lo, hi, J) && Inside(v, lo, hi)
    ensures var u, w := Rearranged(v, J, i), Rearranged(v, J, i + 1);
      && (w[i] as int) - w[i - 1] >= J - 1
      && (forall k :: 0 <= k <= NB && k != i ==> Prefix(w, k) == Prefix(u, k))
      && if (u[i] as int) - u[i - 1] >= J - 1 then w == u else Prefix(w, i) < Prefix(u, i)
  {
    var u, w := Rearranged(v, J, i), Rearranged(v, J, i + 1);
    PassInside(v, J, i, lo, hi);
    SlackStep(i - 1, J);
    InsideNoWrap(u, J, i, lo, hi, Slack(i - 1, J));
    StepApart(u, J, i);
    RearrangedNext(v, J, i);
    hide Rearranged, Apart, Prefix, NoWrap, Room, Inside, Slack;
    forall k | 0 <= k <= NB
      ensures Prefix(w, k) == if k == i then Prefix(u, k) + w[i - 1] - u[i - 1] else Prefix(u, k)
    {
      PrefixExchange(u, w, i, k);
    }
  }

  /** The rest of a pass keeps the sum and moves weight only to the right. */
  lemma {:induction false} PassSums(v: Vector, J: int, i: nat, j: nat, k: nat, lo: int, hi: int)
    requires 1 <= i <= j <= NB && k <= NB && 0 < J <= 100 && Room(lo, hi, J) && Inside(v, lo, hi)
    ensures Prefix(Rearranged(v, J, j), k) <= Prefix(Rearranged(v, J, i), k)
    ensures Prefix(Rearranged(v, J, j), NB) == Prefix(Rearranged(v, J, i), NB)
    decreases j
  {
    if i < j {
      hide Rearranged, Prefix, Room, Inside;
      PassSums(v, J, i, j - 1, k, lo, hi);
      PassStep(v, J, j - 1, lo, hi);
    }
  }

  ghost predicate Distant(v: Vector, J: int) {
    forall k :: 0 < k < NB ==> (v[k] as int) - v[k - 1] >= J - 1
  }

  lemma {:induction false} DistantIsKept(v: Vector, J: int, i: nat, lo: int, hi: int)
    requires 1 <= i <= NB && 0 < J <= 100 && Room(lo, hi, J) && Inside(v, lo, hi)
    requires forall k :: 0 < k < i ==> (v[k] as int) - v[k - 1] >= J - 1
    ensures Rearranged(v, J, i) == v
  {
    if i > 1 {
      DistantIsKept(v, J, i - 1, lo, hi);
      PassStep(v, J, i - 1, lo, hi);
      hide Rearranged, Prefix, Room, Inside;
    }
  }

  lemma {:induction false} FirstClose(v: Vector, J: int, n: nat) returns (i: nat)
    requires n < NB && exists k :: 0 < k <= n && (v[k] as int) - v[k - 1] < J - 1
    ensures 0 < i <= n && (v[i] as int) - v[i - 1] < J - 1
    ensures forall k :: 0 < k < i ==> (v[k] as int) - v[k - 1] >= J - 1
  {
    if exists k :: 0 < k <= n - 1 && (v[k] as int) - v[k - 1] < J - 1 {
      i := FirstClose(v, J, n - 1);
    } else {
      i := n;
    }
  }

  /** A vector with neighbours that are too close has lost weight on the left. */
  lemma CloseIsMoved(v: Vector, J: int, lo: int, hi: int) returns (i: nat)
    requires 0 < J <= 100 && Room(lo, hi, J) && Inside(v, lo, hi) && !Distant(v, J)
    ensures 0 < i < NB && Prefix(Rearranged(v, J, NB), i) < Prefix(v, i)
  {
    i := FirstClose(v, J, NB - 1);
    DistantIsKept(v, J, i, lo, hi);
    hide Rearranged, Prefix, Room, Inside, Distant;
    PassStep(v, J, i, lo, hi);
    PassSums(v, J, i + 1, NB, i, lo, hi);
  }

  /**
   Main result on one pass: it keeps the sum, moves weight only to the right, leaves the last pair apart,
   and changes nothing exactly when all neighbours are apart already.
   */
  lemma OnePass(v: Vector, J: int, lo: int, hi: int)
    requires 0 < J <= 100 && Room(lo, hi, J) && Inside(v, lo, hi)
    ensures var w := Rearranged(v, J, NB);
      && Inside(w, lo - 9 * J, hi + 9 * J)
      && Prefix(w, NB) == Prefix(v, NB) && (forall k :: 0 <= k <= NB ==> Prefix(w, k) <= Prefix(v, k))
      && (w[NB - 1] as int) - w[NB - 2] >= J - 1
      && (w == v <==> Distant(v, J))
  {
    if Distant(v, J) { DistantIsKept(v, J, NB, lo, hi); }
    hide Rearranged, Prefix, Room, Inside, Distant;
    PassInside(v, J, NB, lo, hi);
    SlackStep(9, J);
    assert Slack(9, J) == 9 * J;
    RearrangedFirst(v, J);
    PassStep(v, J, NB - 1, lo, hi);
    forall k | 0 <= k <= NB
      ensures Prefix(Rearranged(v, J, NB), k) <= Prefix(v, k)
      ensures Prefix(Rearranged(v, J, NB), NB) == Prefix(v, NB)
    {
      PassSums(v, J, 1, NB, k, lo, hi);
    }
    if !Distant(v, J) { var i := CloseIsMoved(v, J, lo, hi); }
  }

  /**
   Main result on the codeword: two passes keep the sum of the codebook entries, move weight only to the
   right, leave the last pair apart, and change nothing exactly when all neighbours are apart already.
   */
  lemma CodewordRearranged(books: Books, p: Frame, lo: int, hi: int)
    requires Sound(books, p) && Inside(Reconstruct(books, p), lo, hi)
    requires -0x8000 + 200 <= lo <= hi <= 0x7fff - 200 && hi - lo <= 0x7fff - 400
    ensures var v, w := Reconstruct(books, p), Codeword(books, p);
      && Prefix(w, NB) == Prefix(v, NB) && (forall k :: 0 <= k <= NB ==> Prefix(w, k) <= Prefix(v, k))
      && (w[NB - 1] as int) - w[NB - 2] >= GAP2 - 1
      && (w == v <==> Distant(v, GAP1))
  {
    hide Reconstruct, Rearranged, Prefix, Sound;
    var v := Reconstruct(books, p);
    var u := Rearranged(v, GAP1, NB);
    OnePass(v, GAP1, lo, hi);
    OnePass(u, GAP2, lo - 90, hi + 90);
    if !Distant(v, GAP1) {
      var i := CloseIsMoved(v, GAP1, lo, hi);
      assert Prefix(Codeword(books, p), i) < Prefix(v, i);
    }
  }

  // ---- a codeword of the shipped codebooks ----

  /** Row 0 of L1 and rows 4 and 25 of L2L3. */
  ghost predicate ShippedRows(books: Books) {
    && |books.l1| == 128 && |books.l2l3| == 32
    && books.l1[0] == [1486, 2168, 3751, 9074, 12134, 13944, 17983, 19173, 21190, 21820]
    && books.l2l3[4] == [171, -350, 294, 1660, 453, 519, 291, 159, -640, -1296]
    && books.l2l3[25] == [-1596, 550, 801, -456, -56, -697, 865, 1060, 413, 446]
  }

  lemma ShippedSums(books: Books, L0: nat)
    requires ShippedRows(books) && L0 < 2
    ensures Reconstruct(books, Frame(L0, 0, 25, 4)) == [-110, 2718, 4552, 8618, 12078, 14463, 18274, 19332, 20550, 20524]
  {}

  lemma LastPairParts(v: Vector)
    requires v[NB - 2] == 20550 && v[NB - 1] == 20524
    ensures Apart(v, GAP1, NB - 1) == v[NB - 2 := 20532][NB - 1 := 20542]
  {}

  /** The last two values of the sum are crossed; the rearrangement leaves them ten apart. */
  lemma ShippedPairParts(books: Books, L0: nat)
    requires ShippedRows(books) && L0 < 2
    ensures Codeword(books, Frame(L0, 0, 25, 4)) == [-110, 2718, 4552, 8618, 12078, 14463, 18274, 19332, 20532, 20542]
  {
    hide ShippedRows, Rearranged, Reconstruct, Apart;
    ShippedSums(books, L0);
    var v: Vector := [-110, 2718, 4552, 8618, 12078, 14463, 18274, 19332, 20550, 20524];
    var w: Vector := [-110, 2718, 4552, 8618, 12078, 14463, 18274, 19332, 20532, 20542];
    LastPairParts(v);
    assert v[NB - 2 := 20532][NB - 1 := 20542] == w;
    DistantIsKept(v, GAP1, NB - 1, -110, 20550);
    RearrangedNext(v, GAP1, NB - 1);
    DistantIsKept(w, GAP2, NB, -110, 20550);
  }
}
