/** What the stability check makes of a sorted LSF vector: decodeLSP.c, lines 95-110. */
module LspSpacing {
  import opened Arithmetic
  import opened LspLockstep

  /** Every value of the sorted vector leaves room in a word for the distances behind it. */
  ghost predicate HasRoom(v: Vector) {
    forall i :: 0 <= i < NB ==> v[i] + (NB - 1 - i) * MIN_DISTANCE <= 0x7fff
  }

  ghost predicate AtOrAbove(t: Vector, v: Vector) {
    forall i :: 0 <= i < NB ==> t[i] >= v[i]
  }

  /** The spacing loop stays below every vector that reaches its input and keeps the distances. */
  lemma {:induction false} IdealIsLeast(v: Vector, t: Vector, k: nat)
    requires k < NB && DistancesKept(t) && AtOrAbove(t, v)
    ensures Ideal(v, k) <= t[k]
  {
    if k > 0 {
      IdealIsLeast(v, t, k - 1);
      assert (t[k - 1 + 1] as int) - t[k - 1] >= MIN_DISTANCE;
    }
  }

  lemma {:induction false} IdealReaches(v: Vector, k: nat)
    requires k < NB
    ensures Ideal(v, k) >= v[k]
  {}

  lemma SpacedAt(v: Vector, k: nat)
    requires k < NB && HasRoom(v)
    ensures Spaced(v, NB - 1)[k] as int == Ideal(v, k)
  {
    IdealFits(v, NB - 1);
    IdealGrows(v, k, NB - 1);
    SpacedIsIdeal(v, k);
    SettledStays(v, k, NB - 1, k);
    hide Spaced, Ideal;
  }

  /**
   Main result: with room for the distances, the vector behind the check lies below every vector that
   reaches the sorted input and the lower limit and keeps the distances; its last value is cut to the upper
   limit, all others are those of such a vector themselves.
   */
  lemma StableIsLeast(v: Vector, low: Coordinate, t: Vector)
    requires HasRoom(Lifted(v, low))
    ensures var w := Stable(v, low);
      && (forall i :: 0 <= i < NB - 1 ==> w[i] >= v[i]) && (low < NB - 1 ==> w[low] >= QLSF_MIN)
      && (forall i :: 0 <= i < NB - 2 ==> (w[i + 1] as int) - w[i] >= MIN_DISTANCE)
      && w[NB - 1] <= QLSF_MAX
      && (w[NB - 1] < QLSF_MAX ==> w[NB - 1] >= v[NB - 1] && (w[NB - 1] as int) - w[NB - 2] >= MIN_DISTANCE)
      && (DistancesKept(t) && AtOrAbove(t, v) && t[low] >= QLSF_MIN ==> AtOrAbove(t, w))
  {
    var u, w := Lifted(v, low), Stable(v, low);
    forall i | 0 <= i < NB
      ensures Spaced(u, NB - 1)[i] >= u[i]
      ensures DistancesKept(t) && AtOrAbove(t, v) && t[low] >= QLSF_MIN ==> t[i] >= Spaced(u, NB - 1)[i]
    {
      SpacedAt(u, i);
      IdealReaches(u, i);
      if DistancesKept(t) && AtOrAbove(t, v) && t[low] >= QLSF_MIN { IdealIsLeast(u, t, i); }
    }
    SpacingHolds(u);
    var x := Spaced(u, NB - 1);
    assert DistancesKept(x);
    hide Spaced, Ideal;
    forall i | 0 <= i < NB
      ensures u[i] >= v[i] && w[i] == if i == NB - 1 && x[i] > QLSF_MAX then QLSF_MAX else x[i]
    {
    }
    assert u[low] >= QLSF_MIN && x[low] >= u[low];
    forall i | 0 <= i < NB - 2
      ensures (w[i + 1] as int) - w[i] >= MIN_DISTANCE
    {
      assert (x[i + 1] as int) - x[i] >= MIN_DISTANCE;
    }
    assert (x[NB - 2 + 1] as int) - x[NB - 2] >= MIN_DISTANCE;
  }
}
