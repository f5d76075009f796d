/** Attenuation over runs of lost BroadVoice16 frames: bv16/plc.c, lines 66-68, 93-100 and 155-166. */
module Plc {
  import opened Arithmetic
  import opened BasicOps
  import opened DoublePrecision

  const HOLD := 8
  const ATTN := 50
  const ATTN_FACTOR := 20971
  const LAST_COUNT := HOLD + ATTN - 1

  type Count = c: nat | c <= LAST_COUNT
  type Taps = t: seq<Word16> | |t| == 3 witness [0, 0, 0]

  /** The part of the decoder state that fades: the frame counter, the pitch taps, the energy. */
  datatype State = State(count: Count, taps: Taps, energy: Word32)

  /** Decoding leaves a sum of squares in the energy. */
  ghost predicate Decoded(s: State) { s.energy >= 0 }

  // ---- the attenuation gain ----

  function Attenuation(c: Count): Word16
    requires c >= HOLD
  {
    IntRound(LShl(LAdd(0x10_0000, LMult0(-ATTN_FACTOR, Sub(c, HOLD - 1))), 11))
  }

  lemma TwoTo11()
    ensures TwoTo(11) == 0x800
  {
    assert TwoTo(4) == 16;
    assert TwoTo(8) == 16 * TwoTo(4);
  }

  /** No operation saturates, and the gain falls from 32113 to 1. */
  lemma AttenuationIs(c: Count)
    requires c >= HOLD
    ensures Attenuation(c) == (0x800 * (0x10_0000 - ATTN_FACTOR * (c - HOLD + 1)) + 0x8000) / 0x1_0000
    ensures 1 <= Attenuation(c) <= 32113
    ensures c == LAST_COUNT ==> Attenuation(c) == 1
  {
    TwoTo11();
    var steps: int := c - HOLD + 1;
    assert LMult0(-ATTN_FACTOR, Sub(c, HOLD - 1)) == -ATTN_FACTOR * steps;
  }

  lemma AttenuationFalls(c: Count, d: Count)
    requires HOLD <= c <= d
    ensures Attenuation(d) <= Attenuation(c)
  {
    AttenuationIs(c);
    AttenuationIs(d);
  }

  // ---- one lost frame ----

  function Faded(s: State, gain: Word16): State {
    State(s.count, seq(3, i requires 0 <= i < 3 => Mult(gain, s.taps[i])), Mpy3216(LExtract(s.energy), Mult(gain, gain)))
  }

  function Lost(s: State): State {
    var t := s.(count := if s.count < LAST_COUNT then s.count + 1 else s.count);
    if t.count >= HOLD then Faded(t, Attenuation(t.count)) else t
  }

  function Magnitude(x: int): nat { if x < 0 then -x else x }

  /** A product by a fraction never grows; by the smallest one it keeps only the sign. */
  lemma MultShrinks(gain: Word16, x: Word16)
    requires gain >= 0
    ensures Magnitude(Mult(gain, x)) <= Magnitude(x)
    ensures x >= 0 ==> Mult(gain, x) >= 0
    ensures gain == 1 ==> Mult(gain, x) == if x < 0 then -1 else 0
  {
    ProductRange(gain, x);
    FractionOf(gain, x);
  }

  lemma FractionOf(g: int, y: int)
    requires 0 <= g <= 0x7fff
    ensures if y >= 0 then 0 <= g * y / 0x8000 <= y else y <= g * y / 0x8000 <= 0
  {
    if y >= 0 {
      MulNat(g, y, 0x8000, y);
      DivMonotone(g * y, 0x8000 * y, 0x8000);
    } else {
      MulNat(g, -y, 0x8000, -y);
      MulSigns(g, y);
      DivMonotone(0x8000 * y, g * y, 0x8000);
    }
    ScaledBack(y);
  }

  lemma ScaledBack(y: int)
    ensures 0x8000 * y / 0x8000 == y
  {}

  lemma EnergyShrinks(energy: Word32, gain: Word16)
    requires energy >= 0 && gain >= 0
    ensures 0 <= Mpy3216(LExtract(energy), gain) <= energy
    ensures gain == 0 ==> Mpy3216(LExtract(energy), gain) == 0
  {
    var x := LExtract(energy);
    ExtractComposes(energy);
    Mpy3216Error(x, gain);
    Mpy3216Exact(x, gain);
    hide LExtract, Mpy3216;
    MulNat(x.hi, gain, x.hi, gain);
    MulNat(x.lo, gain, x.lo, gain);
    ProductShrinks(Value(x), gain, energy, Mpy3216(x, gain));
  }

  lemma ProductShrinks(v: int, g: int, energy: int, y: int)
    requires 0 <= v <= energy && 0 <= g <= 0x7fff && 0 <= y && 0x8000 * y <= v * g
    ensures y <= energy && (g == 0 ==> y == 0)
  {
    MulNat(v, g, v, 0x7fff);
  }

  /** What one more lost frame may do to taps and energy. */
  ghost predicate NoLarger(t: State, s: State) {
    && 0 <= t.energy <= s.energy
    && forall i :: 0 <= i < 3 ==> Magnitude(t.taps[i]) <= Magnitude(s.taps[i])
  }

  lemma LostShrinks(s: State)
    requires Decoded(s)
    ensures NoLarger(Lost(s), s)
  {
    var t := s.(count := if s.count < LAST_COUNT then s.count + 1 else s.count);
    if t.count >= HOLD {
      var gain := Attenuation(t.count);
      AttenuationIs(t.count);
      MultShrinks(gain, gain);
      EnergyShrinks(s.energy, Mult(gain, gain));
      MultShrinks(gain, s.taps[0]);
      MultShrinks(gain, s.taps[1]);
      MultShrinks(gain, s.taps[2]);
    }
  }

  /** A tap of a lost frame is the gain times the old one, floored. */
  lemma TapIs(gain: Word16, x: Word16)
    requires gain >= 0
    ensures 0 <= gain * x - 0x8000 * (Mult(gain, x) as int) < 0x8000
  {
    ProductRange(gain, x);
    FractionOf(gain, x);
  }

  /** The energy of a lost frame is the square of the gain times the old one, floored twice. */
  lemma EnergyIs(energy: Word32, gain: Word16)
    requires energy >= 0 && gain >= 0
    ensures var square: int := Mult(gain, gain); var d := square * energy - 0x8000 * (Mpy3216(LExtract(energy), Mult(gain, gain)) as int);
      0 <= d <= 0x1_0000 + square
  {
    MultShrinks(gain, gain);
    ExtractComposes(energy);
    Mpy3216Error(LExtract(energy), Mult(gain, gain));
    hide Mpy3216, LExtract, Mult;
    var square: int := Mult(gain, gain);
    LowBitOut(square, energy, Value(LExtract(energy)));
  }

  lemma LowBitOut(n: int, y: int, v: int)
    requires v <= y <= v + 1 && 0 <= n
    ensures v * n <= n * y <= v * n + n
  {
    if v == y { } else { assert n * y == v * n + n; }
  }

  /** Main result on one lost frame: from the eighth on, taps and energy are scaled by gain and squared gain. */
  lemma LostIs(s: State, i: nat)
    requires Decoded(s) && i < 3
    ensures var t := Lost(s);
      if t.count < HOLD then t.taps == s.taps && t.energy == s.energy
      else
        var gain := Attenuation(t.count);
        var square: int := Mult(gain, gain);
        && 0 <= gain * s.taps[i] - 0x8000 * (t.taps[i] as int) < 0x8000 && 0 <= gain * gain - 0x8000 * square < 0x8000
        && 0 <= square * s.energy - 0x8000 * (t.energy as int) <= 0x1_0000 + square
  {
    var t := Lost(s);
    hide Mpy3216, LExtract, Mult, Attenuation;
    if t.count >= HOLD {
      var gain := Attenuation(t.count);
      AttenuationIs(t.count);
      TapIs(gain, s.taps[i]);
      TapIs(gain, gain);
      EnergyIs(s.energy, gain);
    }
  }

  // ---- runs of lost frames ----

  function After(s: State, losses: nat): State {
    if losses == 0 then s else Lost(After(s, losses - 1))
  }

  /** The counter counts, and stops at 57. */
  lemma {:induction false} CountAfter(s: State, losses: nat)
    ensures After(s, losses).count == if s.count + losses < LAST_COUNT then s.count + losses else LAST_COUNT
  {
    hide Attenuation, Mult, Mpy3216, LExtract;
    if losses > 0 { CountAfter(s, losses - 1); }
  }

  /** Main result: over any run of losses neither the energy nor the magnitude of a tap ever grows. */
  lemma {:induction false} NeverGrows(s: State, m: nat, n: nat)
    requires Decoded(s) && m <= n
    ensures Decoded(After(s, m)) && NoLarger(After(s, n), After(s, m))
  {
    hide Lost;
    if m < n {
      NeverGrows(s, m, n - 1);
      LostShrinks(After(s, n - 1));
    } else if m > 0 {
      NeverGrows(s, 0, m - 1);
      LostShrinks(After(s, m - 1));
    }
  }

  /**
   Once the counter has stopped, one more loss leaves silence: no energy, and taps of 0 or, because the
   product is floored, -1.
   */
  lemma Silence(s: State, losses: nat)
    requires Decoded(s) && losses > 0 && s.count + losses >= LAST_COUNT
    ensures var t := After(s, losses);
      t.energy == 0 && forall i :: 0 <= i < 3 ==> t.taps[i] == 0 || t.taps[i] == -1
  {
    var before := After(s, losses - 1);
    NeverGrows(s, 0, losses - 1);
    CountAfter(s, losses);
    FadedToSilence(before);
    hide Lost;
  }

  lemma FadedToSilence(s: State)
    requires Decoded(s) && Lost(s).count == LAST_COUNT
    ensures Lost(s).energy == 0 && forall i :: 0 <= i < 3 ==> Lost(s).taps[i] == 0 || Lost(s).taps[i] == -1
  {
    AttenuationIs(LAST_COUNT);
    hide Attenuation;
    MultShrinks(1, 1);
    EnergyShrinks(s.energy, 0);
    MultShrinks(1, s.taps[0]);
    MultShrinks(1, s.taps[1]);
    MultShrinks(1, s.taps[2]);
  }

  /** norm_l: no shift for zero. */
  function NormOf(a: Word32): int
    requires a >= 0
  {
    if a == 0 then 0 else NormL(a)
  }

  /** The division inside the scaling of the lost excitation is always a legal fraction, also in silence. */
  lemma ScalingDivides(energy: Word32, noise: Word32)
    requires energy >= 0 && noise > 0
    ensures 0 <= ExtractH(LShl(energy, NormOf(energy) - 1)) < ExtractH(LShl(noise, NormOf(noise)))
  {
    if energy > 0 { HalfNormalised(energy); } else { assert TwoTo(1) == 2; }
    Normalised(noise);
    hide NormL, LShl;
  }

  lemma Normalised(a: Word32)
    requires a > 0
    ensures 0x4000_0000 <= LShl(a, NormL(a))
  {
    hide NormL, TwoTo;
  }

  lemma HalfNormalised(a: Word32)
    requires a > 0
    ensures 0 <= LShl(a, NormL(a) - 1) < 0x4000_0000
  {
    var n := NormL(a);
    if n > 0 {
      assert TwoTo(n) == 2 * TwoTo(n - 1);
      HalfProduct(a, TwoTo(n - 1));
      hide TwoTo, NormL;
      MulNat(0, TwoTo(n - 1), a, TwoTo(n - 1));
    } else {
      assert TwoTo(1) == 2 * TwoTo(0) == 2;
    }
  }

  lemma HalfProduct(a: int, p: int)
    ensures a * (2 * p) == 2 * (a * p)
  {}

  // ---- the decoder state ----

  class Decoder {
    var cfecount: nat
    var ngfae: nat
    var E: Word32
    const bq_last: array<Word16>

    ghost predicate Valid()
      reads this, bq_last
    {
      cfecount <= LAST_COUNT && bq_last.Length == 3
    }

    function Contents(): State
      requires Valid()
      reads this, bq_last
    {
      State(cfecount, bq_last[..], E)
    }

    constructor ()
      ensures Valid() && fresh(bq_last) && Contents() == State(0, [0, 0, 0], 0)
    {
      cfecount, ngfae, E := 0, 9, 0;
      bq_last := new Word16[3](_ => 0);
    }

    /** What a frame that arrives leaves for the concealment of the next ones. */
    method Receive(bq: Taps, energy: Word32)
      requires Valid() && energy >= 0
      modifies this`cfecount, this`ngfae, this`E, bq_last
      ensures Valid() && Contents() == State(0, bq, energy)
      ensures ngfae == if old(cfecount) != 0 then 1 else if old(ngfae) + 1 > 8 then 9 else old(ngfae) + 1
    {
      if cfecount != 0 {
        ngfae := 1;
      } else {
        ngfae := ngfae + 1;
        if ngfae > 8 { ngfae := 9; }
      }
      cfecount := 0;
      E := energy;
      bq_last[0], bq_last[1], bq_last[2] := bq[0], bq[1], bq[2];
    }

    /** The counters and the attenuation of BV16_PLC. */
    method Lose()
      requires Valid()
      modifies this`cfecount, this`ngfae, this`E, bq_last
      ensures Valid() && Contents() == Lost(old(Contents())) && ngfae == 0
    {
      hide Attenuation, Mult, Mpy3216, LExtract;
      if cfecount < LAST_COUNT { cfecount := cfecount + 1; }
      ngfae := 0;
      if cfecount >= HOLD {
        var gain := Gain(cfecount);
        bq_last[0] := Mult(gain, bq_last[0]);
        bq_last[1] := Mult(gain, bq_last[1]);
        bq_last[2] := Mult(gain, bq_last[2]);
        gain := Mult(gain, gain);
        E := Mpy3216(LExtract(E), gain);
      }
    }
  }

  method Gain(c: Count) returns (gain: Word16)
    requires c >= HOLD
    ensures gain == Attenuation(c)
  {
    var acc := LMult0(-ATTN_FACTOR, Sub(c, HOLD - 1));
    acc := LAdd(0x10_0000, acc);
    gain := IntRound(LShl(acc, 11));
  }
}
