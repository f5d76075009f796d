/** The random excitation of a lost BroadVoice16 frame: bv16/plc.c, lines 70-100. */
module PlcNoise {
  import opened Arithmetic
  import opened BasicOps
  import opened Plc

  const FRSZ := 40

  type Seed = s: nat | s < 0x1_0000_0000

  /** One step of the generator, on 32 bits. */
  function Draw(s: Seed): Seed { (1664525 * s + 1013904223) % 0x1_0000_0000 }

  function Draws(s: Seed, n: nat): Seed {
    if n == 0 then s else Draw(Draws(s, n - 1))
  }

  function Sample(s: Seed): Word16 {
    ExtractL(LSub(LShr(Wrap32(s), 16), 32768))
  }

  /** The sample as it enters the energy. */
  function Scaled(s: Seed): Word16 { Shr(Sample(s), 3) }

  /** The energy of the first n samples behind a seed. */
  function NoiseEnergy(s: Seed, n: nat): Word32 {
    if n == 0 then 0 else LMac0(NoiseEnergy(s, n - 1), Scaled(Draws(s, n)), Scaled(Draws(s, n)))
  }

  // ---- silence needs an unlikely seed ----

  /** The seeds whose sample is too small for the energy. */
  predicate Quiet(s: Seed) { 0x8000_0000 <= s < 0x8008_0000 }

  lemma SampleIs(s: Seed)
    ensures Sample(s) as int == s / 0x1_0000 - 0x8000
  {
    var w: int := Wrap32(s);
    Sixteen();
    assert LShr(w, 16) as int == w / 0x1_0000;
    hide TwoTo;
  }

  lemma Sixteen()
    ensures TwoTo(16) == 0x1_0000 && TwoTo(3) == 8
  {
    assert TwoTo(4) == 16;
    assert TwoTo(8) == 16 * TwoTo(4);
    assert TwoTo(12) == 16 * TwoTo(8);
  }

  lemma QuietIs(s: Seed)
    ensures Scaled(s) == 0 <==> Quiet(s)
    ensures -0x1000 <= Scaled(s) < 0x1000
  {
    SampleIs(s);
    Sixteen();
    hide Sample, TwoTo;
  }

  /** What holds of any three seeds in a row, with the quotients of the two reductions. */
  lemma Combination(s: int, t: int, u: int, q: int, r: int)
    requires t == 1664525 * s + 1013904223 - 0x1_0000_0000 * q
    requires u == 1664525 * t + 1013904223 - 0x1_0000_0000 * r
    ensures 1953 * t - 176 * s + 587 * u
         == 0x1_0000_0000 * (378669 * s - 977078128 * q - 587 * r) + 990664235341913445
  {}

  lemma Reduced(s: Seed) returns (q: int)
    ensures Draw(s) as int == 1664525 * s + 1013904223 - 0x1_0000_0000 * q
  {
    q := (1664525 * s + 1013904223) / 0x1_0000_0000;
  }

  /** The residue of the combination lies outside what three quiet seeds can give. */
  lemma OutOfReach(x: int, k: int)
    requires x == 0x1_0000_0000 * k + 990664235341913445
    ensures !(2364 * 0x8000_0000 - 176 * 0x8_0000 <= x <= 2364 * 0x8000_0000 + 2540 * 0x8_0000)
  {}

  /** No three samples in a row are silent. */
  lemma NeverThreeQuiet(s: Seed)
    ensures !Quiet(s) || !Quiet(Draw(s)) || !Quiet(Draw(Draw(s)))
  {
    var x: int, t: int := s, Draw(s);
    var u: int := Draw(t);
    var q := Reduced(s);
    var r := Reduced(t);
    hide Draw;
    Combination(s, t, u, q, r);
    OutOfReach(1953 * t - 176 * x + 587 * u, 378669 * x - 977078128 * q - 587 * r);
  }

  /** Two in a row can be. */
  lemma TwoQuiet()
    ensures Quiet(2147490780) && Quiet(Draw(2147490780))
  {
    var q := Reduced(2147490780);
  }

  lemma Square(c: Word32, s: Seed)
    requires c >= 0
    ensures LMac0(c, Scaled(s), Scaled(s)) >= c
    ensures !Quiet(s) && c == 0 ==> LMac0(c, Scaled(s), Scaled(s)) > 0
  {
    QuietIs(s);
    var x: int := Scaled(s);
    hide Scaled;
    if x >= 0 { MulNat(x, x, 0x1000, 0x1000); } else { MulNat(-x, -x, 0x1000, 0x1000); MulSigns(x, x); }
    if x > 0 { MulNat(1, x, x, x); }
  }

  lemma {:induction false} EnergyGrows(s: Seed, m: nat, n: nat)
    requires m <= n
    ensures 0 <= NoiseEnergy(s, m) <= NoiseEnergy(s, n)
  {
    hide LMac0, Scaled;
    if n > 0 {
      EnergyGrows(s, if m < n then m else m - 1, n - 1);
      Square(NoiseEnergy(s, n - 1), Draws(s, n));
    }
  }

  /** Main result: from any seed, three or more samples have some energy. */
  lemma NeverSilent(s: Seed, n: nat)
    requires n >= 3
    ensures NoiseEnergy(s, n) > 0
  {
    hide LMac0, Scaled, Quiet, Draw;
    NeverThreeQuiet(Draws(s, 1));
    EnergyGrows(s, 3, n);
    Step(s, 1);
    Step(s, 2);
    Step(s, 3);
  }

  lemma Step(s: Seed, n: nat)
    requires n > 0
    ensures Draws(s, n) == Draw(Draws(s, n - 1))
    ensures NoiseEnergy(s, n) >= NoiseEnergy(s, n - 1) >= 0
    ensures !Quiet(Draws(s, n)) ==> NoiseEnergy(s, n) > 0
  {
    EnergyGrows(s, n - 1, n - 1);
    Square(NoiseEnergy(s, n - 1), Draws(s, n));
    hide LMac0, Scaled, Quiet, Draw;
  }

  /** The loop that draws the excitation of a frame and adds up its energy. */
  method Excite(idum: Seed) returns (r: array<Word16>, E: Word32, next: Seed)
    ensures r.Length == FRSZ && forall n :: 0 <= n < FRSZ ==> r[n] == Sample(Draws(idum, n + 1))
    ensures E == NoiseEnergy(idum, FRSZ) && E > 0 && next == Draws(idum, FRSZ)
  {
    hide LMac0, Draw, Sample, Shr;
    r, E, next := new Word16[FRSZ](_ => 0), 0, idum;
    for n := 0 to FRSZ
      invariant next == Draws(idum, n) && E == NoiseEnergy(idum, n)
      invariant forall k :: 0 <= k < n ==> r[k] == Sample(Draws(idum, k + 1))
    {
      next := Draw(next);
      r[n] := Sample(next);
      var tmp := Shr(r[n], 3);
      E := LMac0(E, tmp, tmp);
    }
    NeverSilent(idum, FRSZ);
  }

  /**
   Main result: after any run of losses and from any seed the scaling of the excitation divides a smaller
   numerator by a positive denominator.
   */
  lemma ScalingAlwaysDivides(s: State, losses: nat, seed: Seed)
    requires Decoded(s)
    ensures var energy, noise := After(s, losses).energy, NoiseEnergy(seed, FRSZ);
      && energy >= 0 && noise > 0
      && 0 <= ExtractH(LShl(energy, NormOf(energy) - 1)) < ExtractH(LShl(noise, NormOf(noise)))
  {
    hide NoiseEnergy, After;
    NeverGrows(s, losses, losses);
    NeverSilent(seed, FRSZ);
    ScalingDivides(After(s, losses).energy, NoiseEnergy(seed, FRSZ));
  }
}
