/**
 The fixed codebook vector on both sides: fixedCodebookSearch.c, lines 204-218, and
 decodeFixedCodeVector.c, lines 35-71.
 */
module FixedVector {
  import opened Arithmetic
  import opened IndexCoding

  function At(p: Pulses, k: nat): int
    requires k < 4
  {
    if k == 0 then p.i0 else if k == 1 then p.i1 else if k == 2 then p.i2 else p.i3
  }

  /** The height of pulse k, in Q13. */
  function Height(p: Pulses, k: nat): int
    requires k < 4
  {
    if (if k == 0 then p.s0 else if k == 1 then p.s1 else if k == 2 then p.s2 else p.s3) then 8192 else -8192
  }

  /** The first k pulses. */
  function Bare(p: Pulses, k: nat, i: int): int
    requires k <= 4
  {
    if k == 0 then 0 else if i == At(p, k - 1) then Height(p, k - 1) else Bare(p, k - 1, i)
  }

  /** What the encoder adds for a value one delay back: the product truncated. */
  function EncoderEcho(v: int, gain: int): int { v * gain / 0x4000 }

  /** What the decoder adds: the product rounded. */
  function DecoderEcho(v: int, gain: int): int { (v * gain + 0x2000) / 0x4000 }

  function EncoderValue(p: Pulses, delay: int, gain: int, i: nat): int
    requires delay >= 1
  {
    if i < delay then Bare(p, 4, i)
    else Wrap16(Bare(p, 4, i) + EncoderEcho(EncoderValue(p, delay, gain, i - delay), gain))
  }

  function DecoderValue(p: Pulses, delay: int, gain: int, i: nat): int
    requires delay >= 1
  {
    if i < delay then Bare(p, 4, i)
    else Wrap16(Bare(p, 4, i) + DecoderEcho(DecoderValue(p, delay, gain, i - delay), gain))
  }

  /** Delays of a subframe and more leave the four bare pulses on both sides. */
  lemma LongDelaysAgree(p: Pulses, delay: int, e: int, d: int)
    requires delay >= L_SUBFRAME
    ensures forall i :: 0 <= i < L_SUBFRAME ==> EncoderValue(p, delay, e, i) == Bare(p, 4, i) == DecoderValue(p, delay, d, i)
  {}

  type Gain = g: int | -0x8000 <= g < 0x8000

  /** The echo of a pulse on both sides: half the gain, rounded down, and half the gain rounded. */
  ghost predicate EchoesAgree(p: Pulses, k: nat, e: Gain, d: Gain)
    requires k < 4
  {
    if Height(p, k) > 0 then e / 2 == (d + 1) / 2 else (0 - e) / 2 == (0 - d + 1) / 2
  }

  lemma EchoOfPulse(p: Pulses, k: nat, e: Gain, d: Gain)
    requires k < 4
    ensures EncoderEcho(Height(p, k), e) == DecoderEcho(Height(p, k), d) <==> EchoesAgree(p, k, e, d)
    ensures -0x4000 <= EncoderEcho(Height(p, k), e) <= 0x4000 && -0x4000 <= DecoderEcho(Height(p, k), d) <= 0x4000
  {
    HalfOf(e);
    HalfOf(d);
  }

  lemma HalfOf(g: int)
    ensures 8192 * g / 0x4000 == g / 2 && -8192 * g / 0x4000 == (0 - g) / 2
    ensures (8192 * g + 0x2000) / 0x4000 == (g + 1) / 2 && (-8192 * g + 0x2000) / 0x4000 == (0 - g + 1) / 2
  {}

  lemma {:induction false} BareIsPulse(p: Pulses, n: nat, i: int) returns (k: nat)
    requires n <= 4
    ensures k <= n
    ensures if k == n then Bare(p, n, i) == 0 else i == At(p, k) && Bare(p, n, i) == Height(p, k)
  {
    if n == 0 {
      k := 0;
    } else if i == At(p, n - 1) {
      k := n - 1;
    } else {
      k := BareIsPulse(p, n - 1, i);
      if k == n - 1 { k := n; }
    }
  }

  lemma {:induction false} PulseIsBare(p: Pulses, n: nat, k: nat)
    requires OnTracks(p) && k < n <= 4
    ensures Bare(p, n, At(p, k)) == Height(p, k)
  {
    DifferentTracks(p);
    hide OnTracks;
    if k < n - 1 { PulseIsBare(p, n - 1, k); }
  }

  lemma DifferentTracks(p: Pulses)
    requires OnTracks(p)
    ensures forall k, j {:trigger At(p, k), At(p, j)} :: 0 <= k < 4 && 0 <= j < 4 && At(p, k) == At(p, j) ==> k == j
  {}

  /** A value at least one delay in, on both sides, in terms of the bare pulses. */
  lemma OneEcho(p: Pulses, delay: int, e: Gain, d: Gain, i: nat)
    requires 20 <= delay <= i < L_SUBFRAME
    ensures EncoderValue(p, delay, e, i) == Bare(p, 4, i) + EncoderEcho(Bare(p, 4, i - delay), e)
    ensures DecoderValue(p, delay, d, i) == Bare(p, 4, i) + DecoderEcho(Bare(p, 4, i - delay), d)
  {
    var k := BareIsPulse(p, 4, i - delay);
    var _ := BareIsPulse(p, 4, i);
    if k < 4 { EchoOfPulse(p, k, e, d); }
    hide Bare;
  }

  ghost predicate SameVectors(p: Pulses, delay: int, e: Gain, d: Gain)
    requires delay >= 1
  {
    forall i: nat :: i < L_SUBFRAME ==> EncoderValue(p, delay, e, i) == DecoderValue(p, delay, d, i)
  }

  /** The echoes of every pulse that is repeated inside the subframe. */
  ghost predicate SameEchoes(p: Pulses, delay: int, e: Gain, d: Gain) {
    forall k: nat :: k < 4 && At(p, k) + delay < L_SUBFRAME ==> EchoesAgree(p, k, e, d)
  }

  lemma SameVectorsSameEchoes(p: Pulses, delay: int, e: Gain, d: Gain)
    requires OnTracks(p) && 20 <= delay && SameVectors(p, delay, e, d)
    ensures SameEchoes(p, delay, e, d)
  {
    forall k: nat | k < 4 && At(p, k) + delay < L_SUBFRAME
      ensures EchoesAgree(p, k, e, d)
    {
      Located(p, k);
      hide EncoderValue, DecoderValue, EncoderEcho, DecoderEcho, EchoesAgree, Bare, Height, At;
      OneEcho(p, delay, e, d, At(p, k) + delay);
      PulseIsBare(p, 4, k);
      EchoOfPulse(p, k, e, d);
    }
  }

  lemma Located(p: Pulses, k: nat)
    requires OnTracks(p) && k < 4
    ensures 0 <= At(p, k) < L_SUBFRAME
  {}

  lemma SameEchoesSameVectors(p: Pulses, delay: int, e: Gain, d: Gain)
    requires OnTracks(p) && 20 <= delay && SameEchoes(p, delay, e, d)
    ensures SameVectors(p, delay, e, d)
  {
    hide EncoderValue, DecoderValue, EncoderEcho, DecoderEcho, EchoesAgree, Bare, Height, At;
    forall i: nat | i < L_SUBFRAME
      ensures EncoderValue(p, delay, e, i) == DecoderValue(p, delay, d, i)
    {
      if i < delay {
        NoEcho(p, delay, e, d, i);
      } else {
        OneEcho(p, delay, e, d, i);
        var k := BareIsPulse(p, 4, i - delay);
        if k < 4 { EchoOfPulse(p, k, e, d); } else { EchoOfNothing(e, d); }
      }
    }
  }

  /**
   Main result: with the delays the pitch search can choose, whatever the two gains, the vectors of
   the two sides are equal exactly when every pulse that is repeated inside the subframe has the same
   echo on both; from a delay of 40 on there is none.
   */
  lemma VectorsAgree(p: Pulses, delay: int, e: Gain, d: Gain)
    requires OnTracks(p) && 20 <= delay
    ensures SameVectors(p, delay, e, d) <==> SameEchoes(p, delay, e, d)
    ensures delay >= L_SUBFRAME ==> SameVectors(p, delay, e, d)
  {
    if SameVectors(p, delay, e, d) { SameVectorsSameEchoes(p, delay, e, d); }
    if SameEchoes(p, delay, e, d) { SameEchoesSameVectors(p, delay, e, d); }
    if delay >= L_SUBFRAME { LongDelaysAgree(p, delay, e, d); }
  }

  lemma NoEcho(p: Pulses, delay: int, e: Gain, d: Gain, i: nat)
    requires i < delay
    ensures EncoderValue(p, delay, e, i) == DecoderValue(p, delay, d, i)
  {}

  lemma EchoOfNothing(e: Gain, d: Gain)
    ensures EncoderEcho(0, e) == 0 == DecoderEcho(0, d)
  {}

  /** Even with one gain the vectors can differ: an odd gain and a pulse that is repeated. */
  lemma OddGainsDiffer(p: Pulses, delay: int, g: Gain)
    requires OnTracks(p) && 20 <= delay && p.i0 + delay < L_SUBFRAME && g % 2 == 1
    ensures !SameVectors(p, delay, g, g)
  {
    VectorsAgree(p, delay, g, g);
    assert At(p, 0) == p.i0;
    assert !EchoesAgree(p, 0, g, g);
  }

  lemma BareOpening(p: Pulses, i: nat)
    requires p.i0 == 0 && p.i1 == 1 && p.i2 == 2 && p.i3 == 3
    ensures Bare(p, 4, i) == if i < 4 then Height(p, i) else 0
  {
    assert Bare(p, 0, i) == 0;
    assert Bare(p, 1, i) == if i == 0 then Height(p, 0) else 0;
    assert Bare(p, 2, i) == if i < 2 then Height(p, i) else 0;
    assert Bare(p, 3, i) == if i < 3 then Height(p, i) else 0;
  }

  /** With all position bits 0 the pulses open the subframe; a sign bit of 1 is a positive pulse, 0 a negative one. */
  lemma OpeningPulses(signs: int, gain: int, i: nat)
    requires 0 <= signs < 16 && i < L_SUBFRAME
    ensures DecoderValue(DecodePulses(0, signs), L_SUBFRAME, gain, i)
         == if i >= 4 then 0 else if signs / (if i == 0 then 1 else if i == 1 then 2 else if i == 2 then 4 else 8) % 2 == 1 then 8192 else -8192
  {
    var p := DecodePulses(0, signs);
    BareOpening(p, i);
    assert signs / 2 / 2 == signs / 4 && signs / 2 / 2 / 2 == signs / 8;
  }

  // ---- the loops ----

  method SetPulses(p: Pulses, v: array<int>)
    requires OnTracks(p) && v.Length == L_SUBFRAME
    modifies v
    ensures forall i :: 0 <= i < L_SUBFRAME ==> v[i] == Bare(p, 4, i)
  {
    for i := 0 to L_SUBFRAME
      invariant forall j :: 0 <= j < i ==> v[j] == 0
    {
      v[i] := 0;
    }
    for k := 0 to 4
      invariant forall i :: 0 <= i < L_SUBFRAME ==> v[i] == Bare(p, k, i)
    {
      v[At(p, k)] := Height(p, k);
    }
  }

  /** The encoder's vector: four pulses, and the truncated echoes. */
  method EncoderVector(p: Pulses, intPitchDelay: int, gain: Gain) returns (v: array<int>)
    requires OnTracks(p) && intPitchDelay >= 1
    ensures v.Length == L_SUBFRAME && forall i :: 0 <= i < L_SUBFRAME ==> v[i] == EncoderValue(p, intPitchDelay, gain, i)
  {
    hide EncoderEcho;
    v := new int[L_SUBFRAME];
    SetPulses(p, v);
    var i := intPitchDelay;
    while i < L_SUBFRAME
      invariant i >= intPitchDelay
      invariant forall k :: 0 <= k < i && k < L_SUBFRAME ==> v[k] == EncoderValue(p, intPitchDelay, gain, k)
      invariant forall k :: i <= k < L_SUBFRAME ==> v[k] == Bare(p, 4, k)
    {
      v[i] := Wrap16(v[i] + EncoderEcho(v[i - intPitchDelay], gain));
      i := i + 1;
    }
  }

  /** decodeFixedCodeVector: the pulses from their indices, and the rounded echoes. */
  method DecodeFixedCodeVector(signs: int, positions: int, intPitchDelay: int, boundedPitchGain: Gain) returns (v: array<int>)
    requires 0 <= positions < 0x2000 && 0 <= signs < 16 && intPitchDelay >= 1
    ensures v.Length == L_SUBFRAME
    ensures forall i :: 0 <= i < L_SUBFRAME ==> v[i] == DecoderValue(DecodePulses(positions, signs), intPitchDelay, boundedPitchGain, i)
  {
    hide DecoderEcho;
    var p := DecodePulses(positions, signs);
    DecodedOnTracks(positions, signs);
    v := new int[L_SUBFRAME];
    SetPulses(p, v);
    var i := intPitchDelay;
    while i < L_SUBFRAME
      invariant i >= intPitchDelay
      invariant forall k :: 0 <= k < i && k < L_SUBFRAME ==> v[k] == DecoderValue(p, intPitchDelay, boundedPitchGain, k)
      invariant forall k :: i <= k < L_SUBFRAME ==> v[k] == Bare(p, 4, k)
    {
      v[i] := Wrap16(v[i] + DecoderEcho(v[i - intPitchDelay], boundedPitchGain));
      i := i + 1;
    }
  }

  /** Any seventeen bits decode to one pulse a track. */
  lemma DecodedOnTracks(positions: int, signs: int)
    requires 0 <= positions < 0x2000 && 0 <= signs < 16
    ensures OnTracks(DecodePulses(positions, signs))
  {}
}
