/**
 Discontinuous transmission in G.729 annex B: the noise side of the encoder (dtx.c, lines 103-137,
 201-216 and 263-435), comfort noise in the decoder (cng.c, lines 58-117 and 229-362), and the frame
 control of decoder.c, lines 150-169 and 206-208.
 */
module ComfortNoise {
  import opened Arithmetic
  import opened SidFrames

  // ---- random numbers ----

  const SEED_INIT: Seed := 11111

  type Seed = s: nat | s < 0x1_0000

  /** One draw: the seed times 31821 plus 13849, on 16 bits. */
  function Draw(seed: Seed): Seed { (13849 + seed * 31821) % 0x1_0000 }

  function Draws(seed: Seed, n: nat): Seed {
    if n == 0 then seed else Draw(Draws(seed, n - 1))
  }

  /** 31821 has an inverse modulo 2^16, so a draw can be taken back. */
  function Undo(seed: Seed): Seed { ((seed + 0x1_0000 - 13849) * 7301) % 0x1_0000 }

  lemma UndoDraw(seed: Seed)
    ensures Undo(Draw(seed)) == seed
  {
    var x := 13849 + seed * 31821;
    var q := x / 0x1_0000;
    assert Draw(seed) == x - 0x1_0000 * q;
    assert (Draw(seed) + 0x1_0000 - 13849) * 7301 == seed + 0x1_0000 * (3545 * seed + 7301 * (1 - q));
    Reduce(seed, 3545 * seed + 7301 * (1 - q));
  }

  lemma Reduce(seed: Seed, k: int)
    ensures (seed + 0x1_0000 * k) % 0x1_0000 == seed
  {}

  /** Seeds that differ never meet by drawing: only the reset on a voice frame brings two sides together. */
  lemma {:induction false} SeedsNeverMeet(a: Seed, b: Seed, n: nat)
    ensures Draws(a, n) == Draws(b, n) <==> a == b
  {
    if n > 0 {
      SeedsNeverMeet(a, b, n - 1);
      UndoDraw(Draws(a, n - 1));
      UndoDraw(Draws(b, n - 1));
    }
  }

  const L_SUBFRAME := 40

  /** Random numbers one noise frame uses: for each subframe two for the pulses, one gain, and twelve a sample. */
  const FRAME_DRAWS := 2 * (3 + L_SUBFRAME * 12)

  lemma {:induction false} DrawsAdd(seed: Seed, m: nat, n: nat)
    ensures Draws(Draws(seed, m), n) == Draws(seed, m + n)
  {
    if n > 0 { DrawsAdd(seed, m, n - 1); }
  }

  /** What a subframe takes from its first three numbers. */
  datatype Pulses = Pulses(intDelay: int, fracDelay: int, position: seq<int>, sign: seq<int>, gain: int)

  /** The field of a number that starts at a bit. */
  function Field(x: int, bit: nat, width: nat): int { x / TwoTo(bit) % TwoTo(width) }

  /** The fields of three numbers: the layout of a noise subframe. */
  ghost predicate DrawnFrom(p: Pulses, first: Seed, second: Seed, third: Seed) {
    && |p.position| == |p.sign| == 4
    && p.fracDelay == (if Field(first, 0, 2) == 3 then 0 else Field(first, 0, 2) - 1)
    && p.intDelay == 40 + Field(first, 2, 6)
    && p.position[0] == 5 * Field(first, 8, 3) && p.sign[0] == Field(first, 11, 1)
    && p.position[1] == 5 * Field(first, 12, 3) + 1 && p.sign[1] == Field(first, 15, 1)
    && p.position[2] == 5 * Field(second, 0, 3) + 2 && p.sign[2] == Field(second, 3, 1)
    && p.position[3] == 5 * Field(second, 5, 3) + 3 + Field(second, 4, 1) && p.sign[3] == Field(second, 8, 1)
    && p.gain == 2 * Field(third, 0, 13)
  }

  /** A position on track k of the fixed codebook. */
  predicate OnTrack(position: int, k: nat) { 0 <= position < L_SUBFRAME && position % 5 == k }

  /** The delay is one the adaptive codebook takes, the pulses lie on their tracks, the gain is below a half. */
  ghost predicate Sensible(p: Pulses) {
    && 40 <= p.intDelay <= 103 && -1 <= p.fracDelay <= 1 && 0 <= p.gain < 0x4000 && |p.position| == 4
    && OnTrack(p.position[0], 0) && OnTrack(p.position[1], 1) && OnTrack(p.position[2], 2)
    && (OnTrack(p.position[3], 3) || OnTrack(p.position[3], 4))
  }

  lemma TrackPosition(x: int, k: nat)
    requires 0 <= x < 8 && k < 5
    ensures OnTrack(x * 5 + k, k)
  {}

  /** The powers the fields start at and end below. */
  lemma Powers()
    ensures TwoTo(0) == 1 && TwoTo(1) == 2 && TwoTo(2) == 4 && TwoTo(3) == 8 && TwoTo(4) == 16 && TwoTo(5) == 32 && TwoTo(6) == 64
    ensures TwoTo(8) == 0x100 && TwoTo(11) == 0x800 && TwoTo(12) == 0x1000 && TwoTo(13) == 0x2000 && TwoTo(15) == 0x8000
  {
    assert TwoTo(4) == 16;
    assert TwoTo(8) == 16 * TwoTo(4);
    assert TwoTo(12) == 16 * TwoTo(8);
  }

  /** The fields of the first number, taken off from below. */
  lemma FirstFields(x: Seed)
    ensures Field(x, 0, 2) == x % 4 && Field(x, 2, 6) == x / 4 % 0x40 && Field(x, 8, 3) == x / 4 / 0x40 % 8
    ensures Field(x, 11, 1) == x / 4 / 0x40 / 8 % 2 && Field(x, 12, 3) == x / 4 / 0x40 / 8 / 2 % 8
    ensures Field(x, 15, 1) == x / 4 / 0x40 / 8 / 2 / 8 % 2
  {
    Powers();
    hide TwoTo;
  }

  /** The delay and two pulses from one number. */
  method FirstNumber(random: Seed) returns (delay: int, frac: int, p0: int, s0: int, p1: int, s1: int)
    ensures 40 <= delay <= 103 && -1 <= frac <= 1 && OnTrack(p0, 0) && OnTrack(p1, 1)
    ensures frac == (if Field(random, 0, 2) == 3 then 0 else Field(random, 0, 2) - 1) && delay == 40 + Field(random, 2, 6)
    ensures p0 == 5 * Field(random, 8, 3) && s0 == Field(random, 11, 1) && p1 == 5 * Field(random, 12, 3) + 1 && s1 == Field(random, 15, 1)
  {
    FirstFields(random);
    hide OnTrack, Field;
    var r: int := random;
    frac := r % 4 - 1;
    if frac == 2 { frac := 0; }
    r := r / 4;
    delay := r % 0x40 + 40;
    r := r / 0x40;
    p0 := r % 8 * 5;
    TrackPosition(r % 8, 0);
    r := r / 8;
    s0 := r % 2;
    r := r / 2;
    p1 := r % 8 * 5 + 1;
    TrackPosition(r % 8, 1);
    r := r / 8;
    s1 := r % 2;
  }

  /** Two pulses from the next. */
  method SecondNumber(random: Seed) returns (p2: int, s2: int, p3: int, s3: int)
    ensures OnTrack(p2, 2) && (OnTrack(p3, 3) || OnTrack(p3, 4))
    ensures p2 == 5 * Field(random, 0, 3) + 2 && s2 == Field(random, 3, 1)
    ensures p3 == 5 * Field(random, 5, 3) + 3 + Field(random, 4, 1) && s3 == Field(random, 8, 1)
  {
    Powers();
    hide OnTrack, TwoTo;
    var r: int := random;
    p2 := r % 8 * 5 + 2;
    TrackPosition(r % 8, 2);
    r := r / 8;
    s2 := r % 2;
    r := r / 2;
    var low := r % 2 + 3;
    r := r / 2;
    p3 := low + r % 8 * 5;
    TrackPosition(r % 8, low);
    r := r / 8;
    s3 := r % 2;
  }

  lemma ThreeDraws(seed: Seed)
    ensures Draws(seed, 1) == Draw(seed) && Draws(seed, 2) == Draw(Draw(seed)) && Draws(seed, 3) == Draw(Draw(Draw(seed)))
  {
    hide Draw;
    assert Draws(seed, 0) == seed;
  }

  method DrawPulses(seed: Seed) returns (next: Seed, p: Pulses)
    ensures next == Draws(seed, 3) && Sensible(p) && DrawnFrom(p, Draws(seed, 1), Draws(seed, 2), Draws(seed, 3))
  {
    Powers();
    hide Draw, OnTrack, TwoTo;
    var first, second := Draw(seed), Draw(Draw(seed));
    var delay, frac, p0, s0, p1, s1 := FirstNumber(first);
    var p2, s2, p3, s3 := SecondNumber(second);
    next := Draw(second);
    assert Draws(seed, 1) == first && Draws(seed, 2) == second && Draws(seed, 3) == next by { ThreeDraws(seed); }
    p := Pulses(delay, frac, [p0, p1, p2, p3], [s0, s1, s2, s3], next % 0x2000 * 2);
  }

  /** computeComfortNoiseExcitationVector as far as the seed goes: the signal never decides on a draw. */
  method ComfortNoise(seed: Seed) returns (next: Seed)
    ensures next == Draws(seed, FRAME_DRAWS)
  {
    hide Draw, Sensible;
    next := seed;
    for subframe := 0 to 2
      invariant next == Draws(seed, subframe * (3 + L_SUBFRAME * 12))
    {
      var p;
      DrawsAdd(seed, subframe * (3 + L_SUBFRAME * 12), 3);
      next, p := DrawPulses(next);
      for i := 0 to L_SUBFRAME
        invariant next == Draws(seed, subframe * (3 + L_SUBFRAME * 12) + 3 + 12 * i)
      {
        var sample := 0;
        for j := 0 to 12
          invariant next == Draws(seed, subframe * (3 + L_SUBFRAME * 12) + 3 + 12 * i + j)
          invariant -0x8000 * j <= sample <= 0x7fff * j
        {
          next := Draw(next);
          sample := sample + Wrap16(next);
        }
      }
    }
  }

  // ---- the residual energy ----

  /** The split multiply without rounding: the shifted exact product. */
  function MultQ(a: int, b: int, p: nat): int
    requires p > 0
  {
    a * (b / p) + a * (b % p) / p
  }

  datatype Quantised = Quantised(index: int, logEnergy: int)

  /** residualEnergyQuantization, from the logarithm of the mean energy in Q15 on. */
  function QuantiseEnergy(level: int): Quantised {
    if level < -26214 then Quantised(0, -12)
    else if level < 45875 then
      var a := level + 19661;
      var steps := (if a < 0 then 0 else MultQ(20480, a, 0x2000)) / 0x8000;
      Quantised(1 + steps, -2 + 4 * steps)
    else if level < 216268 then
      var a := level - 49152;
      var steps := (if a < 0 then 0 else MultQ(20480, a, 0x1000)) / 0x8000;
      Quantised(6 + steps, 16 + 2 * steps)
    else Quantised(31, 66)
  }

  /** The decoded energy of an index. */
  function LogOf(index: int): int {
    if index == 0 then -12 else if index < 6 then 4 * index - 6 else 2 * index + 4
  }

  /** The index fits its five bits, grows with the energy, and determines the decoded energy. */
  lemma EnergyIndexFits(level: int, higher: int)
    requires level <= higher
    ensures 0 <= QuantiseEnergy(level).index <= QuantiseEnergy(higher).index <= 31
    ensures QuantiseEnergy(level).logEnergy == LogOf(QuantiseEnergy(level).index)
  {
    StepRange(level);
    StepRange(higher);
  }

  lemma StepRange(level: int)
    ensures var q := QuantiseEnergy(level);
      && (if level < -26214 then q.index == 0 else if level < -19661 then q.index == 1 else
          if level < 45875 then q.index == 1 + (level + 19661) * 5 / 0x1_0000 && 1 <= q.index <= 5 else
          if level < 49152 then q.index == 6 else
          if level < 216268 then q.index == 6 + (level - 49152) * 5 / 0x8000 && 6 <= q.index <= 31 else q.index == 31)
      && q.logEnergy == LogOf(q.index)
  {}

  // ---- both sides ----

  const SID_GAIN: seq<int> := [
    2, 5, 8, 13, 20, 32, 50, 64, 80, 101, 127, 160, 201, 253, 318, 401,
    505, 635, 800, 1007, 1268, 1596, 2010, 2530, 3185, 4009, 5048, 6355, 8000, 10071, 12679, 15962]
  const MAX_GAIN := 15962

  type Gain = g: int | 0 <= g <= MAX_GAIN

  function GainOf(index: int): Gain
    requires 0 <= index < 32
  {
    SID_GAIN[index]
  }

  /** The smoothing of the target gain: seven eighths of the old one, one eighth of the new one. */
  function Smooth(smoothed: Gain, current: Gain): Gain {
    Wrap16(Wrap16(smoothed - smoothed / 8) + current / 8)
  }

  /** To within one, the exact weighted mean; a target that stays is a fixed point. */
  lemma SmoothIs(smoothed: Gain, current: Gain)
    ensures -8 < 8 * Smooth(smoothed, current) - (7 * smoothed + current) < 8
    ensures Smooth(current, current) == current
  {}

  /**
   What the signal says about a frame: the voice decision; for noise the logarithmic mean energy,
   whether the filter has changed, and the indices a SID frame would carry.
   */
  datatype Analysis = Analysis(voice: bool, level: int, filterChanged: bool, L0: bv8, L1: bv8, L2: bv8)

  datatype Packet = Voice | SidFrame(bytes: (bv8, bv8)) | Untransmitted

  datatype Dtx = Dtx(previousVoice: bool, seed: Seed, count: nat, logEnergy: int, currentGain: Gain, smoothedGain: Gain)
  datatype Cng = Cng(previousActive: bool, seed: Seed, receivedGain: Gain, smoothedGain: Gain)

  const DTX_INIT := Dtx(true, SEED_INIT, 0, 0, 0, 0)
  const CNG_INIT := Cng(true, SEED_INIT, 0, 0)

  function Abs(x: int): int { if x < 0 then -x else x }

  /** Whether a noise frame is sent: always after voice, else after three frames if something changed. */
  function SendsSid(s: Dtx, a: Analysis): bool {
    s.previousVoice
    || (s.count + 1 >= 3 && (a.filterChanged || Abs(s.logEnergy - QuantiseEnergy(a.level).logEnergy) > 2))
  }

  function Encode(s: Dtx, a: Analysis): Dtx {
    if a.voice then s.(previousVoice := true, seed := SEED_INIT)
    else
      var sid, q := SendsSid(s, a), QuantiseEnergy(a.level);
      EnergyIndexFits(a.level, a.level);
      var current := if sid then GainOf(q.index) else s.currentGain;
      Dtx(false, Draws(s.seed, FRAME_DRAWS),
          if sid then 0 else if s.count + 1 < 3 then s.count + 1 else 3,
          if sid then q.logEnergy else s.logEnergy,
          current,
          if s.previousVoice then current else Smooth(s.smoothedGain, current))
  }

  function Emit(s: Dtx, a: Analysis): Packet {
    if a.voice then Voice
    else if SendsSid(s, a) then
      EnergyIndexFits(a.level, a.level);
      SidFrame(PackInline(Sid(a.L0, a.L1, a.L2, QuantiseEnergy(a.level).index as bv8)))
    else Untransmitted
  }

  /** The decoder: a frame that is not there continues what came before. */
  function Decode(s: Cng, p: Packet): Cng {
    if p.Voice? || (p.Untransmitted? && s.previousActive) then s.(previousActive := true, seed := SEED_INIT)
    else
      var received := if p.SidFrame? then GainOf(Unpack(p.bytes).gain as int) else s.receivedGain;
      Cng(false, Draws(s.seed, FRAME_DRAWS), received,
          if s.previousActive then received else Smooth(s.smoothedGain, received))
  }

  /** Equal seeds, equal gains, and the same idea of what the previous frame was. */
  predicate InStep(e: Dtx, d: Cng) {
    && e.previousVoice == d.previousActive && e.seed == d.seed
    && e.currentGain == d.receivedGain && e.smoothedGain == d.smoothedGain
  }

  /** The gain index survives the two bytes of a SID frame, whatever happens to the second-stage index. */
  lemma GainIndexSurvives(L0: bv8, L1: bv8, L2: bv8, index: int)
    requires 0 <= index < 32
    ensures Unpack(PackInline(Sid(L0, L1, L2, index as bv8))).gain as int == index
  {
    var g := index as bv8;
    assert g as int == index;
    assert g < 32;
    MaskedGain(L0, L1, L2, g);
  }

  lemma MaskedGain(L0: bv8, L1: bv8, L2: bv8, g: bv8)
    requires g < 32
    ensures Unpack(PackInline(Sid(L0, L1, L2, g))).gain == g
  {}

  lemma FrameInStep(e: Dtx, d: Cng, a: Analysis)
    requires InStep(e, d)
    ensures InStep(Encode(e, a), Decode(d, Emit(e, a)))
  {
    hide Draws, Smooth, QuantiseEnergy, PackInline, Unpack, GainOf;
    EnergyIndexFits(a.level, a.level);
    GainIndexSurvives(a.L0, a.L1, a.L2, QuantiseEnergy(a.level).index);
  }

  // ---- runs ----

  function EncoderAfter(run: seq<Analysis>): Dtx {
    if |run| == 0 then DTX_INIT else Encode(EncoderAfter(run[..|run| - 1]), run[|run| - 1])
  }

  function Sent(run: seq<Analysis>, k: nat): Packet
    requires k < |run|
  {
    Emit(EncoderAfter(run[..k]), run[k])
  }

  function DecoderAfter(run: seq<Analysis>): Cng {
    if |run| == 0 then CNG_INIT else Decode(DecoderAfter(run[..|run| - 1]), Sent(run, |run| - 1))
  }

  /** Main result: for every sequence of voice decisions, seeds and smoothed gains stay equal. */
  lemma {:induction false} RunInStep(run: seq<Analysis>)
    ensures InStep(EncoderAfter(run), DecoderAfter(run))
  {
    hide Encode, Decode, Emit;
    if |run| > 0 {
      RunInStep(run[..|run| - 1]);
      FrameInStep(EncoderAfter(run[..|run| - 1]), DecoderAfter(run[..|run| - 1]), run[|run| - 1]);
    }
  }

  lemma AfterStep(run: seq<Analysis>, k: nat)
    requires k < |run|
    ensures EncoderAfter(run[..k + 1]) == Encode(EncoderAfter(run[..k]), run[k])
    ensures EncoderAfter(run[..k + 1]).previousVoice == run[k].voice
  {
    assert run[..k + 1][..k] == run[..k];
  }

  /** Every burst of noise opens with a SID frame. */
  lemma BurstOpensWithSid(run: seq<Analysis>, k: nat)
    requires k < |run| && !run[k].voice && (k == 0 || run[k - 1].voice)
    ensures Sent(run, k).SidFrame?
  {
    if k > 0 { AfterStep(run, k - 1); }
  }

  /** So the decoder never takes an untransmitted frame for a lost voice frame. */
  lemma NeverMistaken(run: seq<Analysis>, k: nat)
    requires k < |run|
    ensures Sent(run, k).Untransmitted? ==> !DecoderAfter(run[..k]).previousActive
  {
    RunInStep(run[..k]);
    hide QuantiseEnergy;
  }

  /** Between a SID frame and any later noise frame of the burst, the counter counts frames. */
  lemma {:induction false} CountsFrames(run: seq<Analysis>, i: nat, k: nat)
    requires i < k <= |run| && Sent(run, i).SidFrame?
    requires forall n :: i <= n < k ==> !run[n].voice
    ensures EncoderAfter(run[..k]).count <= k - 1 - i
    decreases k
  {
    hide QuantiseEnergy, Draws, Smooth, GainOf;
    AfterStep(run, k - 1);
    if k > i + 1 { CountsFrames(run, i, k - 1); }
  }

  /** Main result: two SID frames of one burst are at least three frames apart. */
  lemma SidFramesApart(run: seq<Analysis>, i: nat, j: nat)
    requires i < j < |run| && Sent(run, i).SidFrame? && Sent(run, j).SidFrame?
    requires forall n :: i <= n <= j ==> !run[n].voice
    ensures j - i >= 3
  {
    hide QuantiseEnergy;
    CountsFrames(run, i, j);
    AfterStep(run, j - 1);
  }

  /** A burst from a SID frame on, with nothing sent before frame k. */
  ghost predicate SilentSince(run: seq<Analysis>, i: nat, k: nat)
    requires i < k <= |run|
  {
    && Sent(run, i).SidFrame? && (forall n :: i <= n < k ==> !run[n].voice)
    && forall n :: i < n < k ==> Sent(run, n).Untransmitted?
  }

  /** Between SID frames the counter counts to three, and the energy kept is that of the last SID frame. */
  lemma {:induction false} KeptSince(run: seq<Analysis>, i: nat, k: nat)
    requires i < k <= |run| && SilentSince(run, i, k)
    ensures var s := EncoderAfter(run[..k]);
      && !s.previousVoice && s.count == (if k - 1 - i < 3 then k - 1 - i else 3)
      && s.logEnergy == QuantiseEnergy(run[i].level).logEnergy
    decreases k
  {
    hide QuantiseEnergy, Draws, Smooth, GainOf, PackInline;
    AfterStep(run, k - 1);
    assert !run[k - 1].voice;
    if k > i + 1 {
      assert Sent(run, k - 1).Untransmitted?;
      KeptSince(run, i, k - 1);
    }
  }

  /**
   Main result: after a SID frame the next one comes exactly when three frames have passed and the filter
   has changed or the decoded energy has moved by more than 2.
   */
  lemma SidExactly(run: seq<Analysis>, i: nat, k: nat)
    requires i < k < |run| && SilentSince(run, i, k) && !run[k].voice
    ensures Sent(run, k).SidFrame? <==>
      k - i >= 3
      && (run[k].filterChanged || Abs(QuantiseEnergy(run[i].level).logEnergy - QuantiseEnergy(run[k].level).logEnergy) > 2)
    ensures Sent(run, k).SidFrame? || Sent(run, k).Untransmitted?
  {
    KeptSince(run, i, k);
    hide QuantiseEnergy, PackInline, EncoderAfter;
  }

  // ---- the contexts of the source ----

  class DtxContext {
    var previousVADflag: bool
    var pseudoRandomSeed: Seed
    var count_fr: nat
    var previousDecodedLogEnergy: int
    var currentSIDGain: Gain
    var smoothedSIDGain: Gain

    function State(): Dtx
      reads this
    {
      Dtx(previousVADflag, pseudoRandomSeed, count_fr, previousDecodedLogEnergy, currentSIDGain, smoothedSIDGain)
    }

    constructor ()
      ensures State() == DTX_INIT
    {
      previousVADflag, pseudoRandomSeed, count_fr := true, SEED_INIT, 0;
      previousDecodedLogEnergy, currentSIDGain, smoothedSIDGain := 0, 0, 0;
    }

    /** encodeSIDFrame, called for every frame; the counter fits its byte. */
    method EncodeSIDFrame(a: Analysis) returns (p: Packet)
      requires count_fr <= 3
      modifies this
      ensures State() == Encode(old(State()), a) && p == Emit(old(State()), a) && count_fr <= 3
    {
      hide Draws, QuantiseEnergy, PackInline;
      if a.voice {
        pseudoRandomSeed := SEED_INIT;
        previousVADflag := true;
        return Voice;
      }
      EnergyIndexFits(a.level, a.level);
      var q := QuantiseEnergy(a.level);
      var sid := false;
      if previousVADflag {
        sid := true;
      } else {
        var flagChang := a.filterChanged;
        if Abs(previousDecodedLogEnergy - q.logEnergy) > 2 { flagChang := true; }
        count_fr := count_fr + 1;
        if count_fr < 3 {
          sid := false;
        } else {
          sid := flagChang;
          count_fr := 3;
        }
      }
      if sid {
        count_fr := 0;
        previousDecodedLogEnergy := q.logEnergy;
        currentSIDGain := SID_GAIN[q.index];
      }
      if previousVADflag {
        smoothedSIDGain := currentSIDGain;
      } else {
        smoothedSIDGain := Smooth(smoothedSIDGain, currentSIDGain);
      }
      pseudoRandomSeed := ComfortNoise(pseudoRandomSeed);
      p := if sid then SidFrame(PackInline(Sid(a.L0, a.L1, a.L2, q.index as bv8))) else Untransmitted;
      previousVADflag := false;
    }
  }

  class CngContext {
    var previousFrameIsActiveFlag: bool
    var CNGpseudoRandomSeed: Seed
    var receivedSIDGain: Gain
    var smoothedSIDGain: Gain

    function State(): Cng
      reads this
    {
      Cng(previousFrameIsActiveFlag, CNGpseudoRandomSeed, receivedSIDGain, smoothedSIDGain)
    }

    constructor ()
      ensures State() == CNG_INIT
    {
      previousFrameIsActiveFlag, CNGpseudoRandomSeed, receivedSIDGain, smoothedSIDGain := true, SEED_INIT, 0, 0;
    }

    /** The frame control of bcg729Decoder; an untransmitted frame arrives as an erased one. */
    method DecodeFrame(p: Packet)
      modifies this
      ensures State() == Decode(old(State()), p)
    {
      hide Draws, Unpack;
      var sidFrameFlag, frameErasureFlag := p.SidFrame?, p.Untransmitted?;
      if frameErasureFlag { sidFrameFlag := !previousFrameIsActiveFlag; }
      if sidFrameFlag {
        DecodeSIDFrame(p, previousFrameIsActiveFlag);
        previousFrameIsActiveFlag := false;
        return;
      }
      previousFrameIsActiveFlag := true;
      CNGpseudoRandomSeed := SEED_INIT;
    }

    /** decodeSIDframe, with or without the two bytes. */
    method DecodeSIDFrame(p: Packet, previousActive: bool)
      requires !p.Voice?
      modifies this`CNGpseudoRandomSeed, this`receivedSIDGain, this`smoothedSIDGain
      ensures CNGpseudoRandomSeed == Draws(old(CNGpseudoRandomSeed), FRAME_DRAWS)
      ensures receivedSIDGain == if p.SidFrame? then GainOf(Unpack(p.bytes).gain as int) else old(receivedSIDGain)
      ensures smoothedSIDGain == if previousActive then receivedSIDGain else Smooth(old(smoothedSIDGain), receivedSIDGain)
    {
      hide Draws;
      if p.SidFrame? { receivedSIDGain := SID_GAIN[((p.bytes.1 >> 1) & 0x1f) as int]; }
      if previousActive {
        smoothedSIDGain := receivedSIDGain;
      } else {
        smoothedSIDGain := Smooth(smoothedSIDGain, receivedSIDGain);
      }
      CNGpseudoRandomSeed := ComfortNoise(CNGpseudoRandomSeed);
    }
  }

  /** A run through the two contexts ends where the lemmas say. */
  method Run(run: seq<Analysis>) returns (encoder: DtxContext, decoder: CngContext)
    ensures encoder.State() == EncoderAfter(run) && decoder.State() == DecoderAfter(run)
    ensures InStep(encoder.State(), decoder.State())
  {
    hide Encode, Decode, Emit, InStep;
    encoder := new DtxContext();
    decoder := new CngContext();
    for k := 0 to |run|
      invariant fresh(encoder) && fresh(decoder) && encoder.count_fr <= 3
      invariant encoder.State() == EncoderAfter(run[..k]) && decoder.State() == DecoderAfter(run[..k])
    {
      assert run[..k + 1][..k] == run[..k];
      var p := encoder.EncodeSIDFrame(run[k]);
      decoder.DecodeFrame(p);
    }
    assert run[..|run|] == run;
    RunInStep(run);
  }
}
