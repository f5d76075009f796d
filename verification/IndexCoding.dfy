/**
 Pitch delays and pulses of an active G.729 frame as indices: adaptativeCodebookSearch.c, lines
 124-146, encoder.c, lines 277-285, decodeAdaptativeCodeVector.c, lines 106-151,
 fixedCodebookSearch.c, lines 204-229, and decodeFixedCodeVector.c, lines 35-71.
 */
module IndexCoding {
  import opened Arithmetic
  import opened FrameBits

  const L_SUBFRAME := 40
  const MAXIMUM_INT_PITCH_DELAY := 143

  // ---- pitch delays ----

  datatype Pitch = Pitch(delay: int, frac: int)
  datatype Range = Range(min: int, max: int)

  /** MULT16_16_Q15 by one third. */
  function Third(x: int): int { x * 10923 / 0x8000 }

  lemma ThirdIsExact(x: int)
    requires 0 <= x <= 300
    ensures Third(x) == x / 3
  {}

  /** The closed-loop range around the open-loop delay. */
  function FirstRange(openLoop: int): Range {
    var low := if openLoop - 3 < 20 then 20 else openLoop - 3;
    if low + 6 > MAXIMUM_INT_PITCH_DELAY then Range(MAXIMUM_INT_PITCH_DELAY - 6, MAXIMUM_INT_PITCH_DELAY)
    else Range(low, low + 6)
  }

  /** The range of the second subframe around the delay of the first. */
  function SecondRange(delay: int): Range {
    var low := if delay - 5 < 20 then 20 else delay - 5;
    if low + 9 > MAXIMUM_INT_PITCH_DELAY then Range(MAXIMUM_INT_PITCH_DELAY - 9, MAXIMUM_INT_PITCH_DELAY)
    else Range(low, low + 9)
  }

  /** What the search can choose in the first subframe: no fraction from 85 on. */
  predicate FirstChoice(p: Pitch) {
    20 <= p.delay <= MAXIMUM_INT_PITCH_DELAY && -1 <= p.frac <= 1 && (p.delay >= 85 ==> p.frac == 0)
  }

  predicate SecondChoice(p: Pitch, first: int) {
    SecondRange(first).min <= p.delay <= SecondRange(first).max && -1 <= p.frac <= 1
  }

  /** The search stays among the delays the index can express. */
  lemma RangesInside(openLoop: int, delay: int)
    requires FirstRange(openLoop).min <= delay <= FirstRange(openLoop).max
    ensures 20 <= delay <= MAXIMUM_INT_PITCH_DELAY
    ensures 20 <= SecondRange(delay).min <= delay <= SecondRange(delay).max <= MAXIMUM_INT_PITCH_DELAY
  {}

  function CodeFirst(p: Pitch): int {
    if p.delay <= 85 then 3 * p.delay - 58 + p.frac else p.delay + 112
  }

  function CodeSecond(p: Pitch, range: Range): int {
    3 * (p.delay - range.min) + p.frac + 2
  }

  function DecodeFirst(P1: int): Pitch {
    if P1 < 197 then
      var delay := Third(P1 + 2) + 19;
      Pitch(delay, P1 - delay * 3 + 58)
    else Pitch(P1 - 112, 0)
  }

  function DecodeSecond(P2: int, first: int): Pitch {
    var low := if first - 5 < 20 then 20 else first - 5;
    var tMin := if low > 134 then 134 else low;
    var step := Third(P2 + 2) - 1;
    Pitch(step + tMin, P2 - step * 3 - 2)
  }

  /** Every choice of the first subframe survives its eight bits. */
  lemma FirstRoundTrip(p: Pitch)
    requires FirstChoice(p)
    ensures 0 <= CodeFirst(p) < 256 && DecodeFirst(CodeFirst(p)) == p
  {
    if p.delay < 85 { ThirdIsExact(CodeFirst(p) + 2); }
  }

  /** Every choice of the second subframe survives its five bits, given the first delay. */
  lemma SecondRoundTrip(p: Pitch, first: int)
    requires 20 <= first <= MAXIMUM_INT_PITCH_DELAY && SecondChoice(p, first)
    ensures 0 <= CodeSecond(p, SecondRange(first)) < 32 && DecodeSecond(CodeSecond(p, SecondRange(first)), first) == p
  {
    ThirdIsExact(CodeSecond(p, SecondRange(first)) + 2);
  }

  /** The other way round: exactly the indices 1 to 255 but 196 stand for a choice, and come back. */
  lemma FirstIndices(P1: int)
    requires 0 <= P1 < 256
    ensures FirstChoice(DecodeFirst(P1)) <==> P1 != 0 && P1 != 196
    ensures P1 != 0 && P1 != 196 ==> CodeFirst(DecodeFirst(P1)) == P1
  {
    if P1 < 197 { ThirdIsExact(P1 + 2); }
  }

  /** Exactly the indices 1 to 30 stand for a choice of the second subframe; 31 can exceed every delay. */
  lemma SecondIndices(P2: int, first: int)
    requires 0 <= P2 < 32 && 20 <= first <= MAXIMUM_INT_PITCH_DELAY
    ensures SecondChoice(DecodeSecond(P2, first), first) <==> 1 <= P2 <= 30
    ensures 1 <= P2 <= 30 ==> CodeSecond(DecodeSecond(P2, first), SecondRange(first)) == P2
  {
    ThirdIsExact(P2 + 2);
  }

  /** The delay of a choice, in thirds of a sample. */
  function InThirds(p: Pitch): int { 3 * p.delay + p.frac }

  /** The codewords of the first subframe number the delays in their order, from 1 on. */
  lemma FirstOrder(p: Pitch, q: Pitch)
    requires FirstChoice(p) && FirstChoice(q)
    ensures CodeFirst(p) < CodeFirst(q) <==> InThirds(p) < InThirds(q)
    ensures CodeFirst(Pitch(20, -1)) == 1
  {}

  /** The codewords of the second subframe number the thirds of its range in their order, from 1 on. */
  lemma SecondOrder(p: Pitch, q: Pitch, first: int)
    requires SecondChoice(p, first) && SecondChoice(q, first)
    ensures CodeSecond(p, SecondRange(first)) - CodeSecond(q, SecondRange(first)) == InThirds(p) - InThirds(q)
    ensures CodeSecond(Pitch(SecondRange(first).min, -1), SecondRange(first)) == 1
  {}

  function Apart(x: int, y: int): nat { if x < y then y - x else x - y }

  /**
   The first range is the seven delays, among those allowed, whose middle is nearest to the open-loop
   delay; the second is the ten delays nearest to five below and four above the first delay.
   */
  lemma RangesAreNearest(openLoop: int, delay: int, low: int)
    ensures FirstRange(openLoop).max == FirstRange(openLoop).min + 6 && SecondRange(delay).max == SecondRange(delay).min + 9
    ensures 20 <= low && low + 6 <= MAXIMUM_INT_PITCH_DELAY ==> Apart(FirstRange(openLoop).min + 3, openLoop) <= Apart(low + 3, openLoop)
    ensures 20 <= low && low + 9 <= MAXIMUM_INT_PITCH_DELAY ==> Apart(SecondRange(delay).min + 5, delay) <= Apart(low + 5, delay)
    ensures 20 <= FirstRange(openLoop).min && FirstRange(openLoop).max <= MAXIMUM_INT_PITCH_DELAY
    ensures 20 <= SecondRange(delay).min && SecondRange(delay).max <= MAXIMUM_INT_PITCH_DELAY
  {}

  /** The last lines of the search: the codeword, and the range of the second subframe. */
  method CodeDelay(p: Pitch, range: Range, firstSubframe: bool) returns (codeword: int, next: Range)
    ensures codeword == if firstSubframe then CodeFirst(p) else CodeSecond(p, range)
    ensures next == if firstSubframe then SecondRange(p.delay) else range
  {
    var min, max := range.min, range.max;
    if firstSubframe {
      min := p.delay - 5;
      if min < 20 { min := 20; }
      max := min + 9;
      if max > MAXIMUM_INT_PITCH_DELAY {
        max := MAXIMUM_INT_PITCH_DELAY;
        min := MAXIMUM_INT_PITCH_DELAY - 9;
      }
      if p.delay <= 85 { codeword := 3 * p.delay - 58 + p.frac; } else { codeword := p.delay + 112; }
    } else {
      codeword := 3 * (p.delay - min) + p.frac + 2;
    }
    next := Range(min, max);
  }

  /** The decoder's side, with the delay it repeats when an index cannot be trusted. */
  class PitchDecoder {
    var previousIntPitchDelay: int

    /** decodeAdaptativeCodeVector up to the delays. */
    method DecodeDelay(firstSubframe: bool, index: int, parityError: bool, erased: bool, intPitchDelay: int) returns (p: Pitch)
      modifies this
      ensures var trusted := !erased && !(firstSubframe && parityError);
        if trusted then
          && p == (if firstSubframe then DecodeFirst(index) else DecodeSecond(index, intPitchDelay))
          && previousIntPitchDelay == p.delay
        else
          && p == Pitch(old(previousIntPitchDelay), 0)
          && previousIntPitchDelay == if old(previousIntPitchDelay) < MAXIMUM_INT_PITCH_DELAY then old(previousIntPitchDelay) + 1
                                      else MAXIMUM_INT_PITCH_DELAY
    {
      var delay, frac := intPitchDelay, 0;
      if (firstSubframe && parityError) || erased {
        delay := previousIntPitchDelay;
        previousIntPitchDelay := previousIntPitchDelay + 1;
        if previousIntPitchDelay > MAXIMUM_INT_PITCH_DELAY { previousIntPitchDelay := MAXIMUM_INT_PITCH_DELAY; }
      } else if firstSubframe {
        if index < 197 {
          delay := Third(index + 2) + 19;
          frac := index - delay * 3 + 58;
        } else {
          delay := index - 112;
        }
        previousIntPitchDelay := delay;
      } else {
        var tMin := intPitchDelay - 5;
        if tMin < 20 { tMin := 20; }
        if tMin > 134 { tMin := 134; }
        delay := Third(index + 2) - 1;
        frac := index - delay * 3 - 2;
        delay := delay + tMin;
        previousIntPitchDelay := delay;
      }
      p := Pitch(delay, frac);
    }
  }

  // ---- pulses ----

  datatype Pulses = Pulses(i0: int, i1: int, i2: int, i3: int, s0: bool, s1: bool, s2: bool, s3: bool)

  /** One pulse on each track; the fourth has two tracks to choose from. */
  predicate OnTracks(p: Pulses) {
    && 0 <= p.i0 < L_SUBFRAME && 0 <= p.i1 < L_SUBFRAME && 0 <= p.i2 < L_SUBFRAME && 0 <= p.i3 < L_SUBFRAME
    && p.i0 % 5 == 0 && p.i1 % 5 == 1 && p.i2 % 5 == 2 && p.i3 % 5 >= 3
  }

  /** MULT16_16_Q15 by one fifth. */
  function Fifth(x: int): int { x * 6554 / 0x8000 }

  lemma FifthIsExact(x: int)
    requires 0 <= x < L_SUBFRAME
    ensures Fifth(x) == x / 5 && 0 <= x / 5 < 8
  {}

  /** The track of the fourth pulse, as the search records it. */
  function Jx(p: Pulses): int { p.i3 % 5 - 3 }

  function CodePositions(p: Pulses): int {
    Fifth(p.i0) + 8 * Fifth(p.i1) + 64 * Fifth(p.i2) + 512 * (2 * Fifth(p.i3) + Jx(p))
  }

  function SignBit(s: bool): int { if s then 1 else 0 }

  function CodeSigns(p: Pulses): int {
    SignBit(p.s0) + 2 * SignBit(p.s1) + 4 * SignBit(p.s2) + 8 * SignBit(p.s3)
  }

  function DecodePulses(positions: int, signs: int): Pulses {
    var q1 := positions / 8;
    var q2 := q1 / 8;
    var q3 := q2 / 8;
    var q4 := q3 / 2;
    Pulses(positions % 8 * 5, q1 % 8 * 5 + 1, q2 % 8 * 5 + 2, q4 % 8 * 5 + 3 + q3 % 2,
           signs % 2 == 1, signs / 2 % 2 == 1, signs / 2 / 2 % 2 == 1, signs / 2 / 2 / 2 % 2 == 1)
  }

  /** Every choice of one pulse a track survives its seventeen bits. */
  lemma PulsesRoundTrip(p: Pulses)
    requires OnTracks(p)
    ensures 0 <= CodePositions(p) < 0x2000 && 0 <= CodeSigns(p) < 16
    ensures DecodePulses(CodePositions(p), CodeSigns(p)) == p
  {
    PositionDigits(p);
    SignDigits(p);
    hide CodePositions, CodeSigns;
    ByFives(p);
  }

  lemma ByFives(p: Pulses)
    requires OnTracks(p)
    ensures p.i0 == p.i0 / 5 * 5 && p.i1 == p.i1 / 5 * 5 + 1 && p.i2 == p.i2 / 5 * 5 + 2 && p.i3 == p.i3 / 5 * 5 + 3 + Jx(p)
  {}

  lemma PositionDigits(p: Pulses)
    requires OnTracks(p)
    ensures var n := CodePositions(p);
      && 0 <= n < 0x2000 && n % 8 == p.i0 / 5 && n / 8 % 8 == p.i1 / 5 && n / 8 / 8 % 8 == p.i2 / 5
      && n / 8 / 8 / 8 % 2 == Jx(p) && n / 8 / 8 / 8 / 2 % 8 == p.i3 / 5
  {
    FifthIsExact(p.i0);
    FifthIsExact(p.i1);
    FifthIsExact(p.i2);
    FifthIsExact(p.i3);
    hide Fifth;
    var a, b, c, d, x := p.i0 / 5, p.i1 / 5, p.i2 / 5, p.i3 / 5, Jx(p);
    TakeDigit(8, a, b + 8 * (c + 8 * (x + 2 * d)));
    TakeDigit(8, b, c + 8 * (x + 2 * d));
    TakeDigit(8, c, x + 2 * d);
    TakeDigit(2, x, d);
  }

  lemma SignDigits(p: Pulses)
    ensures var n := CodeSigns(p);
      && 0 <= n < 16 && n % 2 == SignBit(p.s0) && n / 2 % 2 == SignBit(p.s1)
      && n / 2 / 2 % 2 == SignBit(p.s2) && n / 2 / 2 / 2 % 2 == SignBit(p.s3)
  {}

  lemma TakeDigit(base: int, digit: int, rest: int)
    requires base == 8 || base == 2
    requires 0 <= digit < base && rest >= 0
    ensures (digit + base * rest) % base == digit && (digit + base * rest) / base == rest
  {}
}
