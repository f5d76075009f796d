/** A whole active G.729 frame from the encoder's choices to the decoder's, over the 80 bits. */
module FrameRoundTrip {
  import opened FrameBits
  import opened IndexCoding
  import opened FixedVector

  // ---- integers as 16-bit words ----

  const DIGITS: seq<bv16> := [0, 1, 2, 3, 4, 5, 6, 7, 8, 9, 10, 11, 12, 13, 14, 15]

  type Digit = d: int | 0 <= d < 16

  function Nibble(d: Digit): bv16 { DIGITS[d] }

  function NibbleValue(b: bv16): Digit {
    if b == 0 then 0 else if b == 1 then 1 else if b == 2 then 2 else if b == 3 then 3
    else if b == 4 then 4 else if b == 5 then 5 else if b == 6 then 6 else if b == 7 then 7
    else if b == 8 then 8 else if b == 9 then 9 else if b == 10 then 10 else if b == 11 then 11
    else if b == 12 then 12 else if b == 13 then 13 else if b == 14 then 14 else 15
  }

  predicate Fits(x: bv16, mask: bv16) { And(x, mask) == x }

  lemma NibbleIsSmall(d: Digit)
    ensures Fits(Nibble(d), 0xf) && NibbleValue(Nibble(d)) == d
    ensures d < 2 ==> Fits(Nibble(d), 1)
  {}

  function Join(a: bv16, b: bv16, c: bv16, d: bv16): bv16 {
    a | (b << 4) | (c << 8) | (d << 12)
  }

  /** The word that holds x, by its hexadecimal digits. */
  function Word(x: int): bv16
    requires 0 <= x < 0x1_0000
  {
    Join(Nibble(x % 16), Nibble(x / 16 % 16), Nibble(x / 16 / 16 % 16), Nibble(x / 16 / 16 / 16 % 16))
  }

  function Part0(w: bv16): bv16 { w & 0xf }
  function Part1(w: bv16): bv16 { (w >> 4) & 0xf }
  function Part2(w: bv16): bv16 { (w >> 8) & 0xf }
  function Part3(w: bv16): bv16 { (w >> 12) & 0xf }

  function Value(w: bv16): int {
    NibbleValue(Part0(w)) + 16 * (NibbleValue(Part1(w)) + 16 * (NibbleValue(Part2(w)) + 16 * NibbleValue(Part3(w))))
  }

  lemma JoinSplits(a: bv16, b: bv16, c: bv16, d: bv16)
    requires Fits(a, 0xf) && Fits(b, 0xf) && Fits(c, 0xf) && Fits(d, 0xf)
    ensures var w := Join(a, b, c, d);
      Part0(w) == a && Part1(w) == b && Part2(w) == c && Part3(w) == d
  {}

  lemma JoinFits(a: bv16, b: bv16, c: bv16, d: bv16)
    requires Fits(a, 0xf) && Fits(b, 0xf) && Fits(c, 0xf) && Fits(d, 0xf)
    ensures b == 0 && c == 0 && d == 0 ==> Fits(Join(a, b, c, d), 0xf)
    ensures Fits(b, 1) && c == 0 && d == 0 ==> Fits(Join(a, b, c, d), 0x1f)
    ensures c == 0 && d == 0 ==> Fits(Join(a, b, c, d), 0xff)
    ensures Fits(d, 1) ==> Fits(Join(a, b, c, d), 0x1fff)
  {}

  lemma WordHolds(x: int)
    requires 0 <= x < 0x1_0000
    ensures Value(Word(x)) == x
    ensures x < 16 ==> Fits(Word(x), 0xf)
    ensures x < 32 ==> Fits(Word(x), 0x1f)
    ensures x < 256 ==> Fits(Word(x), 0xff)
    ensures x < 0x2000 ==> Fits(Word(x), 0x1fff)
  {
    hide Nibble, NibbleValue, Join, Fits, Part0, Part1, Part2, Part3;
    var a, b, c, d := x % 16, x / 16 % 16, x / 16 / 16 % 16, x / 16 / 16 / 16 % 16;
    NibbleIsSmall(a);
    NibbleIsSmall(b);
    NibbleIsSmall(c);
    NibbleIsSmall(d);
    ZeroNibble();
    HexDigits(x);
    JoinSplits(Nibble(a), Nibble(b), Nibble(c), Nibble(d));
    JoinFits(Nibble(a), Nibble(b), Nibble(c), Nibble(d));
  }

  lemma ZeroNibble()
    ensures Nibble(0) == 0
  {}

  lemma HexDigits(x: int)
    requires 0 <= x < 0x1_0000
    ensures x == x % 16 + 16 * (x / 16 % 16 + 16 * (x / 16 / 16 % 16 + 16 * (x / 16 / 16 / 16 % 16)))
    ensures x < 16 ==> x / 16 % 16 == 0
    ensures x < 32 ==> x / 16 % 16 < 2
    ensures x < 256 ==> x / 16 / 16 % 16 == 0 && x / 16 / 16 / 16 % 16 == 0
    ensures x < 0x2000 ==> x / 16 / 16 / 16 % 16 < 2
  {}

  // ---- the frame ----

  /** What the encoder has chosen: delays and pulses of both subframes; LSP and gain indices. */
  datatype Choice = Choice(
    first: Pitch, second: Pitch, pulses1: Pulses, pulses2: Pulses,
    L0: bv16, L1: bv16, L2: bv16, L3: bv16, GA1: bv16, GB1: bv16, GA2: bv16, GB2: bv16)

  predicate PlainInWidth(c: Choice) {
    && Fits(c.L0, 0x1) && Fits(c.L1, 0x7f) && Fits(c.L2, 0x1f) && Fits(c.L3, 0x1f)
    && Fits(c.GA1, 0x7) && Fits(c.GB1, 0xf) && Fits(c.GA2, 0x7) && Fits(c.GB2, 0xf)
  }

  predicate Choosable(c: Choice) {
    && FirstChoice(c.first) && SecondChoice(c.second, c.first.delay) && OnTracks(c.pulses1) && OnTracks(c.pulses2)
    && PlainInWidth(c)
  }

  /** The codes of delays and pulses, and that they fit. */
  datatype Codes = Codes(P1: int, P2: int, C1: int, S1: int, C2: int, S2: int)

  predicate CodesFit(k: Codes) {
    0 <= k.P1 < 256 && 0 <= k.P2 < 32 && 0 <= k.C1 < 0x2000 && 0 <= k.S1 < 16 && 0 <= k.C2 < 0x2000 && 0 <= k.S2 < 16
  }

  function CodesOf(c: Choice): (k: Codes)
    requires Choosable(c)
    ensures CodesFit(k)
    ensures DecodeFirst(k.P1) == c.first && DecodeSecond(k.P2, c.first.delay) == c.second
    ensures DecodePulses(k.C1, k.S1) == c.pulses1 && DecodePulses(k.C2, k.S2) == c.pulses2
  {
    FirstRoundTrip(c.first);
    SecondRoundTrip(c.second, c.first.delay);
    PulsesRoundTrip(c.pulses1);
    PulsesRoundTrip(c.pulses2);
    hide CodeFirst, CodeSecond, CodePositions, CodeSigns, DecodeFirst, DecodeSecond, DecodePulses, OnTracks, PlainInWidth;
    Codes(CodeFirst(c.first), CodeSecond(c.second, SecondRange(c.first.delay)),
          CodePositions(c.pulses1), CodeSigns(c.pulses1), CodePositions(c.pulses2), CodeSigns(c.pulses2))
  }

  function Assemble(c: Choice, P1: bv16, P0: bv16, C1: bv16, S1: bv16, P2: bv16, C2: bv16, S2: bv16): Parameters {
    [c.L0, c.L1, c.L2, c.L3, P1, P0, C1, S1, c.GA1, c.GB1, P2, C2, S2, c.GA2, c.GB2]
  }

  function ParametersOf(c: Choice, k: Codes): Parameters
    requires CodesFit(k)
  {
    Assemble(c, Word(k.P1), ParityOf(Word(k.P1)), Word(k.C1), Word(k.S1), Word(k.P2), Word(k.C2), Word(k.S2))
  }

  lemma AssembledInWidth(c: Choice, P1: bv16, P0: bv16, C1: bv16, S1: bv16, P2: bv16, C2: bv16, S2: bv16)
    requires PlainInWidth(c) && Fits(P1, 0xff) && Fits(P0, 0x1) && Fits(C1, 0x1fff) && Fits(S1, 0xf)
    requires Fits(P2, 0x1f) && Fits(C2, 0x1fff) && Fits(S2, 0xf)
    ensures InWidth(Assemble(c, P1, P0, C1, S1, P2, C2, S2))
  {
    hide And;
  }

  lemma ParametersInWidth(c: Choice, k: Codes)
    requires CodesFit(k) && PlainInWidth(c)
    ensures InWidth(ParametersOf(c, k))
  {
    hide Word, ParityOf, Fits, InWidth, Assemble, PlainInWidth;
    WordHolds(k.P1);
    WordHolds(k.P2);
    WordHolds(k.C1);
    WordHolds(k.S1);
    WordHolds(k.C2);
    WordHolds(k.S2);
    SmallFits(ParityOf(Word(k.P1)));
    AssembledInWidth(c, Word(k.P1), ParityOf(Word(k.P1)), Word(k.C1), Word(k.S1), Word(k.P2), Word(k.C2), Word(k.S2));
  }

  lemma SmallFits(x: bv16)
    requires x == 0 || x == 1
    ensures Fits(x, 0x1)
  {}

  /** What the decoder makes of ten bytes: the parity check, delays and pulses. */
  datatype Received = Received(parityError: bool, first: Pitch, second: Pitch, pulses1: Pulses, pulses2: Pulses)

  function Receive(b: Stream): Received {
    var q := Unpack(b);
    var first := DecodeFirst(Value(q[4]));
    Received((ParityOf(q[4]) ^ q[5]) != 0, first, DecodeSecond(Value(q[10]), first.delay),
             DecodePulses(Value(q[6]), Value(q[7])), DecodePulses(Value(q[11]), Value(q[12])))
  }

  /**
   Main result: every delay pair and every pulse choice the encoder can make crosses the 80 bits with
   equal integer and fractional delays, the same four signed pulses, and no parity error.
   */
  lemma FrameSurvives(c: Choice)
    requires Choosable(c)
    ensures Receive(Pack(ParametersOf(c, CodesOf(c)))) == Received(false, c.first, c.second, c.pulses1, c.pulses2)
  {
    var k := CodesOf(c);
    var p := ParametersOf(c, k);
    ParametersInWidth(c, k);
    RoundTrip(p);
    WordHolds(k.P1);
    WordHolds(k.P2);
    WordHolds(k.C1);
    WordHolds(k.S1);
    WordHolds(k.C2);
    WordHolds(k.S2);
    hide Word, Value, ParityOf, Pack, Unpack, InWidth, DecodeFirst, DecodeSecond, DecodePulses, CodesOf, Choosable;
    NoDifference(ParityOf(Word(k.P1)));
  }

  lemma NoDifference(x: bv16)
    ensures x ^ x == 0
  {}

  /** So with delays of a subframe and more both sides build the same fixed codebook vectors, whatever their gains. */
  lemma VectorsSurvive(c: Choice, e: Gain, d: Gain)
    requires Choosable(c) && c.first.delay >= L_SUBFRAME && c.second.delay >= L_SUBFRAME
    ensures var r := Receive(Pack(ParametersOf(c, CodesOf(c))));
      && r.first == c.first && r.pulses1 == c.pulses1 && SameVectors(r.pulses1, r.first.delay, e, d)
      && r.second == c.second && r.pulses2 == c.pulses2 && SameVectors(r.pulses2, r.second.delay, e, d)
  {
    FrameSurvives(c);
    VectorsAgree(c.pulses1, c.first.delay, e, d);
    VectorsAgree(c.pulses2, c.second.delay, e, d);
    hide SameVectors, Receive, Pack, ParametersOf, CodesOf;
  }
}
