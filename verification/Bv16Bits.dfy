/** The 80 bits of a BroadVoice16 frame: bv16/bitpack.c, lines 67-133 and 175-218. */
module Bv16Bits {

  type Stream = b: seq<bv8> | |b| == 10 witness [0, 0, 0, 0, 0, 0, 0, 0, 0, 0]

  /** Two LSP indices, pitch, pitch taps, gain, and ten excitation vectors. */
  datatype Frame = Frame(
    lsp0: bv32, lsp1: bv32, pitch: bv32, taps: bv32, gain: bv32,
    q0: bv32, q1: bv32, q2: bv32, q3: bv32, q4: bv32, q5: bv32, q6: bv32, q7: bv32, q8: bv32, q9: bv32)

  predicate InWidth(f: Frame) {
    && f.lsp0 < 128 && f.lsp1 < 128 && f.pitch < 128 && f.taps < 32 && f.gain < 16
    && f.q0 < 32 && f.q1 < 32 && f.q2 < 32 && f.q3 < 32 && f.q4 < 32
    && f.q5 < 32 && f.q6 < 32 && f.q7 < 32 && f.q8 < 32 && f.q9 < 32
  }

  // ---- packing: an accumulator that gives away its two upper bytes each time ----

  function Word0(f: Frame): bv32 { (f.lsp0 << 25) | (f.lsp1 << 18) | (f.pitch << 11) }
  function Word1(f: Frame): bv32 { (Word0(f) << 16) | (f.taps << 22) | (f.gain << 18) | (f.q0 << 13) }
  function Word2(f: Frame): bv32 { (Word1(f) << 16) | (f.q1 << 24) | (f.q2 << 19) | (f.q3 << 14) }
  function Word3(f: Frame): bv32 { (Word2(f) << 16) | (f.q4 << 25) | (f.q5 << 20) | (f.q6 << 15) }
  function Word4(f: Frame): bv32 { (Word3(f) << 16) | (f.q7 << 26) | (f.q8 << 21) | (f.q9 << 16) }

  function Upper(w: bv32): bv8 { (w >> 24) as bv8 }
  function Second(w: bv32): bv8 { ((w << 8) >> 24) as bv8 }

  function Pack(f: Frame): Stream {
    [Upper(Word0(f)), Second(Word0(f)), Upper(Word1(f)), Second(Word1(f)), Upper(Word2(f)), Second(Word2(f)),
     Upper(Word3(f)), Second(Word3(f)), Upper(Word4(f)), Second(Word4(f))]
  }

  // ---- unpacking: what is left of a word moves up, and two bytes come in ----

  function Next(rest: bv32, hi: bv8, lo: bv8): bv32 { (((rest << 8) | (hi as bv32)) << 8) | (lo as bv32) }

  function Keep(x: bv32, mask: bv32): bv32 { x & mask }

  function In0(b: Stream): bv32 { Next(0, b[0], b[1]) }
  function In1(b: Stream): bv32 { Next(Keep(In0(b), 0x3), b[2], b[3]) }
  function In2(b: Stream): bv32 { Next(Keep(In1(b), 0x3), b[4], b[5]) }
  function In3(b: Stream): bv32 { Next(Keep(In2(b), 0x7), b[6], b[7]) }
  function In4(b: Stream): bv32 { Next(Keep(In3(b), 0xf), b[8], b[9]) }

  function Fields0(u: bv32): (bv32, bv32) { (u >> 9, (u & 0x1ff) >> 2) }
  function Fields1(u: bv32): (bv32, bv32, bv32) { (u >> 11, (u & 0x7ff) >> 6, (u & 0x3f) >> 2) }
  function Fields2(u: bv32): (bv32, bv32, bv32) { (u >> 13, (u & 0x1fff) >> 8, (u & 0xff) >> 3) }
  function Fields3(u: bv32): (bv32, bv32, bv32) { (u >> 14, (u & 0x3fff) >> 9, (u & 0x1ff) >> 4) }
  function Fields4(u: bv32): (bv32, bv32, bv32, bv32) { (u >> 15, (u & 0x7fff) >> 10, (u & 0x3ff) >> 5, u & 0x1f) }

  function Unpack(b: Stream): Frame {
    var (lsp0, lsp1) := Fields0(In0(b));
    var (pitch, taps, gain) := Fields1(In1(b));
    var (q0, q1, q2) := Fields2(In2(b));
    var (q3, q4, q5) := Fields3(In3(b));
    var (q6, q7, q8, q9) := Fields4(In4(b));
    Frame(lsp0, lsp1, pitch, taps, gain, q0, q1, q2, q3, q4, q5, q6, q7, q8, q9)
  }

  // ---- the round trip, word by word ----

  /** The upper half of a word behind the bits left over. */
  function Glue(rest: bv32, w: bv32): bv32 { (rest << 16) | (w >> 16) }

  lemma BytesOf(rest: bv32, w: bv32)
    ensures Next(rest, Upper(w), Second(w)) == Glue(rest, w)
  {}

  lemma InOfPack(f: Frame)
    ensures var b := Pack(f);
      && In0(b) == Glue(0, Word0(f)) && In1(b) == Glue(Keep(In0(b), 0x3), Word1(f))
      && In2(b) == Glue(Keep(In1(b), 0x3), Word2(f)) && In3(b) == Glue(Keep(In2(b), 0x7), Word3(f))
      && In4(b) == Glue(Keep(In3(b), 0xf), Word4(f))
  {
    hide Next, Word0, Word1, Word2, Word3, Word4, Upper, Second, Keep, Glue;
    var b := Pack(f);
    BytesOf(0, Word0(f));
    BytesOf(Keep(In0(b), 0x3), Word1(f));
    BytesOf(Keep(In1(b), 0x3), Word2(f));
    BytesOf(Keep(In2(b), 0x7), Word3(f));
    BytesOf(Keep(In3(b), 0xf), Word4(f));
  }

  /** What word 0 carries: two fields, the upper two bits of the pitch, and the rest of it below. */
  lemma Stage0(f: Frame)
    requires InWidth(f)
    ensures var u := Glue(0, Word0(f)); Fields0(u) == (f.lsp0, f.lsp1) && Keep(u, 0x3) == f.pitch >> 5
  {}

  lemma Stage1(f: Frame, rest: bv32)
    requires InWidth(f) && rest == f.pitch >> 5
    ensures var u := Glue(rest, Word1(f)); Fields1(u) == (f.pitch, f.taps, f.gain) && Keep(u, 0x3) == f.q0 >> 3
  {}

  lemma Stage2(f: Frame, rest: bv32)
    requires InWidth(f) && rest == f.q0 >> 3
    ensures var u := Glue(rest, Word2(f)); Fields2(u) == (f.q0, f.q1, f.q2) && Keep(u, 0x7) == f.q3 >> 2
  {}

  lemma Stage3(f: Frame, rest: bv32)
    requires InWidth(f) && rest == f.q3 >> 2
    ensures var u := Glue(rest, Word3(f)); Fields3(u) == (f.q3, f.q4, f.q5) && Keep(u, 0xf) == f.q6 >> 1
  {}

  lemma Stage4(f: Frame, rest: bv32)
    requires InWidth(f) && rest == f.q6 >> 1
    ensures var u := Glue(rest, Word4(f)); Fields4(u) == (f.q6, f.q7, f.q8, f.q9)
  {}

  /** Main result: every frame whose indices fit their widths survives its ten bytes. */
  lemma RoundTrip(f: Frame)
    requires InWidth(f)
    ensures Unpack(Pack(f)) == f
  {
    hide Glue, Keep, Fields0, Fields1, Fields2, Fields3, Fields4, Word0, Word1, Word2, Word3, Word4, Pack, InWidth;
    InOfPack(f);
    hide In0, In1, In2, In3, In4;
    var b := Pack(f);
    Stage0(f);
    Stage1(f, Keep(In0(b), 0x3));
    Stage2(f, Keep(In1(b), 0x3));
    Stage3(f, Keep(In2(b), 0x7));
    Stage4(f, Keep(In3(b), 0xf));
  }

  // ---- the layout ----

  function Behind(x: bv80, b: bv8): bv80 { (x << 8) | (b as bv80) }

  /** The ten bytes as one number, the first byte on top. */
  function Number(b: Stream): bv80 {
    Behind(Behind(Behind(Behind(Behind(Behind(Behind(Behind(Behind(b[0] as bv80, b[1]), b[2]), b[3]), b[4]), b[5]), b[6]), b[7]), b[8]), b[9])
  }

  /** The indices side by side: seven, seven, seven, five and four bits, and ten times five. */
  function SideBySide(f: Frame): bv80 {
    ((f.lsp0 as bv80) << 73) | ((f.lsp1 as bv80) << 66) | ((f.pitch as bv80) << 59) | ((f.taps as bv80) << 54) | ((f.gain as bv80) << 50)
    | ((f.q0 as bv80) << 45) | ((f.q1 as bv80) << 40) | ((f.q2 as bv80) << 35) | ((f.q3 as bv80) << 30) | ((f.q4 as bv80) << 25)
    | ((f.q5 as bv80) << 20) | ((f.q6 as bv80) << 15) | ((f.q7 as bv80) << 10) | ((f.q8 as bv80) << 5) | (f.q9 as bv80)
  }

  /** The stream is the indices of the frame side by side, the most significant bit of each first. */
  lemma PackIsSideBySide(f: Frame)
    requires InWidth(f)
    ensures Number(Pack(f)) == SideBySide(f)
  {}
}
