/** The 80 bits of an active G.729 frame and its parity bit: utils.c, lines 79-91 and 280-367. */
module FrameBits {

  const NB_PARAMETERS := 15
  const NB_BYTES := 10

  type Parameters = p: seq<bv16> | |p| == NB_PARAMETERS witness seq(NB_PARAMETERS, _ => 0)
  type Stream = b: seq<bv8> | |b| == NB_BYTES witness seq(NB_BYTES, _ => 0)

  function And(x: bv16, mask: bv16): bv16 { x & mask }

  /** What the widths leave of L0-L3, P1, P0, C1, S1, GA1, GB1, P2, C2, S2, GA2, GB2. */
  function Masked(p: Parameters): Parameters {
    [And(p[0], 0x1), And(p[1], 0x7f), And(p[2], 0x1f), And(p[3], 0x1f), And(p[4], 0xff), And(p[5], 0x1), And(p[6], 0x1fff),
     And(p[7], 0xf), And(p[8], 0x7), And(p[9], 0xf), And(p[10], 0x1f), And(p[11], 0x1fff), And(p[12], 0xf), And(p[13], 0x7),
     And(p[14], 0xf)]
  }

  function Low(x: bv16): bv8 { (x & 0xff) as bv8 }

  function Pack(p: Parameters): Stream {
    [Low(((p[0] & 0x1) << 7) | (p[1] & 0x7f)),
     Low(((p[2] & 0x1f) << 3) | ((p[3] >> 2) & 0x7)),
     Low(((p[3] & 0x3) << 6) | ((p[4] >> 2) & 0x3f)),
     Low(((p[4] & 0x3) << 6) | ((p[5] & 0x1) << 5) | ((p[6] >> 8) & 0x1f)),
     Low(p[6] & 0xff),
     Low(((p[7] & 0xf) << 4) | ((p[8] & 0x7) << 1) | ((p[9] >> 3) & 0x1)),
     Low(((p[9] & 0x7) << 5) | (p[10] & 0x1f)),
     Low((p[11] >> 5) & 0xff),
     Low(((p[11] & 0x1f) << 3) | ((p[12] >> 1) & 0x7)),
     Low(((p[12] & 0x1) << 7) | ((p[13] & 0x7) << 4) | (p[14] & 0xf))]
  }

  function Wide(b: bv8): bv16 { b as bv16 }

  function Unpack(b: Stream): Parameters {
    [(Wide(b[0]) >> 7) & 0x1,
     Wide(b[0]) & 0x7f,
     (Wide(b[1]) >> 3) & 0x1f,
     ((Wide(b[1]) & 0x7) << 2) | ((Wide(b[2]) >> 6) & 0x3),
     ((Wide(b[2]) & 0x3f) << 2) | ((Wide(b[3]) >> 6) & 0x3),
     (Wide(b[3]) >> 5) & 0x1,
     ((Wide(b[3]) & 0x1f) << 8) | Wide(b[4]),
     (Wide(b[5]) >> 4) & 0xf,
     (Wide(b[5]) >> 1) & 0x7,
     ((Wide(b[5]) & 0x1) << 3) | ((Wide(b[6]) >> 5) & 0x7),
     Wide(b[6]) & 0x1f,
     (Wide(b[7]) << 5) | ((Wide(b[8]) >> 3) & 0x1f),
     ((Wide(b[8]) & 0x7) << 1) | ((Wide(b[9]) >> 7) & 0x1),
     (Wide(b[9]) >> 4) & 0x7,
     Wide(b[9]) & 0xf]
  }

  lemma FirstFields(p: Parameters)
    ensures Unpack(Pack(p))[0] == And(p[0], 0x1)
    ensures Unpack(Pack(p))[1] == And(p[1], 0x7f)
  {}

  lemma SecondFields(p: Parameters)
    ensures Unpack(Pack(p))[2] == And(p[2], 0x1f)
    ensures Unpack(Pack(p))[3] == And(p[3], 0x1f)
  {}

  lemma ThirdFields(p: Parameters)
    ensures Unpack(Pack(p))[4] == And(p[4], 0xff)
    ensures Unpack(Pack(p))[5] == And(p[5], 0x1)
  {}

  lemma FourthFields(p: Parameters)
    ensures Unpack(Pack(p))[6] == And(p[6], 0x1fff)
    ensures Unpack(Pack(p))[7] == And(p[7], 0xf)
  {}

  lemma FifthFields(p: Parameters)
    ensures Unpack(Pack(p))[8] == And(p[8], 0x7)
    ensures Unpack(Pack(p))[9] == And(p[9], 0xf)
  {}

  lemma SixthFields(p: Parameters)
    ensures Unpack(Pack(p))[10] == And(p[10], 0x1f)
    ensures Unpack(Pack(p))[11] == And(p[11], 0x1fff)
  {}

  lemma LastFields(p: Parameters)
    ensures Unpack(Pack(p))[12] == And(p[12], 0xf)
    ensures Unpack(Pack(p))[13] == And(p[13], 0x7)
    ensures Unpack(Pack(p))[14] == And(p[14], 0xf)
  {}

  /** Main result on the stream: every parameter comes back modulo its width. */
  lemma UnpackPack(p: Parameters)
    ensures Unpack(Pack(p)) == Masked(p)
  {
    hide Unpack, Pack, And;
    FirstFields(p);
    SecondFields(p);
    ThirdFields(p);
    FourthFields(p);
    FifthFields(p);
    SixthFields(p);
    LastFields(p);
  }

  /** And every stream is the packing of what it unpacks to: no bit of the ten bytes is unused. */
  lemma PackUnpack(b: Stream)
    ensures Pack(Unpack(b)) == b
  {}

  // ---- the layout ----

  function Behind(x: bv80, b: bv8): bv80 { (x << 8) | (b as bv80) }

  /** The ten bytes as one number, the first byte on top. */
  function Number(b: Stream): bv80 {
    Behind(Behind(Behind(Behind(Behind(Behind(Behind(Behind(Behind(b[0] as bv80, b[1]), b[2]), b[3]), b[4]), b[5]), b[6]), b[7]), b[8]), b[9])
  }

  /** The parameters side by side, in their order and each in its width. */
  function SideBySide(p: Parameters): bv80 {
    ((p[0] as bv80) << 79) | ((p[1] as bv80) << 72) | ((p[2] as bv80) << 67) | ((p[3] as bv80) << 62)
    | ((p[4] as bv80) << 54) | ((p[5] as bv80) << 53) | ((p[6] as bv80) << 40) | ((p[7] as bv80) << 36)
    | ((p[8] as bv80) << 33) | ((p[9] as bv80) << 29) | ((p[10] as bv80) << 24) | ((p[11] as bv80) << 11)
    | ((p[12] as bv80) << 7) | ((p[13] as bv80) << 4) | (p[14] as bv80)
  }

  /** The stream is the parameters of the frame side by side, the most significant bit of each first. */
  lemma PackIsSideBySide(p: Parameters)
    ensures Number(Pack(p)) == SideBySide(Masked(p))
  {}

  ghost predicate InWidth(p: Parameters) { Masked(p) == p }

  /** Parameters that fit their widths survive the stream. */
  lemma RoundTrip(p: Parameters)
    requires InWidth(p)
    ensures Unpack(Pack(p)) == p
  {
    UnpackPack(p);
  }

  // ---- parity ----

  function Half(x: bv16): bv16 { x >> 1 }
  function Odd(x: bv16): bool { x & 1 == 1 }
  function Xor(x: bv16, y: bv16): bv16 { x ^ y }

  /** x shifted right by j places. */
  function Shift(x: bv16, j: nat): bv16 {
    if j == 0 then x else Half(Shift(x, j - 1))
  }

  function Bit(x: bv16, j: nat): bool { Odd(Shift(x, j)) }

  /** Whether the first i of the six upper bits hold an odd number of ones. */
  function OddBits(index: bv16, i: nat): bool
    requires i <= 6
  {
    if i == 0 then false else OddBits(index, i - 1) != Bit(index, 2 + i - 1)
  }

  function ParityOf(index: bv16): (r: bv16)
    ensures r == 0 || r == 1
  {
    if OddBits(index, 6) then 0 else 1
  }

  /** computeParity: one, turned over by each of the six bits. */
  method ComputeParity(index: bv16) returns (parity: bv16)
    ensures parity == ParityOf(index)
  {
    hide Odd, Half, Xor;
    parity := 1;
    ShiftTwice(index);
    var rest := index >> 2;
    for i := 0 to 6
      invariant rest == Shift(index, 2 + i)
      invariant parity == if OddBits(index, i) then 0 else 1
    {
      TurnOver(parity, rest);
      parity := Xor(parity, rest & 1);
      rest := Half(rest);
    }
  }

  lemma TurnOver(parity: bv16, rest: bv16)
    requires parity == 0 || parity == 1
    ensures Xor(parity, rest & 1) == if Odd(rest) then (if parity == 0 then 1 else 0) else parity
  {
    assert rest & 1 == 0 || rest & 1 == 1;
  }

  lemma ShiftTwice(x: bv16)
    ensures Shift(x, 2) == x >> 2
  {
    Quarter(x);
    hide Half;
    assert Shift(x, 1) == Half(Shift(x, 0));
  }

  lemma Quarter(x: bv16)
    ensures Half(Half(x)) == x >> 2
  {}

  const ONE_AT: seq<bv16> := [1, 2, 4, 8, 16, 32, 64, 128]

  /** x with bit k turned over. */
  function Flipped(x: bv16, k: nat): bv16
    requires k < 8
  {
    Xor(x, ONE_AT[k])
  }

  /** A single wrong bit of the eight is noticed exactly when it is one of the upper six. */
  lemma ParityDetects(index: bv16, k: nat)
    requires k < 8
    ensures ParityOf(Flipped(index, k)) != ParityOf(index) <==> k >= 2
  {
    FlippedBits(index, k, 6);
  }

  lemma {:induction false} FlippedBits(index: bv16, k: nat, i: nat)
    requires k < 8 && i <= 6
    ensures OddBits(Flipped(index, k), i) != OddBits(index, i) <==> 2 <= k < 2 + i
  {
    hide Bit, Flipped;
    if i > 0 {
      FlippedBits(index, k, i - 1);
      FlippedBit(index, k, 2 + i - 1);
    }
  }

  lemma FlippedBit(index: bv16, k: nat, j: nat)
    requires k < 8 && j < 8
    ensures Bit(Flipped(index, k), j) == if j == k then !Bit(index, j) else Bit(index, j)
  {
    hide Shift, Odd, Half, Xor;
    ShiftOfXor(index, ONE_AT[k], j);
    ShiftOfOne(k, j);
    OddXor(Shift(index, j), Shift(ONE_AT[k], j));
  }

  lemma OddXor(x: bv16, y: bv16)
    ensures Odd(Xor(x, y)) == (Odd(x) != Odd(y))
  {}

  lemma {:induction false} ShiftOfXor(x: bv16, y: bv16, j: nat)
    ensures Shift(Xor(x, y), j) == Xor(Shift(x, j), Shift(y, j))
  {
    hide Half, Xor;
    if j > 0 {
      ShiftOfXor(x, y, j - 1);
      HalfXor(Shift(x, j - 1), Shift(y, j - 1));
    }
  }

  lemma HalfXor(x: bv16, y: bv16)
    ensures Half(Xor(x, y)) == Xor(Half(x), Half(y))
  {}

  lemma {:induction false} ShiftOfOne(k: nat, j: nat)
    requires k < 8
    ensures Shift(ONE_AT[k], j) == if j <= k then ONE_AT[k - j] else 0
    ensures Odd(Shift(ONE_AT[k], j)) <==> j == k
  {
    if j > 0 { ShiftOfOne(k, j - 1); }
  }
}
