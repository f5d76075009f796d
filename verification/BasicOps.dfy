/**
 The ITU-T G.191 basic operators used by BroadVoice16, on 16- and 32-bit words.

 Only their prototypes are in the repository; the definitions follow the Software Tool Library:
 every addition and left shift saturates, every right shift floors.
 */
module BasicOps {
  import opened Arithmetic

  const MAX_16 := 32767
  const MIN_16 := -32768
  const MAX_32 := 0x7fff_ffff
  const MIN_32 := -0x8000_0000

  type Word16 = x: int | MIN_16 <= x <= MAX_16
  type Word32 = x: int | MIN_32 <= x <= MAX_32

  function Sat16(x: int): (r: Word16)
    ensures MIN_16 <= x <= MAX_16 ==> r == x
  {
    if x > MAX_16 then MAX_16 else if x < MIN_16 then MIN_16 else x
  }

  function Sat32(x: int): (r: Word32)
    ensures MIN_32 <= x <= MAX_32 ==> r == x
  {
    if x > MAX_32 then MAX_32 else if x < MIN_32 then MIN_32 else x
  }

  function Add(a: Word16, b: Word16): Word16 { Sat16(a + b) }
  function Sub(a: Word16, b: Word16): Word16 { Sat16(a - b) }
  function Negate(a: Word16): Word16 { Sat16(0 - a) }
  function AbsS(a: Word16): Word16 { Sat16(if a < 0 then 0 - a else a) }
  function Shl(a: Word16, n: nat): Word16 { Sat16(a * TwoTo(n)) }

  function Shr(a: Word16, n: nat): Word16 {
    ShiftBound(a, TwoTo(n));
    a / TwoTo(n)
  }

  function Mult(a: Word16, b: Word16): Word16 { Sat16(a * b / 0x8000) }

  function LAdd(a: Word32, b: Word32): Word32 { Sat32(a + b) }
  function LSub(a: Word32, b: Word32): Word32 { Sat32(a - b) }
  function LMult(a: Word16, b: Word16): Word32 { Sat32(2 * (a * b)) }
  function LMult0(a: Word16, b: Word16): Word32 { Sat32(a * b) }
  function LMac(c: Word32, a: Word16, b: Word16): Word32 { LAdd(c, LMult(a, b)) }
  function LMsu(c: Word32, a: Word16, b: Word16): Word32 { LSub(c, LMult(a, b)) }
  function LMac0(c: Word32, a: Word16, b: Word16): Word32 { LAdd(c, LMult0(a, b)) }

  /** Long shift left; a negative count shifts right. */
  function LShl(a: Word32, n: int): Word32 {
    if n >= 0 then Sat32(a * TwoTo(n))
    else
      ShiftBound(a, TwoTo(-n));
      a / TwoTo(-n)
  }

  function LShr(a: Word32, n: int): Word32 { LShl(a, -n) }

  /** Long shift right with rounding; counts above 31 give zero. */
  function LShrR(a: Word32, n: int): Word32 {
    if n > 31 then 0
    else if n > 0 && a / TwoTo(n - 1) % 2 == 1 then Sat32(LShr(a, n) + 1)
    else LShr(a, n)
  }

  function ExtractH(a: Word32): Word16 { a / 0x1_0000 }

  function ExtractL(a: Word32): Word16 {
    var low := a % 0x1_0000;
    if low > MAX_16 then low - 0x1_0000 else low
  }

  function DepositH(a: Word16): Word32 { a * 0x1_0000 }
  function IntRound(a: Word32): Word16 { ExtractH(LAdd(a, 0x8000)) }

  /** The left shift that normalises a positive word into [2^30, 2^31). */
  function NormL(a: Word32): (n: nat)
    requires a > 0
    ensures 0x4000_0000 <= a * TwoTo(n) <= MAX_32
    decreases 0x4000_0000 - a
  {
    if a >= 0x4000_0000 then 0
    else
      var n := NormL(2 * a);
      assert a * TwoTo(n + 1) == (2 * a) * TwoTo(n);
      1 + n
  }

  /** Fractional division, Q15, truncated; equal operands give the largest word. */
  function DivS(num: Word16, den: Word16): Word16
    requires 0 <= num <= den && 0 < den
  {
    DivBound(num, den);
    if num == den then MAX_16 else num * 0x8000 / den
  }

  /** No product of two words but MIN_16 * MIN_16 leaves the open range of 2^30. */
  lemma ProductRange(a: Word16, b: Word16)
    ensures -0x3fff_8000 <= a * b <= 0x4000_0000
    ensures a != MIN_16 || b != MIN_16 ==> a * b <= 0x3fff_8000
  {
    var x: int, y: int := a, b;
    MulSigns(x, y);
    if x >= 0 {
      if y >= 0 { MulNat(x, y, MAX_16, MAX_16); } else { MulNat(x, -y, MAX_16, 0x8000); }
    } else {
      if y >= 0 { MulNat(-x, y, 0x8000, MAX_16); }
      else if x != MIN_16 { MulNat(-x, -y, MAX_16, 0x8000); }
      else { MulNat(-x, -y, 0x8000, if y == MIN_16 then 0x8000 else MAX_16); }
    }
  }
}
