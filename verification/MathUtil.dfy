/** The table-driven log2 and 2^x of mathutil.c. */
module MathUtil {
  import opened Arithmetic
  import opened BasicOps

  function TabPowLow(): (t: seq<Word16>)
    ensures |t| == 33
  {
    [16384, 16562, 16743, 16925, 17109, 17296, 17484, 17674, 17867,
     18061, 18258, 18457, 18658, 18861, 19066, 19274, 19484, 19696,
     19911, 20127, 20347, 20568, 20792, 21019, 21247, 21479, 21713,
     21949, 22188, 22430, 22674, 22921, 23170]
  }

  function TabPowHigh(): (t: seq<Word16>)
    ensures |t| == 32
  {
    [23423, 23678, 23936, 24196, 24460, 24726, 24995, 25268, 25543,
     25821, 26102, 26386, 26674, 26964, 27258, 27554, 27855, 28158,
     28464, 28774, 29088, 29405, 29725, 30048, 30376, 30706, 31041,
     31379, 31720, 32066, 32415, 32767]
  }

  function TabPow(): (t: seq<Word16>)
    ensures |t| == 65
  {
    hide TabPowLow, TabPowHigh;
    TabPowLow() + TabPowHigh()
  }

  function TabLogLow(): (t: seq<Word16>)
    ensures |t| == 33
  {
    [0, 733, 1455, 2166, 2866, 3556, 4236, 4907, 5568,
     6220, 6863, 7498, 8124, 8742, 9352, 9954, 10549, 11136,
     11716, 12289, 12855, 13415, 13968, 14514, 15055, 15589, 16117,
     16639, 17156, 17667, 18173, 18673, 19168]
  }

  function TabLogHigh(): (t: seq<Word16>)
    ensures |t| == 32
  {
    [19658, 20143, 20623, 21098, 21568, 22034, 22495, 22952, 23404,
     23852, 24296, 24736, 25172, 25604, 26031, 26455, 26876, 27292,
     27705, 28114, 28520, 28922, 29321, 29717, 30109, 30498, 30884,
     31267, 31647, 32024, 32397, 32767]
  }

  function TabLog(): (t: seq<Word16>)
    ensures |t| == 65
  {
    hide TabLogLow, TabLogHigh;
    TabLogLow() + TabLogHigh()
  }

  /** 2^(whole + fraction / 2^15), by interpolation between table entries. */
  function Pow2(whole: Word16, fraction: Word16): Word32
    requires 0 <= fraction
  {
    hide TabPow, LShrR, LMac;
    var i := fraction / 512;
    var sub: Word16 := fraction % 512 * 64;
    var base := TabPow()[i];
    LShrR(LMac(DepositH(base), sub, Sub(TabPow()[i + 1], base)), Sub(30, whole))
  }

  /** log2 of a positive word as a whole part and a Q15 fraction; (0, 0) for anything else. */
  function Log2(x: Word32): (Word16, Word16) {
    if x <= 0 then (0, 0)
    else
      hide TabLog, LMac;
      var e := NormL(x);
      NormBound(x);
      var m := Sat32(x * TwoTo(e)) - 0x4000_0000;
      var a := m / 256;
      var i := a / 0x1_0000;
      var sub: Word16 := a % 0x1_0000 / 2;
      var base := TabLog()[i];
      (Sub(30, e), IntRound(LMac(DepositH(base), sub, Sub(TabLog()[i + 1], base))))
  }

  lemma {:induction false} NormBound(x: Word32)
    requires x > 0
    ensures NormL(x) <= 30
  {
    if NormL(x) > 30 {
      PowersGrow(31, NormL(x));
      MulNat(1, TwoTo(31), x, TwoTo(NormL(x)));
      PowerOfTwo31();
    }
  }

  lemma PowerOfTwo31()
    ensures TwoTo(31) == 0x8000_0000
  {
    assert TwoTo(8) == 256 by { assert TwoTo(4) == 16; }
    assert TwoTo(16) == 0x1_0000 by { assert TwoTo(12) == 0x1000; }
    assert TwoTo(24) == 0x100_0000 by { assert TwoTo(20) == 0x10_0000; }
    assert TwoTo(28) == 0x1000_0000;
  }
}
