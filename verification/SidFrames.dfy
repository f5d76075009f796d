/**
 The two bytes of a G.729 SID frame: packed by utils.c, lines 330-337, and again inside dtx.c, lines
 424-430; unpacked by cng.c, lines 316-321.
 */
module SidFrames {

  datatype Sid = Sid(L0: bv8, L1: bv8, L2: bv8, gain: bv8)

  /** The fields fit their widths: 1, 5, 4 and 5 bits. */
  predicate InWidth(p: Sid) {
    p.L0 < 2 && p.L1 < 32 && p.L2 < 16 && p.gain < 32
  }

  /** CNGparametersArray2BitStream. */
  function Pack(p: Sid): (bv8, bv8) {
    (((p.L0 & 0x1) << 7) | ((p.L1 & 0x1f) << 2) | ((p.L2 >> 2) & 0x3), ((p.L2 & 0x3) << 6) | ((p.gain & 0x1f) << 1))
  }

  /** The packer inside encodeSIDFrame: a remainder by three where a mask is meant. */
  function PackInline(p: Sid): (bv8, bv8) {
    (((p.L0 & 0x1) << 7) | ((p.L1 & 0x1f) << 2) | ((p.L2 >> 2) % 3), ((p.L2 & 0x3) << 6) | ((p.gain & 0x1f) << 1))
  }

  function Unpack(b: (bv8, bv8)): Sid {
    Sid((b.0 >> 7) & 0x1, (b.0 >> 2) & 0x1f, ((b.0 & 0x3) << 2) | ((b.1 >> 6) & 0x3), (b.1 >> 1) & 0x1f)
  }

  /** The packer of utils.c loses nothing. */
  lemma RoundTrip(p: Sid)
    requires InWidth(p)
    ensures Unpack(Pack(p)) == p
  {}

  function Number(b: (bv8, bv8)): bv16 { ((b.0 as bv16) << 8) | (b.1 as bv16) }

  /** The two bytes are the four fields side by side, and a zero. */
  lemma PackIsSideBySide(p: Sid)
    requires InWidth(p)
    ensures Number(Pack(p)) == ((p.L0 as bv16) << 15) | ((p.L1 as bv16) << 10) | ((p.L2 as bv16) << 6) | ((p.gain as bv16) << 1)
  {}

  /** The inline packer keeps everything but the second-stage index, and that exactly below 12. */
  lemma InlineRoundTrip(p: Sid)
    requires InWidth(p)
    ensures var q := Unpack(PackInline(p));
      q.L0 == p.L0 && q.L1 == p.L1 && q.gain == p.gain && (q == p <==> p.L2 < 12)
  {}

  /** An index that does not come back. */
  lemma InlinePackerLosesTwelve()
    ensures Unpack(PackInline(Sid(0, 0, 12, 0))).L2 == 0
  {}

  /** The two packers agree exactly where the inline one is right. */
  lemma PackersAgree(p: Sid)
    requires InWidth(p)
    ensures PackInline(p) == Pack(p) <==> p.L2 < 12
  {}
}
