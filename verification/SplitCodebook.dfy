/** The indices of the split codebook on the wire: cb_search.c, lines 464-495 and 541-569. */
module SplitCodebook {
  import opened Arithmetic
  import opened BitStream
  import opened ByteBits
  import opened SpeexBuffer
  import opened BeamSearch
  import opened BeamLoops

  /** A codec whose codebook has 2^shapeBits words, as its parameter block says. */
  ghost predicate Coded(c: Codec, shapeBits: nat) {
    WellFormed(c) && c.size == TwoTo(shapeBits) && shapeBits <= 31
  }

  function IndexWidth(c: Codec, shapeBits: nat): nat { shapeBits + if c.haveSign then 1 else 0 }

  /** The bits of a sequence of indices. */
  function Wire(c: Codec, shapeBits: nat, ind: seq<nat>): seq<bool> {
    if |ind| == 0 then [] else Wire(c, shapeBits, ind[..|ind| - 1]) + BitsOf(ind[|ind| - 1], IndexWidth(c, shapeBits))
  }

  /** The reference: the signed codewords side by side, in signal scale. */
  function Innovation(c: Codec, ind: seq<nat>, n: nat): (e: seq<int>)
    requires WellFormed(c) && |ind| == c.nb && InRange(c, ind) && n <= c.nb
    ensures |e| == n * c.sub
  {
    if n == 0 then [] else Innovation(c, ind, n - 1) + Word(c, ind[n - 1])
  }

  function Word(c: Codec, index: nat): (w: seq<int>)
    requires WellFormed(c) && index < Limit(c)
    ensures |w| == c.sub
  {
    seq(c.sub, m requires 0 <= m < c.sub => 512 * Sample(c, index, m))
  }

  /** Sample by sample: the codeword of each index at its place, negated for the upper half of the indices. */
  lemma {:induction false} InnovationAt(c: Codec, ind: seq<nat>, n: nat, s: nat, m: nat)
    requires WellFormed(c) && |ind| == c.nb && InRange(c, ind) && s < n <= c.nb && m < c.sub
    ensures s * c.sub + m < n * c.sub
    ensures var rind := if ind[s] < c.size then ind[s] else ind[s] - c.size;
      && rind * c.sub + m < |c.codebook|
      && Innovation(c, ind, n)[s * c.sub + m] == (if ind[s] < c.size then 512 else -512) * c.codebook[rind * c.sub + m]
  {
    IndexInside(s, n, m, c.sub);
    if s < n - 1 {
      InnovationAt(c, ind, n - 1, s, m);
      hide Word, WellFormed;
      assert Innovation(c, ind, n)[s * c.sub + m] == Innovation(c, ind, n - 1)[s * c.sub + m];
    } else {
      WordSample(c, ind[s], m);
      hide Word, WellFormed;
      assert |Innovation(c, ind, s)| == s * c.sub;
      assert Innovation(c, ind, n)[s * c.sub + m] == Word(c, ind[s])[m];
    }
  }

  lemma WordSample(c: Codec, index: nat, m: nat)
    requires WellFormed(c) && index < Limit(c) && m < c.sub
    ensures var rind := if index < c.size then index else index - c.size;
      && rind * c.sub + m < |c.codebook|
      && Word(c, index)[m] == (if index < c.size then 512 else -512) * c.codebook[rind * c.sub + m]
  {
    IndexInside(if index < c.size then index else index - c.size, c.size, m, c.sub);
  }

  /** The sign is the top bit of a packed index. */
  lemma SignIsTopBit(index: nat, shapeBits: nat)
    requires index < 2 * TwoTo(shapeBits)
    ensures BitsOf(index, shapeBits + 1) == [index >= TwoTo(shapeBits)] + BitsOf(index % TwoTo(shapeBits), shapeBits)
    ensures index % TwoTo(shapeBits) == if index >= TwoTo(shapeBits) then index - TwoTo(shapeBits) else index
  {
    var p := TwoTo(shapeBits);
    if index >= p { DivUnique(index, p, 1, index - p); } else { DivUnique(index, p, 0, index); }
    LowBits(index, shapeBits, shapeBits);
  }

  /** The low bits do not see what is above them. */
  lemma {:induction false} LowBits(d: nat, n: nat, m: nat)
    requires n <= m
    ensures BitsOf(d % TwoTo(m), n) == BitsOf(d, n)
  {
    if n > 0 {
      LowBits(d, n - 1, m);
      SameBit(d, n - 1, m);
    }
  }

  lemma SameBit(d: nat, k: nat, m: nat)
    requires k < m
    ensures d % TwoTo(m) / TwoTo(k) % 2 == d / TwoTo(k) % 2
  {
    PowersAdd(k, m - k - 1);
    SameBitScaled(d, TwoTo(k), TwoTo(m - k - 1));
  }

  lemma SameBitScaled(d: nat, p: nat, q: nat)
    requires p > 0 && q > 0
    ensures 2 * (p * q) > 0 && d % (2 * (p * q)) / p % 2 == d / p % 2
  {
    MulNat(1, 1, p, q);
    var w := 2 * (p * q);
    DivPositive(d, w);
    DivPositive(d % w, p);
    SameBitParts(p, q, d / w, d % w / p, d % w % p);
  }

  lemma SameBitParts(p: nat, q: nat, a: nat, b: nat, s: nat)
    requires p > 0 && s < p
    ensures (2 * (p * q) * a + (p * b + s)) / p % 2 == b % 2
  {
    Regroup(p, q, a, b, s);
    EvenPlus(q * a, b);
    DivUnique(p * (2 * (q * a) + b) + s, p, 2 * (q * a) + b, s);
  }

  lemma Regroup(p: nat, q: nat, a: nat, b: nat, s: nat)
    ensures 2 * (p * q) * a + (p * b + s) == p * (2 * (q * a) + b) + s
    ensures q * a >= 0
  {}

  lemma DivPositive(d: nat, w: nat)
    requires w > 0
    ensures d / w >= 0 && d == w * (d / w) + d % w
  {}

  lemma EvenPlus(x: nat, b: nat)
    ensures (2 * x + b) % 2 == b % 2
  {}

  // ---- the encoder ----

  /** Pack the chosen indices. */
  method PackIndices(c: Codec, shapeBits: nat, ind: seq<nat>, bits: SpeexBits)
    requires Coded(c, shapeBits) && |ind| == c.nb && bits.Writing()
    modifies bits, bits.chars
    ensures bits.Writing() && bits.Stream() == old(bits.Stream()) + Wire(c, shapeBits, ind)
    ensures bits.overflow == old(bits.overflow) && (bits.chars == old(bits.chars) || fresh(bits.chars))
  {
    hide BitsOf, WellFormed;
    ghost var start := bits.Stream();
    WireStart(c, shapeBits, ind, start);
    for i := 0 to c.nb
      invariant bits.Writing() && bits.Stream() == start + Wire(c, shapeBits, ind[..i])
      invariant bits.overflow == old(bits.overflow) && (bits.chars == old(bits.chars) || fresh(bits.chars))
    {
      WireStep(c, shapeBits, ind, i, start);
      bits.Pack(ind[i], shapeBits + if c.haveSign then 1 else 0);
    }
    assert ind[..c.nb] == ind;
  }

  lemma WireStart(c: Codec, shapeBits: nat, ind: seq<nat>, start: seq<bool>)
    ensures start + Wire(c, shapeBits, ind[..0]) == start
  {}

  lemma WireStep(c: Codec, shapeBits: nat, ind: seq<nat>, i: nat, start: seq<bool>)
    requires i < |ind|
    ensures start + Wire(c, shapeBits, ind[..i + 1])
         == (start + Wire(c, shapeBits, ind[..i])) + BitsOf(ind[i], IndexWidth(c, shapeBits))
  {
    hide BitsOf;
    assert ind[..i + 1][..i] == ind[..i];
  }

  /** Write one codeword, negated or not, at its place. */
  method PutWord(c: Codec, e: array<int>, i: nat, rind: nat, negative: bool)
    requires WellFormed(c) && i < c.nb && e.Length == c.nb * c.sub && rind < c.size
    requires negative ==> c.haveSign
    modifies e
    ensures (i + 1) * c.sub <= e.Length && i * c.sub + c.sub == (i + 1) * c.sub
    ensures e[..i * c.sub] == old(e[..i * c.sub])
    ensures e[..(i + 1) * c.sub] == old(e[..i * c.sub]) + Word(c, if negative then rind + c.size else rind)
  {
    hide WellFormed, Word;
    RoomAfter(c, i);
    ghost var w := Word(c, if negative then rind + c.size else rind);
    var base := i * c.sub;
    for j := 0 to c.sub
      invariant forall k :: 0 <= k < base ==> e[k] == old(e[k])
      invariant forall m :: 0 <= m < j ==> e[base + m] == w[m]
    {
      WordAt(c, rind, negative, j);
      var sample := c.codebook[rind * c.sub + j] * 512;
      e[base + j] := if negative then -sample else sample;
    }
    PrefixAndWord(e[..], base, w);
    assert e[..base] == old(e[..base]);
  }

  lemma PrefixAndWord(e: seq<int>, base: nat, w: seq<int>)
    requires base + |w| <= |e| && forall m :: 0 <= m < |w| ==> e[base + m] == w[m]
    ensures e[..base + |w|] == e[..base] + w
  {}

  lemma WordAt(c: Codec, rind: nat, negative: bool, j: nat)
    requires WellFormed(c) && rind < c.size && (negative ==> c.haveSign) && j < c.sub
    ensures rind * c.sub + j < |c.codebook|
    ensures var sample := 512 * c.codebook[rind * c.sub + j];
      Word(c, if negative then rind + c.size else rind)[j] == if negative then -sample else sample
  {
    IndexInside(rind, c.size, j, c.sub);
    MulSigns(512, c.codebook[rind * c.sub + j]);
  }

  /** The encoder's innovation from its indices. */
  method EncoderInnovation(c: Codec, ind: seq<nat>) returns (e: array<int>)
    requires WellFormed(c) && |ind| == c.nb && InRange(c, ind)
    ensures fresh(e) && e[..] == Innovation(c, ind, c.nb)
  {
    hide WellFormed, Word;
    e := new int[c.nb * c.sub];
    for i := 0 to c.nb
      invariant i * c.sub <= e.Length && e[..i * c.sub] == Innovation(c, ind, i)
    {
      var rind, negative := ind[i], false;
      if rind >= c.size {
        negative := true;
        rind := rind - c.size;
      }
      PutWord(c, e, i, rind, negative);
    }
    assert e[..] == e[..c.nb * c.sub];
  }

  // ---- the decoder ----

  /** One index off the wire: its sign bit, then its shape bits. */
  method UnpackIndex(c: Codec, shapeBits: nat, bits: SpeexBits, ghost index: nat, ghost rest: seq<bool>)
    returns (sign: bool, ind: nat)
    requires Coded(c, shapeBits) && index < Limit(c) && bits.Reading() && !bits.overflow
    requires bits.Unread() == BitsOf(index, IndexWidth(c, shapeBits)) + rest
    modifies bits`charPtr, bits`bitPtr, bits`overflow
    ensures bits.Reading() && !bits.overflow && bits.Unread() == rest
    ensures sign == (index >= c.size) && ind == if sign then index - c.size else index
  {
    hide BitsOf, ValueOf, WellFormed;
    sign := false;
    SmallIndex(index, shapeBits);
    if c.haveSign {
      SignIsTopBit(index, shapeBits);
      assert bits.Unread() == [index >= c.size] + (BitsOf(index % TwoTo(shapeBits), shapeBits) + rest);
      TakeFront([index >= c.size], BitsOf(index % TwoTo(shapeBits), shapeBits) + rest);
      ValueOfOne(index >= c.size);
      var s := bits.UnpackUnsigned(1);
      sign := s != 0;
    }
    TakeFront(BitsOf(index % TwoTo(shapeBits), shapeBits), rest);
    ValueOfBits(index % TwoTo(shapeBits), shapeBits);
    ind := bits.UnpackUnsigned(shapeBits);
    SmallIndex(ind, shapeBits);
    SmallIndex(index % TwoTo(shapeBits), shapeBits);
  }

  lemma SmallIndex(d: nat, n: nat)
    ensures d < TwoTo(n) ==> d % TwoTo(n) == d
    ensures 0 <= d % TwoTo(n) < TwoTo(n)
  {
    hide TwoTo;
    if d < TwoTo(n) { DivUnique(d, TwoTo(n), 0, d); }
  }

  lemma TakeFront(a: seq<bool>, b: seq<bool>)
    ensures (a + b)[..|a|] == a && (a + b)[|a|..] == b
  {}

  /** What is still on the wire from index i on. */
  function WireFrom(c: Codec, shapeBits: nat, ind: seq<nat>, i: nat, rest: seq<bool>): seq<bool>
    requires i <= |ind|
    decreases |ind| - i
  {
    if i == |ind| then rest else BitsOf(ind[i], IndexWidth(c, shapeBits)) + WireFrom(c, shapeBits, ind, i + 1, rest)
  }

  lemma {:induction false} WireSplits(c: Codec, shapeBits: nat, ind: seq<nat>, i: nat, rest: seq<bool>)
    requires i <= |ind|
    ensures Wire(c, shapeBits, ind) + rest == Wire(c, shapeBits, ind[..i]) + WireFrom(c, shapeBits, ind, i, rest)
    decreases |ind| - i
  {
    hide BitsOf;
    if i == |ind| {
      assert ind[..i] == ind;
    } else {
      WireSplits(c, shapeBits, ind, i + 1, rest);
      WireStep(c, shapeBits, ind, i, []);
      Regrouped(Wire(c, shapeBits, ind[..i + 1]), Wire(c, shapeBits, ind[..i]), BitsOf(ind[i], IndexWidth(c, shapeBits)),
                WireFrom(c, shapeBits, ind, i + 1, rest));
    }
  }

  lemma Regrouped(x: seq<bool>, a: seq<bool>, b: seq<bool>, r: seq<bool>)
    requires [] + x == ([] + a) + b
    ensures x + r == a + (b + r)
  {
    assert [] + x == x && [] + a == a;
    assert a + (b + r) == (a + b) + r;
  }

  ghost predicate AllSplit(c: Codec, ind: seq<nat>, signs: seq<bool>, indices: seq<nat>)
    requires |signs| == |indices| <= |ind|
  {
    forall k :: 0 <= k < |signs| ==> Split(c, ind[k], signs[k], indices[k])
  }

  /** The loop that takes all signs and indices off the wire. */
  method UnpackIndices(c: Codec, shapeBits: nat, bits: SpeexBits, ghost ind: seq<nat>, ghost rest: seq<bool>)
    returns (signs: seq<bool>, indices: seq<nat>)
    requires Coded(c, shapeBits) && |ind| == c.nb && InRange(c, ind)
    requires bits.Reading() && !bits.overflow && bits.Unread() == Wire(c, shapeBits, ind) + rest
    modifies bits`charPtr, bits`bitPtr, bits`overflow
    ensures bits.Reading() && !bits.overflow && bits.Unread() == rest
    ensures |signs| == |indices| == c.nb && AllSplit(c, ind, signs, indices)
  {
    hide WellFormed, BitsOf, Wire;
    indices, signs := [], [];
    StartOfWire(c, shapeBits, ind, rest);
    for i := 0 to c.nb
      invariant |signs| == |indices| == i && AllSplit(c, ind, signs, indices)
      invariant bits.Reading() && !bits.overflow && bits.Unread() == WireFrom(c, shapeBits, ind, i, rest)
    {
      var sign, index := UnpackIndex(c, shapeBits, bits, ind[i], WireFrom(c, shapeBits, ind, i + 1, rest));
      signs, indices := signs + [sign], indices + [index];
    }
  }

  /** The loop that puts the codewords back together. */
  method Rebuild(c: Codec, signs: seq<bool>, indices: seq<nat>, ghost ind: seq<nat>) returns (exc: array<int>)
    requires WellFormed(c) && |ind| == c.nb && InRange(c, ind)
    requires |signs| == |indices| == c.nb && AllSplit(c, ind, signs, indices)
    ensures fresh(exc) && exc[..] == Innovation(c, ind, c.nb)
  {
    hide WellFormed, Word;
    exc := new int[c.nb * c.sub];
    for i := 0 to c.nb
      invariant i * c.sub <= exc.Length && exc[..i * c.sub] == Innovation(c, ind, i)
    {
      assert Split(c, ind[i], signs[i], indices[i]);
      PutWord(c, exc, i, indices[i], signs[i]);
    }
    assert exc[..] == exc[..c.nb * c.sub];
  }

  /**
   Main result: whatever the indices, the decoder rebuilds the innovation of the encoder from the
   wire and leaves the reader behind it.
   */
  method DecoderInnovation(c: Codec, shapeBits: nat, bits: SpeexBits, ghost ind: seq<nat>, ghost rest: seq<bool>)
    returns (exc: array<int>)
    requires Coded(c, shapeBits) && |ind| == c.nb && InRange(c, ind)
    requires bits.Reading() && !bits.overflow && bits.Unread() == Wire(c, shapeBits, ind) + rest
    modifies bits`charPtr, bits`bitPtr, bits`overflow
    ensures bits.Reading() && !bits.overflow && bits.Unread() == rest
    ensures fresh(exc) && exc[..] == Innovation(c, ind, c.nb)
  {
    hide Wire, WellFormed;
    var signs, indices := UnpackIndices(c, shapeBits, bits, ind, rest);
    exc := Rebuild(c, signs, indices, ind);
  }

  lemma StartOfWire(c: Codec, shapeBits: nat, ind: seq<nat>, rest: seq<bool>)
    ensures Wire(c, shapeBits, ind) + rest == WireFrom(c, shapeBits, ind, 0, rest)
  {
    hide BitsOf;
    WireSplits(c, shapeBits, ind, 0, rest);
    WireStart(c, shapeBits, ind, []);
    Nothing(Wire(c, shapeBits, ind[..0]));
    Nothing(WireFrom(c, shapeBits, ind, 0, rest));
  }

  lemma Nothing(x: seq<bool>)
    ensures [] + x == x
  {}

  predicate Split(c: Codec, index: nat, sign: bool, ind: nat) {
    && sign == (index >= c.size)
    && ind == if sign then index - c.size else index
  }

  /** The sending side of a subframe: search, pack, write. */
  method Send(c: Codec, shapeBits: nat, target: array<int>) returns (e: array<int>, bytes: seq<bv8>)
    requires Coded(c, shapeBits) && target.Length == c.nb * c.sub
    ensures |Run(c, target[..], c.nb).paths| == c.N
    ensures var ind := Run(c, target[..], c.nb).paths[0];
      && |ind| == c.nb && InRange(c, ind) && e[..] == Innovation(c, ind, c.nb)
      && Bits(bytes) == Wire(c, shapeBits, ind) + Terminator(|Wire(c, shapeBits, ind)|)
  {
    hide WellFormed, Wire, Word, Bits, BitAt, Run, Terminator, Innovation;
    var ind := SplitCbSearchShapeSign(c, target);
    RunShaped(c, target[..]);
    var writer := new SpeexBits();
    PackIndices(c, shapeBits, ind, writer);
    ghost var stream := writer.Stream();
    assert stream == Wire(c, shapeBits, ind) by { Nothing(Wire(c, shapeBits, ind)); }
    bytes := writer.Write(writer.ByteCount());
    WholeStream(stream, Bits(bytes), 8 * |bytes|);
    e := EncoderInnovation(c, ind);
  }

  /** A subframe from the search to the other side: the two innovations are the same. */
  method SubframeAgrees(c: Codec, shapeBits: nat, target: array<int>) returns (e: array<int>, exc: array<int>)
    requires Coded(c, shapeBits) && target.Length == c.nb * c.sub
    ensures e[..] == exc[..] == Innovation(c, Run(c, target[..], c.nb).paths[0], c.nb)
  {
    hide WellFormed, Wire, Word, Bits, BitAt, Run, Terminator, Innovation;
    var bytes;
    e, bytes := Send(c, shapeBits, target);
    RunShaped(c, target[..]);
    ghost var ind := Run(c, target[..], c.nb).paths[0];
    var reader := new SpeexBits();
    reader.ReadFrom(bytes);
    exc := DecoderInnovation(c, shapeBits, reader, ind, Terminator(|Wire(c, shapeBits, ind)|));
  }

  lemma RunShaped(c: Codec, target: seq<int>)
    requires WellFormed(c) && |target| == c.nb * c.sub
    ensures var p := Run(c, target, c.nb).paths;
      |p| == c.N >= 2 && |p[0]| == c.nb && InRange(c, p[0])
  {}

  lemma WholeStream(stream: seq<bool>, written: seq<bool>, n: nat)
    requires n == |written| <= |Terminated(stream)| && written == Terminated(stream)[..n] && 8 * ((|stream| + 7) / 8) <= n
    ensures written == stream + Terminator(|stream|)
  {}
}
