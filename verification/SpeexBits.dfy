/** Single bits of a byte, most significant first. */
module ByteBits {
  import opened Arithmetic
  import opened BitStream

  /** The byte whose only set bit is bit k, counted from the top: 1 << (7 - k). */
  function Mask(k: nat): bv8
    requires k < 8
  {
    match k
    case 0 => 128
    case 1 => 64
    case 2 => 32
    case 3 => 16
    case 4 => 8
    case 5 => 4
    case 6 => 2
    case _ => 1
  }

  predicate BitAt(b: bv8, k: nat)
    requires k < 8
  {
    b & Mask(k) != 0
  }

  function WithBit(b: bv8, k: nat, x: bool): bv8
    requires k < 8
  {
    if x then b | Mask(k) else b
  }

  lemma SetBit(b: bv8, k: nat, x: bool, j: nat)
    requires k < 8 && j < 8
    ensures BitAt(WithBit(b, k, x), j) == (BitAt(b, j) || (j == k && x))
  {
    if j == k {
    } else {
      assert Mask(j) & Mask(k) == 0;
      assert (b | Mask(k)) & Mask(j) == (b & Mask(j)) | (Mask(k) & Mask(j));
    }
  }

  function Clear(n: nat): (c: seq<bool>)
    ensures |c| == n && forall k :: 0 <= k < n ==> !c[k]
  {
    seq(n, _ => false)
  }

  /** The bits of a byte from bit k on. */
  function AheadOf(b: bv8, k: nat): (a: seq<bool>)
    requires k < 8
    ensures |a| == 8 - k
  {
    seq(8 - k, j requires 0 <= j < 8 - k => BitAt(b, k + j))
  }

  lemma NothingAhead(k: nat)
    requires k < 8
    ensures AheadOf(0, k) == Clear(8 - k)
  {
    var a := AheadOf(0, k);
    forall j | 0 <= j < 8 - k
      ensures !a[j]
    {
      ZeroBit(k + j);
    }
  }

  lemma ZeroBit(j: nat)
    requires j < 8
    ensures !BitAt(0, j)
  {}

  /** Setting or keeping bit k leaves the bits before and after it. */
  lemma BitSet(b: bv8, k: nat, x: bool)
    requires k < 8
    ensures forall j :: 0 <= j < k ==> BitAt(WithBit(b, k, x), j) == BitAt(b, j)
    ensures BitAt(WithBit(b, k, x), k) == (x || AheadOf(b, k)[0])
    ensures k < 7 ==> AheadOf(WithBit(b, k, x), k + 1) == AheadOf(b, k)[1..]
  {
    hide BitAt, WithBit;
    forall j | 0 <= j < 8
      ensures BitAt(WithBit(b, k, x), j) == (BitAt(b, j) || (j == k && x))
    {
      SetBit(b, k, x, j);
    }
    if k < 7 {
      var a, rest := AheadOf(WithBit(b, k, x), k + 1), AheadOf(b, k)[1..];
      assert forall j :: 0 <= j < 7 - k ==> a[j] == BitAt(WithBit(b, k, x), k + 1 + j) && rest[j] == BitAt(b, k + 1 + j);
    }
  }

  /** The bits a sequence of bytes holds. */
  function Bits(bytes: seq<bv8>): (b: seq<bool>)
    ensures |b| == 8 * |bytes|
  {
    seq(8 * |bytes|, i requires 0 <= i < 8 * |bytes| => BitAt(bytes[i / 8], i % 8))
  }

  lemma BitsConcat(a: seq<bv8>, b: seq<bv8>)
    ensures Bits(a + b) == Bits(a) + Bits(b)
  {}

  lemma BitsTake(a: seq<bv8>, n: nat)
    requires n <= |a|
    ensures Bits(a[..n]) == Bits(a)[..8 * n]
    ensures Bits(a[n..]) == Bits(a)[8 * n..]
  {}

  // ---- bytes as numbers ----

  lemma HalfByte(b: bv8)
    ensures b as int == 2 * ((b >> 1) as int) + (if b & 1 != 0 then 1 else 0)
  {}

  /** The upper k bits of a byte, moved down. */
  function Upper(b: bv8, k: nat): bv8
    requires k <= 8
    decreases 8 - k
  {
    if k == 8 then b else Halved(Upper(b, k + 1))
  }

  function Halved(b: bv8): bv8 { b >> 1 }

  lemma UpperHigh(b: bv8)
    ensures Upper(b, 8) == b && Upper(b, 7) == b >> 1 && Upper(b, 6) == b >> 2 && Upper(b, 5) == b >> 3 && Upper(b, 4) == b >> 4
  {
    assert Upper(b, 7) == Halved(Upper(b, 8));
    assert Upper(b, 6) == Halved(Upper(b, 7));
    assert Upper(b, 5) == Halved(Upper(b, 6));
    assert Upper(b, 4) == Halved(Upper(b, 5));
  }

  lemma UpperLow(b: bv8)
    ensures Upper(b, 3) == b >> 5 && Upper(b, 2) == b >> 6 && Upper(b, 1) == b >> 7 && Upper(b, 0) == 0
  {
    UpperHigh(b);
    assert Upper(b, 3) == Halved(Upper(b, 4));
    assert Upper(b, 2) == Halved(Upper(b, 3));
    assert Upper(b, 1) == Halved(Upper(b, 2));
    assert Upper(b, 0) == Halved(Upper(b, 1));
  }

  lemma LowestOfUpper(b: bv8, k: nat)
    requires 0 < k <= 8
    ensures BitAt(b, k - 1) <==> Upper(b, k) & 1 != 0
  {
    UpperHigh(b);
    UpperLow(b);
    hide Upper;
  }

  /** The bits of a byte, read as a number, are the byte: the most significant bit comes first. */
  lemma {:induction false} ByteIsNumber(b: bv8, k: nat)
    requires k <= 8
    ensures ValueOf(Bits([b])[..k]) == Upper(b, k) as int
  {
    hide BitAt;
    UpperLow(b);
    if k > 0 {
      ByteIsNumber(b, k - 1);
      LowestOfUpper(b, k);
      HalfByte(Upper(b, k));
      var all := Bits([b]);
      assert all[k - 1] == BitAt(b, k - 1);
      ValueLast(all[..k], k - 1);
      assert all[..k][..k - 1] == all[..k - 1];
      assert Upper(b, k - 1) == Halved(Upper(b, k));
    }
  }

  /** The byte that three bits 101, the zero and the four ones make. */
  lemma FiveInThreeBits()
    ensures Bits([0xaf]) == Terminated(BitsOf(5, 3))
  {
    var t := Terminated(BitsOf(5, 3));
    assert BitsOf(5, 3) == [true, false, true];
    assert t == [true, false, true, false, true, true, true, true];
  }
}

/** The Speex bit buffer of bits.c, for a buffer the object owns and growth that succeeds. */
module SpeexBuffer {
  import opened Arithmetic
  import opened BitStream
  import opened ByteBits

  /** What the next unpacking of n bits does: overflow, or a value and the rest of the stream. */
  datatype Unpacked = Overflow | Value(value: nat, rest: seq<bool>)

  function Unpack(stream: seq<bool>, n: nat): Unpacked {
    if n > |stream| then Overflow else Value(ValueOf(stream[..n]), stream[n..])
  }

  /** The whole bytes of a sequence of bits. */
  function Whole(b: seq<bool>): seq<bool> { b[..8 * (|b| / 8)] }

  /** Bits put over others: a set bit stays set. */
  function Over(bits: seq<bool>, ahead: seq<bool>): (o: seq<bool>)
    ensures |o| == |bits| && forall j :: 0 <= j < |bits| ==> o[j] == (bits[j] || (j < |ahead| && ahead[j]))
  {
    seq(|bits|, j requires 0 <= j < |bits| => bits[j] || (j < |ahead| && ahead[j]))
  }

  lemma OverClear(bits: seq<bool>, n: nat)
    ensures Over(bits, Clear(n)) == bits
  {}

  lemma OverNothing(s: seq<bool>, bits: seq<bool>, ahead: seq<bool>)
    requires |bits| == 0
    ensures s + Over(bits, ahead) == s
  {}

  lemma ClearStep(n: nat)
    requires n > 0
    ensures Clear(n)[1..] == Clear(n - 1) && !Clear(n)[0]
  {}

  /** What a write leaves ahead of the pointers: nothing behind a whole byte, else the terminator. */
  function LeftOver(length: nat): (a: seq<bool>)
    ensures |a| == 8 - length % 8
  {
    if length % 8 == 0 then Clear(8) else Terminator(length)
  }

  /** Data whose bits, but for the first, are ones as far as the terminator's ones lie ahead. */
  predicate FitsLeftOver(length: nat, bits: seq<bool>) {
    length % 8 in {0, 7} || forall j :: 1 <= j < |bits| && j < 8 - length % 8 ==> bits[j]
  }

  lemma LeftOverBits(length: nat, j: nat)
    requires j < 8 - length % 8
    ensures LeftOver(length)[j] == (length % 8 != 0 && j > 0)
  {}

  /** Bits packed after a write arrive as they are exactly when they fit what the write left over. */
  lemma OverLeftOver(length: nat, bits: seq<bool>)
    ensures Over(bits, LeftOver(length)) == bits <==> FitsLeftOver(length, bits)
  {
    hide LeftOver;
    var o := Over(bits, LeftOver(length));
    forall j | 0 <= j < |bits|
      ensures o[j] == (bits[j] || (j < 8 - length % 8 && length % 8 != 0 && j > 0))
    {
      if j < 8 - length % 8 { LeftOverBits(length, j); }
    }
    if o == bits && length % 8 != 0 {
      forall j | 1 <= j < |bits| && j < 8 - length % 8
        ensures bits[j]
      {
        assert o[j] == bits[j];
      }
    }
  }

  lemma {:induction false} BitsOfZero(n: nat)
    ensures BitsOf(0, n) == Clear(n)
  {
    if n > 0 {
      BitsOfZero(n - 1);
      assert [false] + Clear(n - 1) == Clear(n);
    }
  }

  /** So n bits of any data may follow a write exactly at two lengths modulo 8, or when n is at most 1. */
  lemma AnyDataFits(length: nat, n: nat)
    ensures (forall data: nat :: FitsLeftOver(length, BitsOf(data, n))) <==> length % 8 in {0, 7} || n <= 1
  {
    hide BitsOf;
    if length % 8 !in {0, 7} && n > 1 {
      BitsOfZero(n);
      assert !Clear(n)[1] && !FitsLeftOver(length, BitsOf(0, n));
    }
  }

  /** Two zero bits after a write of three bits do not arrive. */
  lemma ZerosAreLost()
    ensures Over(BitsOf(0, 2), LeftOver(3)) == [false, true]
  {
    BitsOfZero(2);
    LeftOverBits(3, 0);
    LeftOverBits(3, 1);
    hide BitsOf, LeftOver;
  }

  /** One bit of the loop: the rest goes over what is ahead after it. */
  lemma OverStep(s: seq<bool>, bit: bool, rest: seq<bool>, ahead: seq<bool>)
    requires |ahead| > 0
    ensures var next := if |ahead| == 1 then Clear(8) else ahead[1..];
      s + Over([bit] + rest, ahead) == (s + [bit || ahead[0]]) + Over(rest, next)
  {
    var next := if |ahead| == 1 then Clear(8) else ahead[1..];
    OverCons(bit, rest, ahead, next);
    hide Over, Clear;
    ConcatAssociative(s, [bit || ahead[0]], Over(rest, next));
  }

  lemma OverCons(bit: bool, rest: seq<bool>, ahead: seq<bool>, next: seq<bool>)
    requires |ahead| > 0 && next == if |ahead| == 1 then Clear(8) else ahead[1..]
    ensures Over([bit] + rest, ahead) == [bit || ahead[0]] + Over(rest, next)
  {}

  class SpeexBits {
    var chars: array<bv8>
    var nbBits: nat
    var charPtr: nat
    var bitPtr: nat
    var overflow: bool

    /** speex_bits_init. */
    constructor ()
      ensures fresh(chars) && chars.Length == 2000
      ensures Writing() && Stream() == [] && !overflow
    {
      chars := new bv8[2000];
      nbBits, charPtr, bitPtr, overflow := 0, 0, 0, false;
      new;
      chars[0] := 0;
      AllZero();
    }

    function Position(): nat
      reads this
    {
      8 * charPtr + bitPtr
    }

    /** The bits in the buffer. */
    function Stream(): (s: seq<bool>)
      requires nbBits <= 8 * chars.Length
      reads this, chars
      ensures |s| == nbBits
    {
      seq(nbBits, i requires 0 <= i < nbBits reads this, chars requires nbBits <= 8 * chars.Length =>
        BitAt(chars[i / 8], i % 8))
    }

    /** What is left to read. */
    function Unread(): seq<bool>
      requires Reading()
      reads this, chars
    {
      Stream()[Position()..]
    }

    /** The pointers stand behind the last bit, inside the buffer. */
    ghost predicate Open()
      reads this
    {
      bitPtr < 8 && charPtr < chars.Length && nbBits == Position()
    }

    /** What the rest of the current byte holds. */
    function Ahead(): (a: seq<bool>)
      requires bitPtr < 8 && charPtr < chars.Length
      reads this, chars
      ensures |a| == 8 - bitPtr
    {
      AheadOf(chars[charPtr], bitPtr)
    }

    /** The buffer is open and the rest of the current byte is clear: the state packing expects. */
    ghost predicate Writing()
      reads this, chars
    {
      Open() && Ahead() == Clear(8 - bitPtr)
    }

    ghost predicate Reading()
      reads this, chars
    {
      bitPtr < 8 && Position() <= nbBits <= 8 * chars.Length
    }

    lemma AllZero()
      requires bitPtr == 0 && charPtr < chars.Length && chars[charPtr] == 0
      ensures Ahead() == Clear(8)
    {
      NothingAhead(0);
    }

    /** speex_bits_reset: only the first byte needs clearing. */
    method Reset()
      requires chars.Length > 0
      modifies this, chars
      ensures Writing() && Stream() == [] && !overflow && chars == old(chars)
    {
      chars[0] := 0;
      nbBits, charPtr, bitPtr, overflow := 0, 0, 0, false;
      AllZero();
    }

    /** speex_bits_rewind. */
    method Rewind()
      requires nbBits <= 8 * chars.Length
      modifies this
      ensures Reading() && Stream() == old(Stream()) && Unread() == Stream() && !overflow
      ensures chars == old(chars)
    {
      charPtr, bitPtr, overflow := 0, 0, false;
    }

    /** Reallocation: the old bytes survive, the new ones are arbitrary. */
    method Resize(size: nat)
      requires nbBits <= 8 * chars.Length && chars.Length <= size
      modifies this`chars
      ensures fresh(chars) && chars.Length == size
      ensures Stream() == old(Stream())
      ensures old(Open()) ==> Open() && Ahead() == old(Ahead())
      ensures old(Reading()) ==> Reading() && Unread() == old(Unread())
    {
      hide BitAt;
      var tmp := new bv8[size];
      for i := 0 to chars.Length
        modifies tmp
        invariant forall k :: 0 <= k < i ==> tmp[k] == chars[k]
      {
        tmp[i] := chars[i];
      }
      chars := tmp;
    }

    /** The step of the packing loop: one bit goes over what the buffer holds at the pointers. */
    method PackBit(bit: bool)
      requires Open() && charPtr + (bitPtr + 1) / 8 < chars.Length
      modifies this`nbBits, this`charPtr, this`bitPtr, chars
      ensures Open() && Position() == old(Position()) + 1
      ensures Stream() == old(Stream()) + [bit || old(Ahead())[0]]
      ensures Ahead() == if old(bitPtr) == 7 then Clear(8) else old(Ahead())[1..]
    {
      hide BitAt, WithBit, AheadOf;
      ghost var before, c := chars[..], charPtr;
      BitSet(chars[charPtr], bitPtr, bit);
      chars[charPtr] := WithBit(chars[charPtr], bitPtr, bit);
      bitPtr := bitPtr + 1;
      if bitPtr == 8 {
        bitPtr := 0;
        charPtr := charPtr + 1;
        chars[charPtr] := 0;
        AllZero();
      }
      nbBits := nbBits + 1;
      forall i | 0 <= i < nbBits
        ensures Stream()[i] == (old(Stream()) + [bit || old(Ahead())[0]])[i]
      {
        if i / 8 == c {
          assert i == 8 * c + i % 8;
        } else {
          assert chars[i / 8] == before[i / 8];
        }
      }
    }

    /** The growth step of speex_bits_pack: one is always enough. */
    method MakeRoom(n: nat)
      requires Open() && n <= 32
      modifies this`chars
      ensures Open() && Stream() == old(Stream()) && Ahead() == old(Ahead()) && Position() + n < 8 * chars.Length
      ensures chars == old(chars) || fresh(chars)
      ensures chars.Length == if charPtr + (n + bitPtr) / 8 >= old(chars.Length)
                              then (old(chars.Length) + 5) * 3 / 2 else old(chars.Length)
    {
      hide BitAt, Stream, Ahead;
      if charPtr + (n + bitPtr) / 8 >= chars.Length {
        assert nbBits <= 8 * chars.Length;
        Resize((chars.Length + 5) * 3 / 2);
      }
    }

    /** The loop of speex_bits_pack, in a buffer with room. */
    method PackLoop(data: nat, n: nat)
      requires Open() && Position() + n < 8 * chars.Length
      modifies this`nbBits, this`charPtr, this`bitPtr, chars
      ensures Open() && Stream() == old(Stream()) + Over(BitsOf(data, n), old(Ahead()))
      ensures old(Writing()) ==> Writing()
    {
      hide BitAt, Stream, BitsOf, Ahead, AheadOf, Over, Clear, TwoTo;
      ghost var goal, clear := Stream() + Over(BitsOf(data, n), Ahead()), Writing();
      var left := n;
      while left > 0
        invariant Open() && Position() + left < 8 * chars.Length
        invariant Stream() + Over(BitsOf(data, left), Ahead()) == goal
        invariant clear ==> Ahead() == Clear(8 - bitPtr)
      {
        var bit := data / TwoTo(left - 1) % 2 == 1;
        BitsStep(data, left);
        OverStep(Stream(), bit, BitsOf(data, left - 1), Ahead());
        ClearStep(8 - bitPtr);
        PackBit(bit);
        left := left - 1;
      }
      OverNothing(Stream(), BitsOf(data, 0), Ahead());
    }

    /**
     speex_bits_pack: the n low bits of data go over what the rest of the current byte holds, which is
     an append when that is clear.
     */
    method Pack(data: nat, n: nat)
      requires Open() && n <= 32
      modifies this, chars
      ensures Open() && Stream() == old(Stream()) + Over(BitsOf(data, n), old(Ahead()))
      ensures old(Writing()) ==> Writing() && Stream() == old(Stream()) + BitsOf(data, n)
      ensures overflow == old(overflow) && (chars == old(chars) || fresh(chars))
      ensures chars.Length == if old(charPtr) + (n + old(bitPtr)) / 8 >= old(chars.Length)
                              then (old(chars.Length) + 5) * 3 / 2 else old(chars.Length)
    {
      hide BitAt, Stream, BitsOf, Ahead, Over, Clear;
      OverClear(BitsOf(data, n), 8 - bitPtr);
      MakeRoom(n);
      PackLoop(data, n);
    }

    /** The bit under the pointers is the first unread one. */
    lemma FirstUnread()
      requires Reading() && Position() < nbBits
      ensures charPtr < chars.Length && Unread() != []
      ensures BitAt(chars[charPtr], bitPtr) == Unread()[0]
    {
      assert Position() / 8 == charPtr && Position() % 8 == bitPtr;
    }

    /** The step of the unpacking loop: the bit under the pointers. */
    method NextBit() returns (bit: bool)
      requires Reading() && Position() < nbBits
      modifies this`charPtr, this`bitPtr
      ensures Reading() && Stream() == old(Stream()) && Position() == old(Position()) + 1
      ensures [bit] + Unread() == old(Unread())
    {
      FirstUnread();
      bit := BitAt(chars[charPtr], bitPtr);
      bitPtr := bitPtr + 1;
      if bitPtr == 8 {
        bitPtr := 0;
        charPtr := charPtr + 1;
      }
    }

    /** speex_bits_unpack_unsigned. */
    method UnpackUnsigned(n: nat) returns (d: nat)
      requires Reading() && n <= 32
      modifies this`charPtr, this`bitPtr, this`overflow
      ensures Reading() && Stream() == old(Stream())
      ensures overflow == (old(overflow) || n > |old(Unread())|)
      ensures if overflow then d == 0 && Unread() == old(Unread())
              else Unpack(old(Unread()), n) == Value(d, Unread())
      ensures d < TwoTo(n)
    {
      hide BitAt, ValueOf;
      d := 0;
      EmptyValue();
      assert |Unread()| == nbBits - Position();
      if Position() + n > nbBits { overflow := true; }
      if overflow { return; }
      var left := n;
      ghost var all := Unread();
      while left > 0
        invariant 0 <= left <= n && Reading() && Stream() == old(Stream()) && !overflow
        invariant Unread() == all[n - left..] && d == ValueOf(all[..n - left])
      {
        ghost var before := Unread();
        var bit := NextBit();
        assert Unread() == before[1..] && bit == before[0] == all[n - left];
        ValueStep(all, n - left);
        d := 2 * d + (if bit then 1 else 0);
        left := left - 1;
      }
      ValueBound(all[..n]);
    }

    /** speex_bits_peek_unsigned: the same value, the pointers stay. */
    method PeekUnsigned(n: nat) returns (d: nat)
      requires Reading() && n <= 32
      modifies this`overflow
      ensures Reading() && Stream() == old(Stream()) && Unread() == old(Unread())
      ensures overflow == (old(overflow) || n > |Unread()|)
      ensures if overflow then d == 0 else d == ValueOf(Unread()[..n])
    {
      hide BitAt, ValueOf;
      d := 0;
      assert |Unread()| == nbBits - Position();
      assert [] == Unread()[..0] && ValueOf([]) == 0 by { EmptyValue(); }
      if Position() + n > nbBits { overflow := true; }
      if overflow { return; }
      var b, c, left := bitPtr, charPtr, n;
      ghost var all := Unread();
      while left > 0
        invariant !overflow && 0 <= left <= n && b < 8 && 8 * c + b == Position() + (n - left)
        invariant d == ValueOf(all[..n - left])
      {
        ValueStep(all, n - left);
        assert all[n - left] == Stream()[8 * c + b];
        assert (8 * c + b) / 8 == c && (8 * c + b) % 8 == b;
        d := 2 * d + (if BitAt(chars[c], b) then 1 else 0);
        b := b + 1;
        if b == 8 {
          b := 0;
          c := c + 1;
        }
        left := left - 1;
      }
    }

    /** speex_bits_advance: skips what an unpacking of n bits would consume. */
    method Advance(n: nat)
      requires Reading()
      modifies this`charPtr, this`bitPtr, this`overflow
      ensures Reading() && Stream() == old(Stream())
      ensures overflow == (old(overflow) || n > |old(Unread())|)
      ensures Unread() == if overflow then old(Unread()) else old(Unread())[n..]
    {
      if Position() + n > nbBits || overflow {
        overflow := true;
        return;
      }
      charPtr, bitPtr := charPtr + (bitPtr + n) / 8, (bitPtr + n) % 8;
    }

    /** speex_bits_remaining. */
    method Remaining() returns (r: int)
      requires Reading()
      ensures r == if overflow then -1 else |Unread()|
    {
      r := if overflow then -1 else nbBits - Position();
    }

    /** speex_bits_read_from: replaces the contents, growing the buffer when the packet is larger. */
    method ReadFrom(input: seq<bv8>)
      requires nbBits <= 8 * chars.Length
      modifies this, chars
      ensures Reading() && Stream() == Bits(input) == Unread() && !overflow
      ensures chars == old(chars) || fresh(chars)
    {
      if |input| > chars.Length {
        Resize(|input|);
      }
      for i := 0 to |input|
        invariant |input| <= chars.Length
        invariant chars == old(chars) || fresh(chars)
        invariant forall k :: 0 <= k < i ==> chars[k] == input[k]
      {
        chars[i] := input[i];
      }
      nbBits, charPtr, bitPtr, overflow := 8 * |input|, 0, 0, false;
      assert Stream() == Bits(input);
    }

    /** The bytes that hold the bits, the last one possibly in part. */
    function ByteCount(): nat
      reads this
    {
      (nbBits + 7) / 8
    }

    lemma StreamIsBits()
      requires nbBits <= 8 * chars.Length
      ensures Stream() == Bits(chars[..])[..nbBits]
    {}

    /** The stream from the byte on that is being read. */
    function Pending(): (p: seq<bool>)
      requires Reading()
      reads this, chars
      ensures |p| == nbBits - 8 * charPtr
    {
      Stream()[8 * charPtr..]
    }

    lemma UnreadIsPending()
      requires Reading()
      ensures bitPtr <= |Pending()| == nbBits - 8 * charPtr && Unread() == Pending()[bitPtr..]
    {}

    /** The move of the bytes not yet read to the front. */
    method MoveToFront(from: nat, count: nat)
      requires from + count <= chars.Length
      modifies chars
      ensures chars[..count] == old(chars[from..from + count])
    {
      ghost var before := chars[..];
      for i := 0 to count
        invariant forall k :: 0 <= k < i ==> chars[k] == before[k + from]
        invariant forall k :: i <= k < chars.Length ==> chars[k] == before[k]
      {
        chars[i] := chars[i + from];
      }
    }

    /** speex_bits_flush: drops the bytes already read. */
    method Flush()
      requires Reading()
      modifies this`nbBits, this`charPtr, chars
      ensures Reading() && Pending() == old(Pending()) && charPtr == 0 && bitPtr == old(bitPtr)
      ensures nbBits == old(nbBits) - 8 * old(charPtr) && chars == old(chars)
    {
      hide BitAt, Bits, Stream;
      ghost var before, kept := chars[..], ByteCount() - charPtr;
      StreamIsBits();
      if charPtr > 0 { MoveToFront(charPtr, ByteCount() - charPtr); }
      assert chars[..kept] == before[charPtr..][..kept];
      MovedBits(before, chars[..], charPtr, kept, 0, nbBits);
      nbBits := nbBits - 8 * charPtr;
      charPtr := 0;
      StreamIsBits();
    }

    /**
     speex_bits_read_whole_bytes: the bytes go behind the last whole byte of what is left to read. Bits
     beyond it are overwritten, and as many arbitrary ones count as read in; aligned contents lose nothing.
     */
    method ReadWholeBytes(input: seq<bv8>)
      requires Reading()
      modifies this, chars
      ensures Reading() && bitPtr == old(bitPtr) && |Pending()| == |old(Pending())| + 8 * |input|
      ensures Whole(Pending()) == Whole(old(Pending())) + Bits(input)
      ensures old(nbBits) % 8 == 0 ==> nbBits % 8 == 0 && Unread() == old(Unread()) + Bits(input)
      ensures overflow == old(overflow) && (chars == old(chars) || fresh(chars))
    {
      hide BitAt, Bits, Stream, Pending, Unread, Whole;
      UnreadIsPending();
      ghost var pending := Pending();
      GrowForBytes(|input|);
      Flush();
      AppendBytes(input);
      UnreadIsPending();
      if old(nbBits) % 8 == 0 { AlignedAppend(pending, Pending(), Bits(input), bitPtr); }
    }

    /** Room for some more bytes behind the stream. */
    method GrowForBytes(count: nat)
      requires Reading()
      modifies this`chars
      ensures Reading() && Pending() == old(Pending()) && (nbBits + 7) / 8 + count <= chars.Length
      ensures chars == old(chars) || fresh(chars)
    {
      hide BitAt, Stream;
      if ByteCount() + count > chars.Length { Resize(nbBits / 8 + count + 1); }
    }

    /** The copying loop of speex_bits_read_whole_bytes. */
    method AppendBytes(input: seq<bv8>)
      requires Reading() && (nbBits + 7) / 8 + |input| <= chars.Length && charPtr == 0
      modifies this`nbBits, chars
      ensures Reading() && nbBits == old(nbBits) + 8 * |input|
      ensures Whole(Pending()) == Whole(old(Pending())) + Bits(input)
    {
      hide BitAt, Bits, Stream;
      var pos := nbBits / 8;
      StreamIsBits();
      ghost var before := chars[..];
      for i := 0 to |input|
        modifies chars
        invariant forall k :: 0 <= k < pos ==> chars[k] == before[k]
        invariant forall k :: 0 <= k < i ==> chars[pos + k] == input[k]
      {
        chars[pos + i] := input[i];
      }
      assert chars[..pos + |input|] == before[..pos] + input;
      BitsConcat(before[..pos], input);
      BitsTake(before, pos);
      BitsTake(chars[..], pos + |input|);
      assert chars[..][..pos + |input|] == chars[..pos + |input|];
      nbBits := nbBits + 8 * |input|;
      StreamIsBits();
      WholePrefix(Bits(before), old(nbBits));
      WholePrefix(Bits(chars[..]), nbBits);
    }

    /** Packing a single bit. */
    method PackOne(bit: bool)
      requires Writing()
      modifies this, chars
      ensures Writing() && Stream() == old(Stream()) + [bit]
      ensures bitPtr == if old(bitPtr) == 7 then 0 else old(bitPtr) + 1
      ensures overflow == old(overflow) && (chars == old(chars) || fresh(chars))
    {
      hide BitAt, Stream, BitsOf;
      OneBit();
      Pack(if bit then 1 else 0, 1);
    }

    /** The loop of speex_bits_insert_terminator: ones up to the byte boundary. */
    method PadWithOnes()
      requires Writing()
      modifies this, chars
      ensures Writing() && bitPtr == 0
      ensures Stream() == old(Stream()) + Ones(if old(bitPtr) == 0 then 0 else 8 - old(bitPtr))
      ensures overflow == old(overflow) && (chars == old(chars) || fresh(chars))
    {
      InRange();
      hide Stream, Writing;
      ghost var start, n := Stream(), 0;
      while bitPtr != 0
        invariant 0 <= bitPtr < 8 && Writing()
        invariant overflow == old(overflow) && (chars == old(chars) || fresh(chars))
        invariant if bitPtr == 0 then n == (if old(bitPtr) == 0 then 0 else 8 - old(bitPtr)) else n == bitPtr - old(bitPtr)
        invariant Stream() == start + Ones(n)
        decreases if bitPtr == 0 then 0 else 8 - bitPtr
      {
        PackOne(true);
        n := n + 1;
        assert Stream() == start + Ones(n);
      }
    }

    lemma InRange()
      requires Writing()
      ensures bitPtr < 8 && bitPtr == |Stream()| % 8
      ensures charPtr < chars.Length && nbBits == Position()
    {}

    /** speex_bits_insert_terminator. */
    method InsertTerminator()
      requires Writing()
      modifies this, chars
      ensures Writing() && Stream() == Terminated(old(Stream())) && bitPtr == 0
      ensures overflow == old(overflow) && (chars == old(chars) || fresh(chars))
    {
      InRange();
      hide Stream, Writing, Ones;
      ghost var start := Stream();
      if bitPtr != 0 {
        PackOne(false);
      }
      PadWithOnes();
      NoOnes();
      assert Stream() == start + Terminator(|start|);
    }

    /**
     speex_bits_write: the terminator goes in, the counters are put back, the bytes are copied out.
     The bits written so far stay; the terminator stays ahead of the pointers in the last byte.
     */
    method Write(max: nat) returns (output: seq<bv8>)
      requires Writing()
      modifies this, chars
      ensures var all := Terminated(old(Stream()));
        8 * |output| <= |all| && Bits(output) == all[..8 * |output|] && |output| == if max < |all| / 8 then max else |all| / 8
      ensures Reading() && Stream() == old(Stream()) && Position() == old(Position())
      ensures overflow == old(overflow) && (chars == old(chars) || fresh(chars))
      ensures Open() && Ahead() == LeftOver(|old(Stream())|)
    {
      hide BitAt, Bits, Stream, Terminated, Ahead, LeftOver, Clear;
      InRange();
      var savedBit, savedChar, savedCount := bitPtr, charPtr, nbBits;
      ghost var written := Stream();
      InsertTerminator();
      InRange();
      ghost var all := Stream();
      assert all[..savedCount] == written by { TerminatedExtends(written); }
      Restore(savedBit, savedChar, savedCount);
      output := CopyOut(if max > ByteCount() then ByteCount() else max);
      BitsTake(chars[..], |output|);
      assert chars[..][..|output|] == output;
    }

    /** The counters go back to where they stood before the terminator; the bits stay where they are. */
    method Restore(savedBit: nat, savedChar: nat, savedCount: nat)
      requires Writing() && bitPtr == 0 && savedCount == 8 * savedChar + savedBit && savedBit < 8
      requires savedCount <= nbBits && Stream() == Terminated(Stream()[..savedCount])
      modifies this`bitPtr, this`charPtr, this`nbBits
      ensures bitPtr == savedBit && charPtr == savedChar && nbBits == savedCount
      ensures Reading() && Stream() == old(Stream())[..savedCount]
      ensures Bits(chars[..])[..|old(Stream())|] == old(Stream()) && |old(Stream())| <= 8 * chars.Length
      ensures Open() && Ahead() == LeftOver(savedCount)
    {
      hide BitAt, Bits, Stream, AheadOf, Clear, Terminated;
      ghost var all := Stream();
      StreamIsBits();
      bitPtr, charPtr, nbBits := savedBit, savedChar, savedCount;
      StreamIsBits();
      if savedBit > 0 { TerminatorAhead(all); }
    }

    method CopyOut(count: nat) returns (output: seq<bv8>)
      requires count <= chars.Length
      ensures output == chars[..count]
    {
      output := [];
      for i := 0 to count
        invariant output == chars[..i]
      {
        output := output + [chars[i]];
      }
    }

    /** When the stream does not end with a byte, the terminator is what lies ahead. */
    lemma TerminatorAhead(all: seq<bool>)
      requires 0 < bitPtr < 8 && nbBits == Position() && |all| <= 8 * chars.Length && charPtr < chars.Length
      requires nbBits <= |all| && all == Bits(chars[..])[..|all|] && all == Terminated(all[..nbBits])
      ensures Ahead() == Terminator(nbBits)
    {
      hide BitAt, Bits, Terminator;
      var t, a := Terminator(nbBits), Ahead();
      assert nbBits % 8 == bitPtr && |t| == 8 - bitPtr;
      forall k | 0 <= k < 8 - bitPtr
        ensures a[k] == t[k]
      {
        BitOfByte(chars[..], charPtr, bitPtr + k);
        assert all[nbBits + k] == t[k];
      }
    }

    /** speex_bits_write_whole_bytes with room for all of them: the partial byte moves to the front. */
    method WriteWholeBytes(max: nat) returns (output: seq<bv8>)
      requires Writing()
      modifies this`charPtr, this`nbBits, chars
      ensures |output| == if max < |old(Stream())| / 8 then max else |old(Stream())| / 8
      ensures Bits(output) == old(Stream())[..8 * |output|]
      ensures max >= |old(Stream())| / 8 ==> Writing() && Bits(output) + Stream() == old(Stream())
      ensures chars == old(chars) && nbBits == |old(Stream())| % 8
    {
      hide BitAt, Bits, Stream, AheadOf, Clear;
      var count := if max > nbBits / 8 then nbBits / 8 else max;
      StreamIsBits();
      ghost var written, before := Stream(), chars[..];
      output := CopyOut(count);
      BitsTake(before, count);
      if bitPtr > 0 {
        chars[0] := chars[count];
      } else {
        chars[0] := 0;
      }
      charPtr := 0;
      if bitPtr == 0 { AllZero(); }
      nbBits := nbBits % 8;
      if max >= |written| / 8 {
        PartialByte(before, chars[..], count, bitPtr);
        StreamIsBits();
        SplitAt(Bits(before), 8 * count, |written|);
      }
    }

    lemma BitOfByte(bytes: seq<bv8>, c: nat, k: nat)
      requires c < |bytes| && k < 8
      ensures Bits(bytes)[8 * c + k] == BitAt(bytes[c], k)
    {}

    lemma NoOnes()
      ensures Ones(0) == []
    {}

    lemma OneBit()
      ensures BitsOf(0, 1) == [false] && BitsOf(1, 1) == [true]
    {
      assert TwoTo(0) == 1;
    }
  }

  lemma BitsStep(d: nat, n: nat)
    requires n > 0
    ensures BitsOf(d, n) == [d / TwoTo(n - 1) % 2 == 1] + BitsOf(d, n - 1)
  {}

  lemma TerminatedExtends(b: seq<bool>)
    ensures |b| <= |Terminated(b)| && Terminated(b)[..|b|] == b
  {}

  lemma EmptyValue()
    ensures ValueOf([]) == 0
  {}

  lemma ValueStep(all: seq<bool>, k: nat)
    requires k < |all|
    ensures ValueOf(all[..k + 1]) == 2 * ValueOf(all[..k]) + (if all[k] then 1 else 0)
  {
    assert all[..k + 1][..k] == all[..k];
  }

  /** The first k bits of a moved byte. */
  lemma PartialByte(before: seq<bv8>, after: seq<bv8>, c: nat, k: nat)
    requires c < |before| && k < 8 && 0 < |after| && (k > 0 ==> after[0] == before[c])
    ensures Bits(after)[..k] == Bits(before)[8 * c..8 * c + k]
  {
    hide BitAt;
  }

  lemma WholePrefix(all: seq<bool>, n: nat)
    requires n <= |all|
    ensures Whole(all[..n]) == all[..8 * (n / 8)]
  {}

  lemma AlignedAppend(before: seq<bool>, after: seq<bool>, input: seq<bool>, from: nat)
    requires |before| % 8 == 0 == |after| % 8 && Whole(after) == Whole(before) + input && from <= |before|
    ensures after == before + input && after[from..] == before[from..] + input
  {
    assert Whole(before) == before && Whole(after) == after;
  }

  lemma SplitAt(all: seq<bool>, a: nat, n: nat)
    requires a <= n <= |all|
    ensures all[..n] == all[..n][..a] + all[a..n]
  {}

  /** Moving bytes to the front moves the bits they hold. */
  lemma MovedBits(before: seq<bv8>, after: seq<bv8>, skip: nat, kept: nat, from: nat, end: nat)
    requires skip + kept <= |before| && kept <= |after| && after[..kept] == before[skip..][..kept]
    requires 8 * skip + from <= end <= 8 * (skip + kept)
    ensures Bits(before)[..end][8 * skip + from..] == Bits(after)[..end - 8 * skip][from..]
  {
    hide BitAt, Bits;
    BitsTake(before, skip);
    BitsTake(before[skip..], kept);
    BitsTake(after, kept);
    SameTail(Bits(before), Bits(after), 8 * skip, 8 * kept, from, end);
  }

  lemma SameTail(all: seq<bool>, moved: seq<bool>, skip: nat, kept: nat, from: nat, end: nat)
    requires skip + from <= end <= skip + kept <= |all| && kept <= |moved|
    requires moved[..kept] == all[skip..][..kept]
    ensures all[..end][skip + from..] == moved[..end - skip][from..]
  {
    var x, y := all[..end][skip + from..], moved[..end - skip][from..];
    forall i | 0 <= i < end - skip - from
      ensures x[i] == y[i]
    {
      assert moved[from + i] == moved[..kept][from + i] == all[skip..][..kept][from + i];
    }
  }
}
